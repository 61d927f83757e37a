/** The frames the control plane writes, and what the edge's decoder makes of
    them over any connection. */
module EventFrames {
  import opened Text
  import opened EventStream
  import opened EventStandard

  datatype Item = Bundle(payload: string) | KeepAlive

  /** Payloads are JSON texts, which hold no raw line terminator (`PayloadIsOneLine`). */
  ghost predicate Writable(items: seq<Item>) {
    forall i :: 0 <= i < |items| && items[i].Bundle? ==> OneLine(items[i].payload)
  }

  function ItemText(item: Item): string {
    match item
    case Bundle(payload) => "event: bundle\ndata: " + payload + "\n\n"
    case KeepAlive => ": keepalive\n\n"
  }

  function StreamText(items: seq<Item>): string {
    if items == [] then "" else ItemText(items[0]) + StreamText(items[1..])
  }

  function ItemEvents(item: Item): seq<Event> {
    match item
    case Bundle(payload) => [Event("bundle", payload)]
    case KeepAlive => []
  }

  /** The announcements, in the order written. */
  function Announced(items: seq<Item>): seq<Event> {
    if items == [] then [] else ItemEvents(items[0]) + Announced(items[1..])
  }

  // ----- one item -----

  lemma {:induction false} EndingAfter(line: string, rest: string)
    requires OneLine(line)
    ensures FindEnding(line + [LF] + rest) == Some(LineEnding(|line|, 1))
  {
    var text := line + [LF] + rest;
    if line != "" {
      EndingAfter(line[1..], rest);
      assert text[1..] == line[1..] + [LF] + rest;
    }
  }

  lemma TakesLine(f: Fields, line: string, rest: string)
    requires OneLine(line)
    ensures Drain(Decoder(line + [LF] + rest, f)) == Followed(Processed(line, f).1, Drain(Decoder(rest, Processed(line, f).0)))
  {
    hide FindEnding, Processed;
    var d := Decoder(line + [LF] + rest, f);
    EndingAfter(line, rest);
    DrainByLine(d);
    assert d.buffer[..|line|] == line && d.buffer[|line| + 1..] == rest;
  }

  const EVENT_LINE := "event: bundle"

  lemma {:induction false} IndexOfFirst(s: string, c: char, n: nat)
    requires n < |s| && s[n] == c && c !in s[..n]
    ensures IndexOf(s, c) == n
  {
    if n > 0 {
      assert s[0] == s[..n][0] && s[1..][..n - 1] == s[..n][1..];
      IndexOfFirst(s[1..], c, n - 1);
    }
  }

  /** A field line, read back as its name and value. */
  lemma FieldLineReads(name: string, value: string)
    requires name != "" && ':' !in name
    ensures var line := name + ": " + value;
      line != "" && !StartsWith(line, ":") && FieldName(line) == name && FieldValue(line) == value
  {
    var line := name + ": " + value;
    assert line[..1] == [name[0]] && name[0] in name;
    assert line[|name|] == ':' && line[..|name|] == name;
    IndexOfFirst(line, ':', |name|);
    assert line[|name| + 1..] == " " + value;
    assert (" " + value)[..1] == " " && (" " + value)[1..] == value;
  }

  lemma EventLineMeans(f: Fields)
    ensures Processed(EVENT_LINE, f) == (f.(eventType := "bundle"), [])
  {
    hide FieldName, FieldValue;
    FieldLineReads("event", "bundle");
    assert EVENT_LINE == "event" + ": " + "bundle";
  }

  lemma DataLineMeans(payload: string, f: Fields)
    ensures Processed("data: " + payload, f) == (f.(dataLines := f.dataLines + [payload]), [])
  {
    hide FieldName, FieldValue;
    FieldLineReads("data", payload);
    assert "data: " + payload == "data" + ": " + payload;
  }

  /** A frame up to its closing blank line, and the decoder's state there. */
  function Opening(item: Item): string {
    match item
    case Bundle(payload) => EVENT_LINE + [LF] + ("data: " + payload + [LF])
    case KeepAlive => ": keepalive" + [LF]
  }

  function Opened(item: Item): Fields {
    match item
    case Bundle(payload) => Fields("bundle", [payload])
    case KeepAlive => NO_FIELDS
  }

  lemma ItemTextIs(item: Item)
    ensures ItemText(item) == Opening(item) + [LF]
  {
    match item
    case Bundle(payload) =>
      assert "event: bundle\ndata: " == EVENT_LINE + [LF] + "data: ";
      assert "\n\n" == [LF] + [LF];
      assert Opening(item) + [LF] == EVENT_LINE + [LF] + "data: " + payload + [LF] + [LF];
    case KeepAlive =>
      assert ": keepalive\n\n" == ": keepalive" + [LF] + [LF];
  }

  lemma OpeningRead(item: Item, rest: string)
    requires item.Bundle? ==> OneLine(item.payload)
    ensures Drain(Decoder(Opening(item) + rest, NO_FIELDS)) == Drain(Decoder(rest, Opened(item)))
  {
    hide Drain, Processed;
    match item
    case Bundle(payload) =>
      var data := "data: " + payload;
      assert Opening(item) + rest == EVENT_LINE + [LF] + (data + [LF] + rest);
      assert OneLine(EVENT_LINE);
      TakesLine(NO_FIELDS, EVENT_LINE, data + [LF] + rest);
      EventLineMeans(NO_FIELDS);
      assert OneLine(data);
      TakesLine(Fields("bundle", []), data, rest);
      DataLineMeans(payload, Fields("bundle", []));
      assert [] + [payload] == [payload];
      FollowedTwice([], [], Drain(Decoder(rest, Opened(item))));
      FollowedTwice([], [], Drain(Decoder(data + [LF] + rest, Fields("bundle", []))));
    case KeepAlive =>
      assert Opening(item) + rest == ": keepalive" + [LF] + rest;
      TakesLine(NO_FIELDS, ": keepalive", rest);
      CommentMeans();
      FollowedTwice([], [], Drain(Decoder(rest, NO_FIELDS)));
  }

  lemma CommentMeans()
    ensures Processed(": keepalive", NO_FIELDS) == (NO_FIELDS, [])
  {
    assert ": keepalive"[..1] == ":";
  }

  lemma BlankLineFires(item: Item)
    ensures Processed("", Opened(item)) == (NO_FIELDS, ItemEvents(item))
  {
  }

  lemma ItemRead(item: Item, rest: string)
    requires item.Bundle? ==> OneLine(item.payload)
    ensures Drain(Decoder(ItemText(item) + rest, NO_FIELDS)) == Followed(ItemEvents(item), Drain(Decoder(rest, NO_FIELDS)))
  {
    hide Drain, Processed, ItemText, Opening;
    ItemTextIs(item);
    assert Opening(item) + [LF] + rest == Opening(item) + ("" + [LF] + rest);
    OpeningRead(item, "" + [LF] + rest);
    TakesLine(Opened(item), "", rest);
    BlankLineFires(item);
  }

  // ----- whole streams -----

  lemma {:induction false} StreamRead(items: seq<Item>, rest: string)
    requires Writable(items)
    ensures Drain(Decoder(StreamText(items) + rest, NO_FIELDS)) == Followed(Announced(items), Drain(Decoder(rest, NO_FIELDS)))
  {
    hide Drain, ItemText, ItemEvents;
    if items == [] {
      FollowedTwice([], [], Drain(Decoder(rest, NO_FIELDS)));
      assert StreamText(items) + rest == rest;
    } else {
      assert Writable(items[1..]) by {
        forall i | 0 <= i < |items[1..]| && items[1..][i].Bundle? ensures OneLine(items[1..][i].payload) {
          assert items[1..][i] == items[i + 1];
        }
      }
      StreamRead(items[1..], rest);
      ItemRead(items[0], StreamText(items[1..]) + rest);
      assert StreamText(items) + rest == ItemText(items[0]) + (StreamText(items[1..]) + rest);
      FollowedTwice(ItemEvents(items[0]), Announced(items[1..]), Drain(Decoder(rest, NO_FIELDS)));
    }
  }

  /** Any sequence of frames and keep-alive comments, cut into any chunks,
      decodes to exactly the announced payloads in order and leaves nothing over. */
  lemma FramesRoundTrip(items: seq<Item>, chunks: seq<string>)
    requires Writable(items) && Concat(chunks) == StreamText(items)
    ensures FedAll(IDLE, chunks) == (IDLE, Announced(items))
  {
    hide Drain, StreamText, Announced, FedAll, Concat;
    ChunkingUnobservable(IDLE, chunks);
    assert "" + StreamText(items) == StreamText(items) == StreamText(items) + "";
    StreamRead(items, "");
    NothingToDrain(NO_FIELDS);
    assert Announced(items) + [] == Announced(items);
  }

  /** How many items are complete within the first characters of the stream. */
  function Complete(items: seq<Item>, n: nat): (k: nat)
    ensures k <= |items|
  {
    if items == [] || n < |ItemText(items[0])| then 0
    else 1 + Complete(items[1..], n - |ItemText(items[0])|)
  }

  /** Cutting a text in its second half cuts only the second half. */
  lemma CutLater(first: string, later: string, done: string, n: nat)
    requires |first| + |done| <= n <= |first + later| && done <= later
    ensures (first + later)[|first| + |done|..n] == later[|done|..n - |first|]
    ensures first + done <= first + later
  {
    assert later == done + later[|done|..];
    assert first + later == (first + done) + later[|done|..];
  }

  /** A stream cut anywhere is its complete items and a part of the next. */
  lemma {:induction false} CutStream(items: seq<Item>, n: nat)
    requires n <= |StreamText(items)|
    ensures var k := Complete(items, n);
      var done := StreamText(items[..k]);
      && |done| <= n && done <= StreamText(items)
      && (k < |items| ==> StreamText(items)[|done|..n] < ItemText(items[k]))
      && (k == |items| ==> |done| == n)
  {
    hide ItemText;
    if items != [] && n >= |ItemText(items[0])| {
      hide StreamText;
      var first, later := ItemText(items[0]), StreamText(items[1..]);
      StreamCons(items);
      CutStream(items[1..], n - |first|);
      var k := Complete(items, n);
      assert items[..k][1..] == items[1..][..k - 1];
      StreamCons(items[..k]);
      CutLater(first, later, StreamText(items[1..][..k - 1]), n);
    } else {
      assert items[..0] == [];
      assert items != [] ==> StreamText(items)[0..n] == ItemText(items[0])[..n];
    }
  }

  lemma StreamCons(items: seq<Item>)
    requires items != []
    ensures StreamText(items) == ItemText(items[0]) + StreamText(items[1..])
  {
  }

  /** A frame that has not been closed announces nothing. */
  lemma UnclosedSilent(item: Item, part: string)
    requires item.Bundle? ==> OneLine(item.payload)
    requires part < ItemText(item)
    ensures Drain(Decoder(part, NO_FIELDS)).1 == []
  {
    hide Drain, ItemText, Opening;
    ItemTextIs(item);
    var opening := Opening(item);
    assert opening == part + opening[|part|..];
    OpeningRead(item, "");
    assert opening + "" == opening;
    NothingToDrain(Opened(item));
    DrainAppend(Decoder(part, NO_FIELDS), opening[|part|..]);
  }

  lemma NothingToDrain(f: Fields)
    ensures Drain(Decoder("", f)) == (Decoder("", f), [])
  {
  }

  lemma WritablePart(items: seq<Item>, k: nat)
    requires Writable(items) && k <= |items|
    ensures Writable(items[..k])
  {
  }

  /** A connection lost at any point has delivered exactly the announcements
      whose frames were complete: none is torn, lost or repeated. */
  lemma LostConnection(items: seq<Item>, n: nat, chunks: seq<string>)
    requires Writable(items) && n <= |StreamText(items)| && Concat(chunks) == StreamText(items)[..n]
    ensures FedAll(IDLE, chunks).1 == Announced(items[..Complete(items, n)])
  {
    hide Drain, StreamText, Announced, ItemText;
    ChunkingUnobservable(IDLE, chunks);
    CutStream(items, n);
    var k := Complete(items, n);
    var done := StreamText(items[..k]);
    var part := StreamText(items)[|done|..n];
    WritablePart(items, k);
    StreamRead(items[..k], part);
    if k < |items| {
      UnclosedSilent(items[k], part);
    } else {
      assert part == "";
      NothingToDrain(NO_FIELDS);
    }
    assert "" + Concat(chunks) == done + part by {
      assert StreamText(items) == done + StreamText(items)[|done|..];
    }
    assert Announced(items[..k]) + [] == Announced(items[..k]);
  }
}
