/** The chunked decoder of server-sent events: what it emits does not depend on
    how the stream was cut into chunks. */
module EventStream {
  import opened Text

  const LF := '\n'
  const CR := '\r'

  datatype Event = Event(event: string, data: string)

  /** What the lines of the event being read have said so far. */
  datatype Fields = Fields(eventType: string, dataLines: seq<string>)

  const NO_FIELDS := Fields("", [])

  /** Where a line ends, and how many characters end it. */
  datatype LineEnding = LineEnding(index: nat, length: nat)

  // ----- one line -----

  /** The first line ending; a carriage return at the very end decides nothing
      yet, because a line feed may follow. */
  function FindEnding(value: string): (ending: Option<LineEnding>)
    ensures ending.Some? ==> 1 <= ending.value.length && ending.value.index + ending.value.length <= |value|
  {
    if value == "" then None
    else if value[0] == LF then Some(LineEnding(0, 1))
    else if value[0] == CR then
      if |value| == 1 then None else Some(LineEnding(0, if value[1] == LF then 2 else 1))
    else Shift(FindEnding(value[1..]), 1)
  }

  function Shift(ending: Option<LineEnding>, skipped: nat): Option<LineEnding> {
    if ending.Some? then Some(LineEnding(ending.value.index + skipped, ending.value.length)) else None
  }

  function IndexOf(s: string, c: char): (i: int)
    ensures -1 <= i < |s| && (i >= 0 ==> s[i] == c && c !in s[..i]) && (i == -1 ==> c !in s)
  {
    if s == "" then -1
    else if s[0] == c then 0
    else
      var i := IndexOf(s[1..], c);
      assert i >= 0 ==> s[..i + 1] == [s[0]] + s[1..][..i];
      if i == -1 then -1 else i + 1
  }

  function WithoutLeadingSpace(value: string): string {
    if StartsWith(value, " ") then value[1..] else value
  }

  function FieldName(line: string): string {
    var colon := IndexOf(line, ':');
    if colon == -1 then line else line[..colon]
  }

  function FieldValue(line: string): string {
    var colon := IndexOf(line, ':');
    WithoutLeadingSpace(if colon == -1 then "" else line[colon + 1..])
  }

  function Dispatched(f: Fields): seq<Event> {
    if f.dataLines == [] then []
    else [Event(if f.eventType == "" then "message" else f.eventType, Join(f.dataLines, [LF]))]
  }

  /** What a line does to the fields, and the events it completes. */
  function Processed(line: string, f: Fields): (Fields, seq<Event>) {
    if line == "" then (NO_FIELDS, Dispatched(f))
    else if StartsWith(line, ":") then (f, [])
    else if FieldName(line) == "event" then (f.(eventType := FieldValue(line)), [])
    else if FieldName(line) == "data" then (f.(dataLines := f.dataLines + [FieldValue(line)]), [])
    else (f, [])
  }

  // ----- whole texts -----

  datatype Decoder = Decoder(buffer: string, fields: Fields)

  const IDLE := Decoder("", NO_FIELDS)

  /** Everything the complete lines of a decoder's buffer have to say. */
  function Drain(d: Decoder): (Decoder, seq<Event>)
    decreases |d.buffer|
  {
    match FindEnding(d.buffer)
    case None => (d, [])
    case Some(e) =>
      var (fields, events) := Processed(d.buffer[..e.index], d.fields);
      Followed(events, Drain(Decoder(d.buffer[e.index + e.length..], fields)))
  }

  /** What came before, and then the rest of a run. */
  function Followed(events: seq<Event>, run: (Decoder, seq<Event>)): (Decoder, seq<Event>) {
    (run.0, events + run.1)
  }

  lemma FollowedTwice(a: seq<Event>, b: seq<Event>, run: (Decoder, seq<Event>))
    ensures Followed(a, Followed(b, run)) == Followed(a + b, run)
    ensures Followed([], run) == run
  {
    assert a + (b + run.1) == (a + b) + run.1;
    assert [] + run.1 == run.1;
  }

  function Fed(d: Decoder, chunk: string): (Decoder, seq<Event>) {
    Drain(d.(buffer := d.buffer + chunk))
  }

  function FedAll(d: Decoder, chunks: seq<string>): (Decoder, seq<Event>)
    decreases |chunks|
  {
    if chunks == [] then (d, [])
    else
      var (d1, events) := Fed(d, chunks[0]);
      Followed(events, FedAll(d1, chunks[1..]))
  }

  function Concat(chunks: seq<string>): string {
    if chunks == [] then "" else chunks[0] + Concat(chunks[1..])
  }

  /** A line ending once found stays where it is, whatever follows. */
  lemma {:induction false} EndingStable(b: string, c: string)
    requires FindEnding(b).Some?
    ensures FindEnding(b + c) == FindEnding(b)
  {
    if b[0] != LF && b[0] != CR {
      assert (b + c)[1..] == b[1..] + c;
      EndingStable(b[1..], c);
    }
  }

  /** A drained buffer holds no complete line. */
  lemma {:induction false} DrainExhausts(d: Decoder)
    ensures FindEnding(Drain(d).0.buffer) == None
    decreases |d.buffer|
  {
    hide Processed, FindEnding;
    if FindEnding(d.buffer).Some? {
      DrainByLine(d);
      DrainExhausts(TakeLine(d).0);
    }
  }

  /** One line off the front of a buffer that holds one. */
  function TakeLine(d: Decoder): (Decoder, seq<Event>)
    requires FindEnding(d.buffer).Some?
  {
    var e := FindEnding(d.buffer).value;
    var (fields, events) := Processed(d.buffer[..e.index], d.fields);
    (Decoder(d.buffer[e.index + e.length..], fields), events)
  }

  lemma DrainByLine(d: Decoder)
    requires FindEnding(d.buffer).Some?
    ensures |TakeLine(d).0.buffer| < |d.buffer|
    ensures Drain(d) == Followed(TakeLine(d).1, Drain(TakeLine(d).0))
  {
    hide FindEnding, Processed;
  }

  lemma TakeLineStable(d: Decoder, c: string)
    requires FindEnding(d.buffer).Some?
    ensures var more := d.(buffer := d.buffer + c);
      && FindEnding(more.buffer).Some?
      && TakeLine(more) == (TakeLine(d).0.(buffer := TakeLine(d).0.buffer + c), TakeLine(d).1)
  {
    hide FindEnding, Processed;
    EndingStable(d.buffer, c);
    var e := FindEnding(d.buffer).value;
    assert (d.buffer + c)[..e.index] == d.buffer[..e.index];
    assert (d.buffer + c)[e.index + e.length..] == d.buffer[e.index + e.length..] + c;
  }

  /** Draining early and going on is draining once at the end. */
  lemma {:induction false} DrainAppend(d: Decoder, c: string)
    ensures Fed(d, c) == Followed(Drain(d).1, Fed(Drain(d).0, c))
    decreases |d.buffer|
  {
    hide FindEnding, TakeLine, Followed, Processed;
    if FindEnding(d.buffer).None? {
      FollowedTwice([], [], Fed(d, c));
    } else {
      var d0, first := TakeLine(d).0, TakeLine(d).1;
      DrainByLine(d);
      FollowedParts(first, Drain(d0));
      DrainAppend(d0, c);
      TakeLineStable(d, c);
      DrainByLine(d.(buffer := d.buffer + c));
      FollowedTwice(first, Drain(d0).1, Fed(Drain(d0).0, c));
    }
  }

  lemma FollowedParts(a: seq<Event>, run: (Decoder, seq<Event>))
    ensures Followed(a, run).0 == run.0 && Followed(a, run).1 == a + run.1
  {
  }

  /** Two successive chunks are one. */
  lemma FedTwice(d: Decoder, a: string, b: string)
    ensures Fed(d, a + b) == Followed(Fed(d, a).1, Fed(Fed(d, a).0, b))
  {
    hide FindEnding, TakeLine, Followed, Drain;
    DrainAppend(d.(buffer := d.buffer + a), b);
    assert d.buffer + a + b == d.buffer + (a + b);
  }

  /** Decoding is independent of chunking: however a text is cut, between a
      carriage return and its line feed too, the events and the decoder's final
      state are those of the whole text pushed at once. */
  lemma {:induction false} ChunkingUnobservable(d: Decoder, chunks: seq<string>)
    requires FindEnding(d.buffer) == None
    ensures FedAll(d, chunks) == Fed(d, Concat(chunks))
    decreases |chunks|
  {
    if chunks == [] {
      assert d.buffer + "" == d.buffer;
    } else {
      var d1 := Fed(d, chunks[0]).0;
      DrainExhausts(d.(buffer := d.buffer + chunks[0]));
      ChunkingUnobservable(d1, chunks[1..]);
      FedTwice(d, chunks[0], Concat(chunks[1..]));
    }
  }

  /** Any two ways of cutting one text agree. */
  lemma AnyTwoCutsAgree(a: seq<string>, b: seq<string>)
    requires Concat(a) == Concat(b)
    ensures FedAll(IDLE, a) == FedAll(IDLE, b)
  {
    ChunkingUnobservable(IDLE, a);
    ChunkingUnobservable(IDLE, b);
  }

  // ----- the decoder object -----

  lemma EndingSkips(value: string, index: nat)
    requires index < |value| && value[index] != LF && value[index] != CR
    ensures FindEnding(value[index..]) == Shift(FindEnding(value[index + 1..]), 1)
  {
    assert value[index..][1..] == value[index + 1..];
  }

  lemma EndingHere(value: string, index: nat)
    requires index < |value| && (value[index] == LF || value[index] == CR)
    ensures FindEnding(value[index..]) ==
      if value[index] == LF then Some(LineEnding(0, 1))
      else if index + 1 == |value| then None
      else Some(LineEnding(0, if value[index + 1] == LF then 2 else 1))
  {
  }

  method FindLineEnding(value: string) returns (ending: Option<LineEnding>)
    ensures ending == FindEnding(value)
  {
    assert value[0..] == value;
    for index := 0 to |value|
      invariant FindEnding(value) == Shift(FindEnding(value[index..]), index)
    {
      if value[index] == LF {
        EndingHere(value, index);
        return Some(LineEnding(index, 1));
      }
      if value[index] == CR {
        EndingHere(value, index);
        if index + 1 == |value| {
          return None;
        }
        return Some(LineEnding(index, if value[index + 1] == LF then 2 else 1));
      }
      EndingSkips(value, index);
    }
    return None;
  }

  class ServerSentEventDecoder {
    var buffer: string
    var eventType: string
    var dataLines: seq<string>

    function State(): Decoder
      reads this
    {
      Decoder(buffer, Fields(eventType, dataLines))
    }

    constructor ()
      ensures State() == IDLE
    {
      buffer, eventType, dataLines := "", "", [];
    }

    /** Takes lines off the buffer while it holds a complete one. */
    method Push(chunk: string) returns (events: seq<Event>)
      modifies this
      ensures (State(), events) == Fed(old(State()), chunk)
    {
      hide FindEnding, Processed, Followed;
      buffer := buffer + chunk;
      events := [];
      ghost var start := State();
      FollowedTwice([], [], Drain(start));
      while true
        invariant Drain(start) == Followed(events, Drain(State()))
        decreases |buffer|
      {
        var ending := FindLineEnding(buffer);
        if ending.None? {
          FollowedParts(events, Drain(State()));
          assert events + [] == events;
          break;
        }
        var line := buffer[..ending.value.index];
        buffer := buffer[ending.value.index + ending.value.length..];
        var completed := ProcessLine(line);
        FollowedTwice(events, completed, Drain(State()));
        events := events + completed;
      }
    }

    /** An incomplete event is discarded. */
    method Finish()
      modifies this
      ensures State() == IDLE
    {
      buffer, eventType, dataLines := "", "", [];
    }

    method ProcessLine(line: string) returns (completed: seq<Event>)
      modifies `eventType, `dataLines
      ensures (State().fields, completed) == Processed(line, old(State().fields))
    {
      completed := [];
      if line == "" {
        completed := Dispatch();
        return;
      }
      if StartsWith(line, ":") {
        return;
      }
      var colonIndex := IndexOf(line, ':');
      var field := if colonIndex == -1 then line else line[..colonIndex];
      var value := if colonIndex == -1 then "" else line[colonIndex + 1..];
      if StartsWith(value, " ") {
        value := value[1..];
      }
      if field == "event" {
        eventType := value;
      } else if field == "data" {
        dataLines := dataLines + [value];
      }
    }

    method Dispatch() returns (completed: seq<Event>)
      modifies `eventType, `dataLines
      ensures State().fields == NO_FIELDS && completed == Dispatched(old(State().fields))
    {
      completed := [];
      if |dataLines| == 0 {
        eventType := "";
        return;
      }
      completed := [Event(if eventType == "" then "message" else eventType, Join(dataLines, [LF]))];
      eventType := "";
      dataLines := [];
    }
  }
}
