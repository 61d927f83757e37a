/** Section 9.2.6 of the WHATWG HTML Standard, read character by character, and
    how the chunked decoder relates to it. The `id` and `retry` fields and the
    byte order mark are left out. */
module EventStandard {
  import opened Text
  import opened EventStream

  /** The standard's buffers: the line being read, whether a carriage return has
      just ended one, the event type buffer and the data buffer. */
  datatype Reader = Reader(line: string, afterCR: bool, typeBuffer: string, dataBuffer: string)

  const FRESH := Reader("", false, "", "")

  /** Dispatching: an empty data buffer fires nothing, and a final line feed is dropped. */
  function Fired(r: Reader): seq<Event> {
    if r.dataBuffer == "" then []
    else
      var data := if r.dataBuffer[|r.dataBuffer| - 1] == LF then r.dataBuffer[..|r.dataBuffer| - 1] else r.dataBuffer;
      [Event(if r.typeBuffer == "" then "message" else r.typeBuffer, data)]
  }

  /** Processing a field: `event` sets the type, `data` appends the value and a line feed. */
  function FieldRead(r: Reader, name: string, value: string): Reader {
    if name == "event" then r.(typeBuffer := value)
    else if name == "data" then r.(dataBuffer := r.dataBuffer + value + [LF])
    else r
  }

  function LineRead(r: Reader): (Reader, seq<Event>) {
    var next := r.(line := "");
    if r.line == "" then (next.(typeBuffer := "", dataBuffer := ""), Fired(r))
    else if r.line[0] == ':' then (next, [])
    else
      var colon := IndexOf(r.line, ':');
      if colon == -1 then (FieldRead(next, r.line, ""), [])
      else (FieldRead(next, r.line[..colon], WithoutLeadingSpace(r.line[colon + 1..])), [])
  }

  /** One character: a line feed right after a carriage return belongs to it. */
  function CharRead(r: Reader, c: char): (Reader, seq<Event>) {
    if c == LF && r.afterCR then (r.(afterCR := false), [])
    else if c == LF then LineRead(r)
    else if c == CR then LineRead(r.(afterCR := true))
    else (r.(line := r.line + [c], afterCR := false), [])
  }

  function TextRead(r: Reader, text: string): (Reader, seq<Event>)
    decreases |text|
  {
    if text == "" then (r, [])
    else
      var (r1, events) := CharRead(r, text[0]);
      var (r2, later) := TextRead(r1, text[1..]);
      (r2, events + later)
  }

  // ----- the relation -----

  /** The data lines, each with its line feed. */
  function DataBuffer(lines: seq<string>): string {
    if lines == [] then "" else lines[0] + [LF] + DataBuffer(lines[1..])
  }

  lemma {:induction false} DataBufferAppend(lines: seq<string>, value: string)
    ensures DataBuffer(lines + [value]) == DataBuffer(lines) + value + [LF]
  {
    if lines == [] {
      assert lines + [value] == [value];
      assert value + [LF] + "" == "" + value + [LF];
    } else {
      DataBufferAppend(lines[1..], value);
      assert (lines + [value])[1..] == lines[1..] + [value];
      assert lines[0] + [LF] + (DataBuffer(lines[1..]) + value + [LF])
          == (lines[0] + [LF] + DataBuffer(lines[1..])) + value + [LF];
    }
  }

  /** Dropping the last line feed of the data buffer joins the lines. */
  lemma {:induction false} DataBufferJoined(lines: seq<string>)
    requires lines != []
    ensures DataBuffer(lines) == Join(lines, [LF]) + [LF]
  {
    if |lines| == 1 {
      assert lines[0] + [LF] + "" == lines[0] + [LF];
    } else {
      DataBufferJoined(lines[1..]);
      assert lines[0] + [LF] + (Join(lines[1..], [LF]) + [LF]) == (lines[0] + [LF] + Join(lines[1..], [LF])) + [LF];
    }
  }

  /** A reader between lines that knows what the decoder's fields know. */
  function ReaderOf(f: Fields, line: string, afterCR: bool): Reader {
    Reader(line, afterCR, f.eventType, DataBuffer(f.dataLines))
  }

  lemma DispatchAgrees(f: Fields, afterCR: bool)
    ensures Fired(ReaderOf(f, "", afterCR)) == Dispatched(f)
  {
    if f.dataLines != [] {
      DataBufferJoined(f.dataLines);
      var buffer := DataBuffer(f.dataLines);
      assert buffer[..|buffer| - 1] == Join(f.dataLines, [LF]);
    }
  }

  lemma FieldAgrees(f: Fields, name: string, value: string, afterCR: bool)
    ensures FieldRead(ReaderOf(f, "", afterCR), name, value) == ReaderOf(
      if name == "event" then f.(eventType := value)
      else if name == "data" then f.(dataLines := f.dataLines + [value])
      else f, "", afterCR)
  {
    hide DataBuffer;
    DataBufferAppend(f.dataLines, value);
  }

  /** A line means the same to both. */
  lemma LineAgrees(f: Fields, line: string, afterCR: bool)
    ensures LineRead(ReaderOf(f, line, afterCR)) == (ReaderOf(Processed(line, f).0, "", afterCR), Processed(line, f).1)
  {
    hide DataBuffer, FieldRead, Fired, Dispatched, IndexOf, WithoutLeadingSpace;
    if line == "" {
      DispatchAgrees(f, afterCR);
      NothingBuffered();
    } else {
      assert StartsWith(line, ":") <==> line[0] == ':';
      NoSpaceToDrop();
      FieldAgrees(f, FieldName(line), FieldValue(line), afterCR);
    }
  }

  lemma NothingBuffered()
    ensures DataBuffer([]) == ""
  {
  }

  lemma NoSpaceToDrop()
    ensures WithoutLeadingSpace("") == ""
  {
  }

  predicate OneLine(s: string) {
    LF !in s && CR !in s
  }

  lemma {:induction false} PlainRead(r: Reader, plain: string, rest: string)
    requires OneLine(plain)
    ensures TextRead(r, plain + rest) ==
      if plain == "" then TextRead(r, rest) else TextRead(r.(line := r.line + plain, afterCR := false), rest)
    decreases |plain|
  {
    if plain == "" {
      assert plain + rest == rest;
    } else {
      hide TextRead;
      var r1 := r.(line := r.line + [plain[0]], afterCR := false);
      assert CharRead(r, plain[0]) == (r1, []);
      assert plain + rest == [plain[0]] + (plain[1..] + rest);
      ReadOne(r, plain[0], plain[1..] + rest);
      PlainRead(r1, plain[1..], rest);
      assert r1.line + plain[1..] == r.line + plain;
      assert [] + TextRead(r1, plain[1..] + rest).1 == TextRead(r1, plain[1..] + rest).1;
      assert plain[1..] == "" ==> r1 == r.(line := r.line + plain, afterCR := false);
    }
  }

  /** Whether the reader has just seen a carriage return matters only if a line feed comes next. */
  lemma AfterCRUnseen(r: Reader, text: string)
    requires text != "" && text[0] != LF
    ensures TextRead(r, text) == TextRead(r.(afterCR := !r.afterCR), text)
  {
  }

  /** What the decoder holds back: a carriage return that ends the text. */
  predicate EndsInCR(text: string) {
    text != "" && text[|text| - 1] == CR
  }

  lemma {:induction false} NoEndingShape(text: string)
    requires FindEnding(text).None?
    ensures EndsInCR(text) ==> OneLine(text[..|text| - 1])
    ensures !EndsInCR(text) ==> OneLine(text)
  {
    if |text| > 1 {
      NoEndingShape(text[1..]);
      assert text == [text[0]] + text[1..];
      if EndsInCR(text) {
        assert text[..|text| - 1] == [text[0]] + text[1..][..|text| - 2];
      }
    }
  }

  lemma {:induction false} EndingShape(text: string)
    requires FindEnding(text).Some?
    ensures var e := FindEnding(text).value;
      && OneLine(text[..e.index])
      && (text[e.index] == LF ==> e.length == 1)
      && (text[e.index] != LF ==> text[e.index] == CR && e.index + 1 < |text|)
      && (text[e.index] != LF ==> e.length == if text[e.index + 1] == LF then 2 else 1)
  {
    if text[0] != LF && text[0] != CR {
      EndingShape(text[1..]);
      var e := FindEnding(text).value;
      assert text[..e.index] == [text[0]] + text[1..][..e.index - 1];
    }
  }

  /** What the reader shows after a text, given the decoder's state after the same text. */
  function Expected(d: Decoder): (Reader, seq<Event>) {
    if EndsInCR(d.buffer) then
      var (f, events) := Processed(d.buffer[..|d.buffer| - 1], d.fields);
      (ReaderOf(f, "", true), events)
    else (ReaderOf(d.fields, d.buffer, false), [])
  }

  lemma UnfinishedAgrees(d: Decoder)
    requires FindEnding(d.buffer).None?
    ensures TextRead(ReaderOf(d.fields, "", false), d.buffer) == Expected(d)
  {
    NoEndingShape(d.buffer);
    var r := ReaderOf(d.fields, "", false);
    if EndsInCR(d.buffer) {
      var line := d.buffer[..|d.buffer| - 1];
      assert d.buffer == line + [CR];
      PlainRead(r, line, [CR]);
      assert r.line + line == line;
      ReadCR(ReaderOf(d.fields, line, false));
      LineAgrees(d.fields, line, true);
    } else {
      assert d.buffer + "" == d.buffer;
      PlainRead(r, d.buffer, "");
      assert r.line + d.buffer == d.buffer;
    }
  }

  lemma ReadOne(r: Reader, c: char, rest: string)
    ensures TextRead(r, [c] + rest) == After(CharRead(r, c).1, TextRead(CharRead(r, c).0, rest))
  {
    hide CharRead;
    assert ([c] + rest)[1..] == rest;
  }

  lemma ReadCR(r: Reader)
    ensures TextRead(r, [CR]) == LineRead(r.(afterCR := true))
  {
    hide LineRead;
    ReadOne(r, CR, "");
    assert [CR] + "" == [CR];
    assert LineRead(r.(afterCR := true)).1 + [] == LineRead(r.(afterCR := true)).1;
  }

  lemma ReadLF(r: Reader, rest: string)
    requires !r.afterCR
    ensures TextRead(r, [LF] + rest) == After(LineRead(r).1, TextRead(LineRead(r).0, rest))
  {
    hide LineRead, TextRead;
    ReadOne(r, LF, rest);
  }

  lemma LineReadKeeps(r: Reader)
    ensures LineRead(r).0.afterCR == r.afterCR
  {
  }

  lemma ReadCRLF(r: Reader, rest: string)
    ensures TextRead(r, [CR, LF] + rest) ==
      After(LineRead(r.(afterCR := true)).1, TextRead(LineRead(r.(afterCR := true)).0.(afterCR := false), rest))
  {
    hide LineRead, TextRead;
    var (r1, events) := LineRead(r.(afterCR := true));
    LineReadKeeps(r.(afterCR := true));
    assert [CR, LF] + rest == [CR] + ([LF] + rest);
    ReadOne(r, CR, [LF] + rest);
    ReadOne(r1, LF, rest);
    assert [] + TextRead(r1.(afterCR := false), rest).1 == TextRead(r1.(afterCR := false), rest).1;
  }

  lemma ReadBareCR(r: Reader, rest: string)
    requires rest != "" && rest[0] != LF
    ensures TextRead(r, [CR] + rest) ==
      After(LineRead(r.(afterCR := true)).1, TextRead(LineRead(r.(afterCR := true)).0.(afterCR := false), rest))
  {
    hide LineRead, TextRead;
    ReadOne(r, CR, rest);
    LineReadKeeps(r.(afterCR := true));
    AfterCRUnseen(LineRead(r.(afterCR := true)).0, rest);
  }

  function After(events: seq<Event>, run: (Reader, seq<Event>)): (Reader, seq<Event>) {
    (run.0, events + run.1)
  }

  /** A whole line with its ending, whichever of the three it is. */
  lemma TakenLineAgrees(d: Decoder)
    requires FindEnding(d.buffer).Some?
    ensures var (d1, events) := TakeLine(d);
      TextRead(ReaderOf(d.fields, "", false), d.buffer) == After(events, TextRead(ReaderOf(d1.fields, "", false), d1.buffer))
  {
    hide LineRead, Processed, TextRead, ReaderOf;
    EndingShape(d.buffer);
    var e := FindEnding(d.buffer).value;
    var line, rest := d.buffer[..e.index], d.buffer[e.index + e.length..];
    var ending := d.buffer[e.index..e.index + e.length];
    assert d.buffer == line + (ending + rest);
    PlainRead(ReaderOf(d.fields, "", false), line, ending + rest);
    ReaderWithLine(d.fields, line);
    ReaderWithLine(Processed(line, d.fields).0, "");
    var r := ReaderOf(d.fields, line, false);
    LineAgrees(d.fields, line, false);
    LineAgrees(d.fields, line, true);
    if d.buffer[e.index] == LF {
      assert ending == [LF];
      ReadLF(r, rest);
    } else if e.length == 2 {
      assert ending == [CR, LF];
      ReadCRLF(r, rest);
    } else {
      assert ending == [CR] && rest[0] == d.buffer[e.index + 1];
      ReadBareCR(r, rest);
    }
  }

  lemma ReaderWithLine(f: Fields, line: string)
    ensures var r := ReaderOf(f, "", false);
      && r.line == "" && r.(line := r.line + line, afterCR := false) == ReaderOf(f, line, false)
      && !ReaderOf(f, line, false).afterCR
      && ReaderOf(f, line, false).(afterCR := true) == ReaderOf(f, line, true)
      && ReaderOf(f, line, true).(afterCR := false) == ReaderOf(f, line, false)
      && (line == "" ==> r == ReaderOf(f, line, false))
  {
    assert "" + line == line;
  }

  /** The character-wise reader does what the decoder does, and then whatever a
      held-back carriage return would do. */
  lemma {:induction false} ReaderFollows(d: Decoder)
    ensures var (d', events) := Drain(d);
      TextRead(ReaderOf(d.fields, "", false), d.buffer) == After(events, Expected(d'))
    decreases |d.buffer|
  {
    hide FindEnding, TextRead, Processed, Expected, ReaderOf;
    if FindEnding(d.buffer).None? {
      UnfinishedAgrees(d);
      assert [] + Expected(d).1 == Expected(d).1;
    } else {
      var (d1, events) := TakeLine(d);
      DrainByLine(d);
      TakenLineAgrees(d);
      ReaderFollows(d1);
      assert events + (Drain(d1).1 + Expected(Drain(d1).0).1) == (events + Drain(d1).1) + Expected(Drain(d1).0).1;
    }
  }

  /** A text's final carriage return is always held back. */
  lemma {:induction false} HeldBack(d: Decoder)
    ensures EndsInCR(Drain(d).0.buffer) <==> EndsInCR(d.buffer)
    decreases |d.buffer|
  {
    if FindEnding(d.buffer).Some? {
      EndingShape(d.buffer);
      DrainByLine(d);
      HeldBack(TakeLine(d).0);
    }
  }

  /** The held-back line completes an event exactly when it is empty and data is waiting. */
  lemma HeldBackCompletes(d: Decoder)
    requires EndsInCR(d.buffer)
    ensures Processed(d.buffer[..|d.buffer| - 1], d.fields).1 != [] <==> d.buffer == [CR] && d.fields.dataLines != []
  {
    assert d.buffer == d.buffer[..|d.buffer| - 1] + [CR];
  }

  lemma LongerIffAnother(events: seq<Event>, others: seq<Event>)
    ensures events != events + others <==> others != []
  {
    assert others == [] ==> events + others == events;
  }

  lemma StandardIs(text: string)
    ensures var (d, events) := Fed(IDLE, text);
      && TextRead(FRESH, text).1 == events + Expected(d).1
      && (EndsInCR(d.buffer) <==> EndsInCR(text))
  {
    hide Drain, TextRead, Expected;
    assert "" + text == text;
    ReaderFollows(Decoder(text, NO_FIELDS));
    HeldBack(Decoder(text, NO_FIELDS));
  }

  /** For every text and every way of cutting it, the decoder emits exactly the
      standard's events, unless the text ends in a bare carriage return; then it
      is short by what the held-back line completes, which is one event exactly
      when that line is empty and data is waiting. */
  lemma AgreesWithStandard(chunks: seq<string>)
    ensures var (d, events) := FedAll(IDLE, chunks);
      var standard := TextRead(FRESH, Concat(chunks)).1;
      && (EndsInCR(d.buffer) <==> EndsInCR(Concat(chunks)))
      && (!EndsInCR(d.buffer) ==> events == standard)
      && (EndsInCR(d.buffer) ==> standard == events + Processed(d.buffer[..|d.buffer| - 1], d.fields).1)
      && (events != standard <==> EndsInCR(d.buffer) && d.buffer == [CR] && d.fields.dataLines != [])
  {
    hide Drain, TextRead, Processed, Fed;
    ChunkingUnobservable(IDLE, chunks);
    StandardIs(Concat(chunks));
    var (d, events) := FedAll(IDLE, chunks);
    LongerIffAnother(events, Expected(d).1);
    if EndsInCR(d.buffer) {
      HeldBackCompletes(d);
    }
  }
}
