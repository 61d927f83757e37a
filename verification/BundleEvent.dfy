/** The payload of a bundle event: a version written as JSON by the control
    plane and read back at the edge (RFC 8259, section 7). */
module BundleEvent {
  import opened Letters
  import opened Text
  import opened EventStream
  import opened EventStandard
  import opened EventFrames

  function FourDigits(n: int): (digits: string)
    ensures |digits| == 4
  {
    [HEX[n / 4096 % 16], HEX[n / 256 % 16], HEX[n / 16 % 16], HEX[n % 16]]
  }

  /** `json.Marshal` of one character: quotes, backslashes, control characters,
      HTML's special characters and the two Unicode line separators are escaped. */
  function JsonChar(c: char): string {
    if c == '"' || c == '\\' then ['\\', c]
    else if c == '\U{8}' then ['\\', 'b']
    else if c == '\U{C}' then ['\\', 'f']
    else if c == '\n' then ['\\', 'n']
    else if c == '\r' then ['\\', 'r']
    else if c == '\t' then ['\\', 't']
    else if c < ' ' || c == '<' || c == '>' || c == '&' || c == '\U{2028}' || c == '\U{2029}' then
      ['\\', 'u'] + FourDigits(c as int)
    else [c]
  }

  function JsonText(s: string): string {
    if s == "" then "" else JsonChar(s[0]) + JsonText(s[1..])
  }

  const PREFIX := "{\"version\":\""
  const SUFFIX := "\"}"

  function Payload(version: string): string {
    PREFIX + JsonText(version) + SUFFIX
  }

  /** A payload never holds a raw line terminator, whatever the version holds. */
  lemma {:induction false} JsonTextIsOneLine(s: string)
    ensures OneLine(JsonText(s))
  {
    if s != "" {
      JsonTextIsOneLine(s[1..]);
      JsonCharIsOneLine(s[0]);
    }
  }

  lemma JsonCharIsOneLine(c: char)
    ensures OneLine(JsonChar(c))
  {
    assert forall i :: 0 <= i < 16 ==> HEX[i] != LF && HEX[i] != CR;
  }

  lemma PayloadIsOneLine(version: string)
    ensures OneLine(Payload(version))
  {
    JsonTextIsOneLine(version);
  }

  // ----- reading -----

  function HexValue(c: char): Option<int> {
    if '0' <= c <= '9' then Some(c as int - '0' as int)
    else if 'a' <= c <= 'f' then Some(c as int - 'a' as int + 10)
    else if 'A' <= c <= 'F' then Some(c as int - 'A' as int + 10)
    else None
  }

  function UnicodeEscape(s: string): Option<char>
    requires |s| == 4
  {
    match (HexValue(s[0]), HexValue(s[1]), HexValue(s[2]), HexValue(s[3]))
    case (Some(a), Some(b), Some(c), Some(d)) =>
      var n := a * 4096 + b * 256 + c * 16 + d;
      if 0 <= n < 0xD800 then Some(n as char) else None
    case _ => None
  }

  /** One character of a JSON string and its length in the text. */
  function ReadChar(s: string): (r: Option<(char, nat)>)
    ensures r.Some? ==> 0 < r.value.1 <= |s|
  {
    if s == "" || s[0] < ' ' || s[0] == '"' then None
    else if s[0] != '\\' then Some((s[0], 1))
    else if |s| < 2 then None
    else match s[1]
      case '"' => Some(('"', 2))
      case '\\' => Some(('\\', 2))
      case '/' => Some(('/', 2))
      case 'b' => Some(('\U{8}', 2))
      case 'f' => Some(('\U{C}', 2))
      case 'n' => Some(('\n', 2))
      case 'r' => Some(('\r', 2))
      case 't' => Some(('\t', 2))
      case 'u' =>
        if |s| < 6 then None
        else (match UnicodeEscape(s[2..6]) case None => None case Some(c) => Some((c, 6)))
      case _ => None
  }

  /** A JSON string's characters up to its closing quote, and the text after the quote. */
  function ReadString(s: string): Option<(string, string)>
    decreases |s|
  {
    if s != "" && s[0] == '"' then Some(("", s[1..]))
    else match ReadChar(s)
      case None => None
      case Some((c, n)) =>
        match ReadString(s[n..])
        case None => None
        case Some((text, rest)) => Some(([c] + text, rest))
  }

  /** The version of a one-member object written without spaces. */
  function ReadPayload(data: string): Option<string> {
    if !StartsWith(data, PREFIX) then None
    else match ReadString(data[|PREFIX|..])
      case None => None
      case Some((version, rest)) => if rest == "}" then Some(version) else None
  }

  lemma HexReads(i: int)
    requires 0 <= i < 16
    ensures HexValue(HEX[i]) == Some(i)
  {
  }

  lemma NibblesAdd(n: int)
    requires 0 <= n < 65536
    ensures n == n / 4096 % 16 * 4096 + n / 256 % 16 * 256 + n / 16 % 16 * 16 + n % 16
  {
    var q := n / 16;
    assert n == q * 16 + n % 16;
    var p := q / 16;
    assert q == p * 16 + q % 16 && n / 256 == p;
    assert p == p / 16 * 16 + p % 16 && n / 4096 == p / 16 < 16;
  }

  lemma EscapeReads(c: char)
    requires (c as int) < 0xD800
    ensures UnicodeEscape(FourDigits(c as int)) == Some(c)
  {
    var n := c as int;
    NibblesAdd(n);
    HexReads(n / 4096 % 16);
    HexReads(n / 256 % 16);
    HexReads(n / 16 % 16);
    HexReads(n % 16);
  }

  lemma ReadCharReads(c: char, rest: string)
    ensures ReadChar(JsonChar(c) + rest) == Some((c, |JsonChar(c)|))
  {
    hide UnicodeEscape, FourDigits;
    var s := JsonChar(c) + rest;
    if |JsonChar(c)| == 6 {
      EscapeReads(c);
      assert s[2..6] == FourDigits(c as int);
    }
  }

  lemma {:induction false} ReadStringReads(version: string, rest: string)
    ensures ReadString(JsonText(version) + "\"" + rest) == Some((version, rest))
  {
    hide ReadChar, JsonChar;
    var s := JsonText(version) + "\"" + rest;
    if version == "" {
      assert s == "\"" + rest;
    } else {
      var first, later := JsonChar(version[0]), JsonText(version[1..]) + "\"" + rest;
      ReadStringReads(version[1..], rest);
      ReadCharReads(version[0], later);
      JsonCharStarts(version[0]);
      assert s == first + later && s[|first|..] == later && s[0] == first[0];
      assert [version[0]] + version[1..] == version;
    }
  }

  lemma JsonCharStarts(c: char)
    ensures JsonChar(c) != "" && JsonChar(c)[0] != '"'
  {
  }

  /** Whatever version is announced is the version read. */
  lemma PayloadReads(version: string)
    ensures ReadPayload(Payload(version)) == Some(version)
  {
    hide ReadString, JsonText, ReadChar, JsonChar;
    ReadStringReads(version, "}");
    var data := Payload(version);
    assert data[..|PREFIX|] == PREFIX;
    assert data[|PREFIX|..] == JsonText(version) + "\"" + "}";
  }

  // ----- the whole channel -----

  datatype Message = Announce(version: string) | StillAlive

  function Written(messages: seq<Message>): seq<Item> {
    if messages == [] then []
    else [if messages[0].Announce? then Bundle(Payload(messages[0].version)) else KeepAlive] + Written(messages[1..])
  }

  function Versions(messages: seq<Message>): seq<string> {
    if messages == [] then []
    else (if messages[0].Announce? then [messages[0].version] else []) + Versions(messages[1..])
  }

  /** The events of bundle type whose payload can be read, as versions. */
  function Heard(events: seq<Event>): seq<string> {
    if events == [] then []
    else
      (if events[0].event == "bundle" && ReadPayload(events[0].data).Some? then [ReadPayload(events[0].data).value] else [])
      + Heard(events[1..])
  }

  lemma {:induction false} WrittenIsWritable(messages: seq<Message>)
    ensures Writable(Written(messages))
  {
    if messages != [] {
      WrittenIsWritable(messages[1..]);
      if messages[0].Announce? {
        PayloadIsOneLine(messages[0].version);
      }
    }
  }

  lemma {:induction false} HeardInOrder(messages: seq<Message>)
    ensures Heard(Announced(Written(messages))) == Versions(messages)
  {
    if messages != [] {
      HeardInOrder(messages[1..]);
      var item := Written(messages)[0];
      assert Written(messages)[1..] == Written(messages[1..]);
      var later := Announced(Written(messages[1..]));
      if messages[0].Announce? {
        PayloadReads(messages[0].version);
        assert ([Event("bundle", item.payload)] + later)[1..] == later;
      } else {
        assert [] + later == later;
      }
    }
  }

  /** Every version announced, quotes, controls and line breaks included, is
      heard by the edge once and in order, over any chunking of the stream. */
  lemma VersionsArrive(messages: seq<Message>, chunks: seq<string>)
    requires Concat(chunks) == StreamText(Written(messages))
    ensures Heard(FedAll(IDLE, chunks).1) == Versions(messages)
    ensures FedAll(IDLE, chunks).0 == IDLE
  {
    WrittenIsWritable(messages);
    FramesRoundTrip(Written(messages), chunks);
    HeardInOrder(messages);
  }
}
