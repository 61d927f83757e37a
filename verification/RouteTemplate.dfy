/** Path templates and the pattern text they compile to. */
module RouteTemplate {
  import opened Letters
  import opened Text
  import Regex

  datatype TemplateError =
    | InvalidParameter(segment: string)
    | WildcardNotFinal
    | PartialWildcard

  predicate IsNameStart(c: char) {
    'A' <= c <= 'Z' || 'a' <= c <= 'z' || c == '_'
  }

  predicate IsParameterName(name: string) {
    && name != ""
    && IsNameStart(name[0])
    && forall c :: c in name[1..] ==> IsNameStart(c) || '0' <= c <= '9'
  }

  /** The text one segment contributes, or why it is refused. */
  function SegmentText(segment: string, final: bool): Result<string, TemplateError> {
    if StartsWith(segment, ":") then
      if IsParameterName(segment[1..]) then Ok("[^/]+") else Err(InvalidParameter(segment))
    else if segment == "*" then
      if final then Ok(".*") else Err(WildcardNotFinal)
    else if '*' in segment then Err(PartialWildcard)
    else Ok(Regex.QuoteMeta(segment))
  }

  /** The text of a whole template: the first refused segment decides the error. */
  function SegmentsText(segments: seq<string>): Result<string, TemplateError> {
    if segments == [] then Ok("")
    else match SegmentText(segments[0], |segments| == 1)
      case Err(e) => Err(e)
      case Ok(text) =>
        match SegmentsText(segments[1..])
        case Err(e) => Err(e)
        case Ok(rest) => Ok("/" + text + rest)
  }

  function Segments(path: string): (segments: seq<string>)
    ensures |segments| >= 1
  {
    Split(if StartsWith(path, "/") then path[1..] else path, '/')
  }

  function TemplateText(path: string): Result<string, TemplateError> {
    SegmentsText(Segments(path))
  }

  // ----- which templates are accepted, said of the path alone -----

  ghost predicate StartsName(c: char) {
    IsSmall(c) || IsCapital(c) || c == '_'
  }

  /** A letter or underscore, then letters, numerals or underscores. */
  ghost predicate IsName(name: string) {
    name != "" && StartsName(name[0]) && forall i :: 1 <= i < |name| ==> StartsName(name[i]) || IsNumeral(name[i])
  }

  /** A parameter, the final wildcard, or a literal without `*`. */
  ghost predicate WellFormedSegment(segment: string, final: bool) {
    || (segment != "" && segment[0] == ':' && IsName(segment[1..]))
    || (segment == "*" && final)
    || ((segment == "" || segment[0] != ':') && '*' !in segment)
  }

  /** The error that goes with a segment that is none of these. */
  ghost predicate Offends(segment: string, final: bool, e: TemplateError) {
    match e
    case InvalidParameter(s) => s == segment && segment != "" && segment[0] == ':' && !IsName(segment[1..])
    case WildcardNotFinal => segment == "*" && !final
    case PartialWildcard => segment != "*" && '*' in segment && segment[0] != ':'
  }

  /** The pieces of a path between its slashes, a leading one set aside. */
  ghost predicate Pieces(path: string, pieces: seq<string>) {
    && pieces != [] && (forall i :: 0 <= i < |pieces| ==> '/' !in pieces[i])
    && path == (if path != "" && path[0] == '/' then "/" else "") + Join(pieces, "/")
  }

  ghost predicate WellFormedTo(pieces: seq<string>, k: nat)
    requires k <= |pieces|
  {
    forall i :: 0 <= i < k ==> WellFormedSegment(pieces[i], i == |pieces| - 1)
  }

  ghost predicate WellFormed(path: string) {
    exists pieces :: Pieces(path, pieces) && WellFormedTo(pieces, |pieces|)
  }

  ghost predicate OffendsAt(pieces: seq<string>, k: nat, e: TemplateError) {
    k < |pieces| && WellFormedTo(pieces, k) && Offends(pieces[k], k == |pieces| - 1, e)
  }

  /** The error is about the first piece that is not well formed. */
  ghost predicate FirstOffence(path: string, e: TemplateError) {
    exists pieces, k: nat :: Pieces(path, pieces) && OffendsAt(pieces, k, e)
  }

  lemma PiecesAreSegments(path: string, pieces: seq<string>)
    ensures Pieces(path, pieces) <==> pieces == Segments(path)
  {
    var slash := path != "" && path[0] == '/';
    assert StartsWith(path, "/") <==> slash;
    var text := if slash then path[1..] else path;
    JoinSplit(text, '/');
    assert path == (if slash then "/" else "") + text;
    if Pieces(path, pieces) {
      SplitJoin(pieces, '/');
      assert text == Join(pieces, "/");
    }
  }

  lemma NameCharacter(c: char)
    ensures IsNameStart(c) <==> StartsName(c)
    ensures IsNumeral(c) <==> '0' <= c <= '9'
  {
    hide CasePairs, NumeralValues, IsSmall, IsCapital, IsNumeral;
    SmallIff(c);
    CapitalIff(c);
    NumeralIff(c);
  }

  lemma NamesAgree(name: string)
    ensures IsParameterName(name) <==> IsName(name)
  {
    hide IsNameStart, StartsName, IsNumeral;
    if name != "" {
      NameCharacter(name[0]);
      forall i | 1 <= i < |name|
        ensures IsNameStart(name[i]) || '0' <= name[i] <= '9' <==> StartsName(name[i]) || IsNumeral(name[i])
        ensures name[i] in name[1..]
      {
        NameCharacter(name[i]);
        assert name[1..][i - 1] == name[i];
      }
    }
  }

  lemma SegmentTextIff(segment: string, final: bool)
    ensures SegmentText(segment, final).Ok? <==> WellFormedSegment(segment, final)
    ensures forall e :: SegmentText(segment, final) == Err(e) <==> Offends(segment, final, e)
  {
    hide IsParameterName, IsName;
    assert StartsWith(segment, ":") <==> segment != "" && segment[0] == ':';
    if segment != "" {
      NamesAgree(segment[1..]);
    }
  }

  lemma {:induction false} SegmentsTextIff(segments: seq<string>)
    ensures SegmentsText(segments).Ok? <==> WellFormedTo(segments, |segments|)
    ensures forall e :: SegmentsText(segments) == Err(e) <==> exists k: nat :: OffendsAt(segments, k, e)
  {
    hide SegmentText, WellFormedSegment, Offends;
    if segments != [] {
      var rest := segments[1..];
      SegmentTextIff(segments[0], |segments| == 1);
      SegmentsTextIff(rest);
      forall k: nat | k <= |rest| && WellFormedSegment(segments[0], |segments| == 1)
        ensures WellFormedTo(segments, k + 1) <==> WellFormedTo(rest, k)
      {
        TailWellFormed(segments, k);
      }
      forall e ensures SegmentsText(segments) == Err(e) <==> exists k: nat :: OffendsAt(segments, k, e) {
        if k: nat :| OffendsAt(rest, k, e) && WellFormedSegment(segments[0], |segments| == 1) {
          assert OffendsAt(segments, k + 1, e);
        }
        if k: nat :| OffendsAt(segments, k, e) && k > 0 {
          assert WellFormedSegment(segments[0], 0 == |segments| - 1);
          assert OffendsAt(rest, k - 1, e);
        }
        assert Offends(segments[0], |segments| == 1, e) ==> OffendsAt(segments, 0, e);
      }
    }
  }

  lemma TailWellFormed(segments: seq<string>, k: nat)
    requires segments != [] && k < |segments| && WellFormedSegment(segments[0], |segments| == 1)
    ensures WellFormedTo(segments, k + 1) <==> WellFormedTo(segments[1..], k)
  {
    hide WellFormedSegment;
    var rest := segments[1..];
    if WellFormedTo(segments, k + 1) {
      forall i | 0 <= i < k ensures WellFormedSegment(rest[i], i == |rest| - 1) {
        assert WellFormedSegment(segments[i + 1], i + 1 == |segments| - 1);
      }
    }
    if WellFormedTo(rest, k) {
      forall i | 0 <= i < k + 1 ensures WellFormedSegment(segments[i], i == |segments| - 1) {
        if i > 0 {
          assert WellFormedSegment(rest[i - 1], i - 1 == |rest| - 1);
        }
      }
    }
  }

  /** A template compiles exactly when it is well formed; otherwise the error is
      the one that goes with its first piece that is not. */
  lemma TemplateTextIff(path: string)
    ensures TemplateText(path).Ok? <==> WellFormed(path)
    ensures forall e :: TemplateText(path) == Err(e) <==> FirstOffence(path, e)
  {
    hide Segments, Pieces, WellFormedTo, OffendsAt;
    var segments := Segments(path);
    PiecesAreSegments(path, segments);
    SegmentsTextIff(segments);
    forall pieces ensures Pieces(path, pieces) <==> pieces == segments {
      PiecesAreSegments(path, pieces);
    }
    forall e ensures TemplateText(path) == Err(e) <==> FirstOffence(path, e) {
      if k: nat :| OffendsAt(segments, k, e) {
        assert Pieces(path, segments) && OffendsAt(segments, k, e);
      }
    }
  }

  /** The builder loop over the segments of one template. */
  method CompilePathTemplate(path: string) returns (r: Result<string, TemplateError>)
    ensures r == TemplateText(path)
    ensures r.Ok? <==> WellFormed(path)
    ensures forall e :: r == Err(e) <==> FirstOffence(path, e)
  {
    TemplateTextIff(path);
    hide WellFormed, FirstOffence;
    if path == "/" {
      assert path[1..] == "" && Segments(path) == [""];
      assert SegmentText("", true) == Ok("");
      assert SegmentsText([""][1..]) == Ok("");
      assert "/" + "" + "" == "/";
      return Ok("/");
    }
    var segments := Segments(path);
    var result := "";
    assert segments[0..] == segments;
    assert forall rest: string :: result + rest == rest;
    for index := 0 to |segments|
      invariant match SegmentsText(segments[index..])
        case Err(e) => TemplateText(path) == Err(e)
        case Ok(rest) => TemplateText(path) == Ok(result + rest)
    {
      var segment := segments[index];
      ghost var before := result;
      assert segments[index..][1..] == segments[index + 1..];
      assert forall text: string, rest: string :: before + ("/" + text + rest) == before + "/" + text + rest;
      result := result + "/";
      if StartsWith(segment, ":") {
        if !IsParameterName(segment[1..]) {
          return Err(InvalidParameter(segment));
        }
        result := result + "[^/]+";
      } else if segment == "*" {
        if index != |segments| - 1 {
          return Err(WildcardNotFinal);
        }
        result := result + ".*";
      } else if '*' in segment {
        return Err(PartialWildcard);
      } else {
        result := result + Regex.QuoteMeta(segment);
      }
    }
    assert result + "" == result;
    return Ok(result);
  }

  function Parenthesized(texts: seq<string>): (alternatives: seq<string>)
    ensures |alternatives| == |texts|
    ensures forall i :: 0 <= i < |texts| ==> alternatives[i] == "(" + texts[i] + ")"
  {
    seq(|texts|, i requires 0 <= i < |texts| => "(" + texts[i] + ")")
  }

  /** One anchored pattern with one capturing group per alternative. */
  function Combined(texts: seq<string>): string {
    "^(?:" + Join(Parenthesized(texts), "|") + ")$"
  }

  /** The text of a template that compiles. */
  function PatternText(path: string): string {
    match TemplateText(path) case Ok(text) => text case Err(_) => ""
  }

  function PatternTexts(paths: seq<string>): (texts: seq<string>)
    ensures |texts| == |paths|
    ensures forall i :: 0 <= i < |texts| ==> texts[i] == PatternText(paths[i])
  {
    seq(|paths|, i requires 0 <= i < |paths| => PatternText(paths[i]))
  }
}
