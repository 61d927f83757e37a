/** Window lengths written as sums of decimal amounts with units, over exact
    numbers of milliseconds. */
module Duration {
  import opened Letters
  import opened Text
  import FixedWindow

  datatype DurationError = NotAPositiveDuration

  predicate IsDigit(c: char) {
    '0' <= c <= '9'
  }

  predicate AllDigits(s: string) {
    forall c :: c in s ==> IsDigit(c)
  }

  predicate IsUnit(u: string) {
    u == "ns" || u == "us" || u == "\U{B5}s" || u == "\U{3BC}s" || u == "ms" || u == "s" || u == "m" || u == "h"
  }

  /** An amount of a unit, in milliseconds. */
  function Scale(amount: real, unit: string): real {
    if unit == "ns" then amount * 0.000001
    else if unit == "us" || unit == "\U{B5}s" || unit == "\U{3BC}s" then amount * 0.001
    else if unit == "ms" then amount
    else if unit == "s" then amount * 1000.0
    else if unit == "m" then amount * 60000.0
    else amount * 3600000.0
  }

  // ----- the grammar -----

  /** Digits with an optional fraction, or a fraction alone. */
  predicate IsAmount(a: string) {
    || (a != "" && AllDigits(a))
    || exists i :: 0 <= i < |a| && a[i] == '.' && AllDigits(a[..i]) && AllDigits(a[i + 1..]) && |a| > 1
  }

  datatype Token = Token(amount: string, unit: string)

  predicate ValidToken(t: Token) {
    IsAmount(t.amount) && IsUnit(t.unit)
  }

  predicate ValidTokens(tokens: seq<Token>) {
    forall i :: 0 <= i < |tokens| ==> ValidToken(tokens[i])
  }

  function Render(tokens: seq<Token>): string {
    if tokens == [] then "" else tokens[0].amount + tokens[0].unit + Render(tokens[1..])
  }

  function DigitValue(c: char): int {
    c as int - '0' as int
  }

  function WholeValue(s: string): int {
    if s == "" then 0 else WholeValue(s[..|s| - 1]) * 10 + DigitValue(s[|s| - 1])
  }

  /** The value of the digits after a decimal point. */
  function FractionValue(s: string): real {
    if s == "" then 0.0 else (DigitValue(s[0]) as real + FractionValue(s[1..])) / 10.0
  }

  function DigitRun(s: string): (n: nat)
    ensures n <= |s| && AllDigits(s[..n]) && (n < |s| ==> !IsDigit(s[n]))
  {
    if s == "" || !IsDigit(s[0]) then 0
    else
      var n := 1 + DigitRun(s[1..]);
      assert s[..n] == [s[0]] + s[1..][..n - 1];
      n
  }

  /** `Number(amount)`, exactly. */
  function AmountValue(a: string): real {
    var n := DigitRun(a);
    WholeValue(a[..n]) as real + (if n < |a| then FractionValue(a[n + 1..]) else 0.0)
  }

  function Milliseconds(t: Token): real {
    Scale(AmountValue(t.amount), t.unit)
  }

  function Total(tokens: seq<Token>): real {
    if tokens == [] then 0.0 else Milliseconds(tokens[0]) + Total(tokens[1..])
  }

  // ----- the scanner -----

  function AmountLength(s: string): (n: nat)
    ensures n <= |s|
  {
    var n := DigitRun(s);
    if n > 0 then
      if n < |s| && s[n] == '.' then n + 1 + DigitRun(s[n + 1..]) else n
    else if s != "" && s[0] == '.' && DigitRun(s[1..]) > 0 then 1 + DigitRun(s[1..])
    else 0
  }

  predicate Pair(s: string, a: char, b: char) {
    |s| >= 2 && s[0] == a && s[1] == b
  }

  predicate Single(s: string, a: char) {
    |s| >= 1 && s[0] == a
  }

  /** The first alternative of the unit pattern the text starts with. */
  function UnitAt(s: string): (unit: Option<string>)
    ensures unit.Some? ==> IsUnit(unit.value) && |unit.value| <= |s|
  {
    if Pair(s, 'n', 's') then Some("ns")
    else if Pair(s, 'u', 's') then Some("us")
    else if Pair(s, '\U{B5}', 's') then Some("\U{B5}s")
    else if Pair(s, '\U{3BC}', 's') then Some("\U{3BC}s")
    else if Pair(s, 'm', 's') then Some("ms")
    else if Single(s, 's') then Some("s")
    else if Single(s, 'm') then Some("m")
    else if Single(s, 'h') then Some("h")
    else None
  }

  lemma UnitAtPrefix(s: string)
    requires UnitAt(s).Some?
    ensures StartsWith(s, UnitAt(s).value)
  {
    assert |UnitAt(s).value| == 2 ==> s[..2] == [s[0], s[1]];
    assert |UnitAt(s).value| == 1 ==> s[..1] == [s[0]];
  }

  /** The sticky pattern at the start of a text. */
  function ReadToken(s: string): Option<Token> {
    var n := AmountLength(s);
    if n == 0 then None
    else match UnitAt(s[n..])
      case None => None
      case Some(unit) => Some(Token(s[..n], unit))
  }

  function Length(t: Token): nat {
    |t.amount| + |t.unit|
  }

  lemma UnitsNonempty(unit: string)
    requires IsUnit(unit)
    ensures unit != "" && !IsDigit(unit[0]) && unit[0] != '.'
  {
  }

  /** What the scanner reads is a token, and it reads a prefix: the offset advances. */
  lemma ReadTokenSound(s: string)
    requires ReadToken(s).Some?
    ensures var t := ReadToken(s).value;
      ValidToken(t) && 0 < Length(t) <= |s| && s[..Length(t)] == t.amount + t.unit
  {
    var n := AmountLength(s);
    var t := ReadToken(s).value;
    UnitAtPrefix(s[n..]);
    UnitsNonempty(t.unit);
    AmountLengthSound(s);
    assert s[..Length(t)] == s[..n] + s[n..][..|t.unit|];
  }

  lemma AmountLengthSound(s: string)
    requires AmountLength(s) > 0
    ensures IsAmount(s[..AmountLength(s)])
  {
    var n := DigitRun(s);
    var a := s[..AmountLength(s)];
    if n > 0 {
      if n < |s| && s[n] == '.' {
        assert a[..n] == s[..n] && a[n + 1..] == s[n + 1..][..DigitRun(s[n + 1..])] && a[n] == '.';
      }
    } else {
      assert a[..0] == "" && a[1..] == s[1..][..DigitRun(s[1..])] && a[0] == '.';
    }
  }

  /** All the tokens of a text, or nothing. */
  function Scan(s: string): Option<seq<Token>>
    decreases |s|
  {
    if s == "" then Some([])
    else match ReadToken(s)
      case None => None
      case Some(t) =>
        ReadTokenSound(s);
        match Scan(s[Length(t)..])
        case None => None
        case Some(others) => Some([t] + others)
  }

  predicate InRange(ms: real) {
    0.0 < ms <= FixedWindow.MAX_SAFE as real
  }

  function ParseDuration(value: string): Result<real, DurationError> {
    if value == "" then Err(NotAPositiveDuration)
    else match Scan(value)
      case None => Err(NotAPositiveDuration)
      case Some(tokens) => if InRange(Total(tokens)) then Ok(Total(tokens)) else Err(NotAPositiveDuration)
  }

  lemma {:induction false} TotalAppend(tokens: seq<Token>, t: Token)
    ensures Total(tokens + [t]) == Total(tokens) + Milliseconds(t)
  {
    if tokens == [] {
      assert tokens + [t] == [t] && [t][1..] == [];
    } else {
      TotalAppend(tokens[1..], t);
      assert (tokens + [t])[1..] == tokens[1..] + [t];
    }
  }

  /** The tokens read so far, followed by the scan of what is left, are the whole scan. */
  ghost predicate Scanned(value: string, done: seq<Token>, offset: nat)
    requires offset <= |value|
  {
    Scan(value) == Prepend(done, Scan(value[offset..]))
  }

  function Prepend(done: seq<Token>, others: Option<seq<Token>>): Option<seq<Token>> {
    match others case None => None case Some(tokens) => Some(done + tokens)
  }

  lemma ScanStep(value: string, done: seq<Token>, offset: nat, t: Token)
    requires offset < |value| && Scanned(value, done, offset) && ReadToken(value[offset..]) == Some(t)
    ensures 0 < Length(t) && offset + Length(t) <= |value|
    ensures Scanned(value, done + [t], offset + Length(t))
  {
    ReadTokenSound(value[offset..]);
    assert value[offset..][Length(t)..] == value[offset + Length(t)..];
    var rest := Scan(value[offset + Length(t)..]);
    if rest.Some? {
      assert done + ([t] + rest.value) == (done + [t]) + rest.value;
    }
  }

  lemma ScanRefused(value: string, done: seq<Token>, offset: nat)
    requires offset < |value| && Scanned(value, done, offset) && ReadToken(value[offset..]) == None
    ensures Scan(value) == None
  {
  }

  ghost predicate Sums(totalMs: real, done: seq<Token>) {
    totalMs == Total(done)
  }

  lemma SumStep(totalMs: real, done: seq<Token>, t: Token)
    requires Sums(totalMs, done)
    ensures Sums(totalMs + Milliseconds(t), done + [t])
  {
    TotalAppend(done, t);
  }

  lemma ScanStart(value: string)
    ensures Scanned(value, [], 0)
  {
    assert value[0..] == value;
    if Scan(value).Some? {
      assert [] + Scan(value).value == Scan(value).value;
    }
  }

  lemma ScanEnd(value: string, done: seq<Token>)
    requires Scanned(value, done, |value|)
    ensures Scan(value) == Some(done)
  {
    assert value[|value|..] == "" && done + [] == done;
  }

  /** Reads the token at the offset; none means the whole text is refused. */
  method NextToken(value: string, offset: nat, ghost done: seq<Token>) returns (token: Option<Token>)
    requires offset < |value| && Scanned(value, done, offset)
    ensures token.None? ==> Scan(value) == None
    ensures token.Some? ==>
      && 0 < Length(token.value) && offset + Length(token.value) <= |value|
      && Scanned(value, done + [token.value], offset + Length(token.value))
  {
    hide Scan, ReadToken, Scanned;
    token := ReadToken(value[offset..]);
    if token.Some? {
      ScanStep(value, done, offset, token.value);
    } else {
      ScanRefused(value, done, offset);
    }
  }

  method AddToken(totalMs: real, t: Token, ghost done: seq<Token>) returns (sum: real)
    requires Sums(totalMs, done)
    ensures Sums(sum, done + [t])
  {
    SumStep(totalMs, done, t);
    sum := totalMs + Milliseconds(t);
  }

  // ----- unambiguity -----

  /** What may follow a token: nothing, or the start of another amount. */
  predicate Boundary(s: string) {
    s == "" || IsDigit(s[0]) || s[0] == '.'
  }

  lemma {:induction false} DigitRunExact(digits: string, rest: string)
    requires AllDigits(digits) && (rest != "" ==> !IsDigit(rest[0]))
    ensures DigitRun(digits + rest) == |digits|
  {
    if digits == "" {
      assert digits + rest == rest;
    } else {
      DigitRunExact(digits[1..], rest);
      assert (digits + rest)[1..] == digits[1..] + rest;
    }
  }

  lemma AmountLengthExact(a: string, rest: string)
    requires IsAmount(a) && rest != "" && !IsDigit(rest[0]) && rest[0] != '.'
    ensures AmountLength(a + rest) == |a|
  {
    if AllDigits(a) {
      DigitRunExact(a, rest);
    } else {
      var i := PointOf(a);
      FractionLengthExact(a[..i], a[i + 1..], rest);
      SplitAtPoint(a, rest, i);
    }
  }

  lemma PointOf(a: string) returns (i: nat)
    requires IsAmount(a) && !AllDigits(a)
    ensures i < |a| && a[i] == '.' && AllDigits(a[..i]) && AllDigits(a[i + 1..]) && |a| > 1
  {
    i :| 0 <= i < |a| && a[i] == '.' && AllDigits(a[..i]) && AllDigits(a[i + 1..]) && |a| > 1;
  }

  lemma SplitAtPoint(a: string, rest: string, i: nat)
    requires i < |a| && a[i] == '.'
    ensures a + rest == a[..i] + ("." + (a[i + 1..] + rest))
  {
  }

  lemma FractionLengthExact(whole: string, fraction: string, rest: string)
    requires AllDigits(whole) && AllDigits(fraction) && |whole| + |fraction| > 0
    requires rest != "" && !IsDigit(rest[0])
    ensures AmountLength(whole + ("." + (fraction + rest))) == |whole| + 1 + |fraction|
  {
    var tail := "." + (fraction + rest);
    var s := whole + tail;
    DigitRunExact(whole, tail);
    DigitRunExact(fraction, rest);
    assert s[|whole| + 1..] == fraction + rest && s[|whole|] == '.';
  }

  /** A unit is read as itself: `ms` is never `m`, because no `s` can follow an `m`. */
  lemma UnitAtExact(unit: string, rest: string)
    requires IsUnit(unit) && Boundary(rest)
    ensures UnitAt(unit + rest) == Some(unit)
  {
    var s := unit + rest;
    assert s[0] == unit[0];
    assert |unit| == 2 ==> s[1] == unit[1];
    assert |unit| == 1 && |s| > 1 ==> s[1] == rest[0];
  }

  lemma ReadTokenExact(t: Token, rest: string)
    requires ValidToken(t) && Boundary(rest)
    ensures ReadToken(t.amount + t.unit + rest) == Some(t)
  {
    var s := t.amount + t.unit + rest;
    UnitsNonempty(t.unit);
    assert s == t.amount + (t.unit + rest);
    AmountLengthExact(t.amount, t.unit + rest);
    assert s[|t.amount|..] == t.unit + rest && s[..|t.amount|] == t.amount;
    UnitAtExact(t.unit, rest);
  }

  lemma RenderBoundary(tokens: seq<Token>)
    requires ValidTokens(tokens)
    ensures Boundary(Render(tokens))
  {
    if tokens != [] {
      var a := tokens[0].amount;
      assert ValidToken(tokens[0]);
      assert a != "" && Render(tokens)[0] == a[0];
      if !AllDigits(a) {
        var i := PointOf(a);
        assert i > 0 ==> a[0] in a[..i];
      } else {
        assert a[0] in a;
      }
    }
  }

  lemma ScanToken(t: Token, rest: string)
    requires ValidToken(t) && Boundary(rest) && Scan(rest).Some?
    ensures Scan(t.amount + t.unit + rest) == Some([t] + Scan(rest).value)
  {
    var s := t.amount + t.unit + rest;
    ReadTokenExact(t, rest);
    UnitsNonempty(t.unit);
    assert s != "" && s[Length(t)..] == rest;
  }

  /** Every concatenation of tokens is read back as exactly those tokens. */
  lemma {:induction false} ScanRendered(tokens: seq<Token>)
    requires ValidTokens(tokens)
    ensures Scan(Render(tokens)) == Some(tokens)
  {
    hide ReadToken, Boundary, ValidToken;
    if tokens != [] {
      assert ValidToken(tokens[0]);
      RenderBoundary(tokens[1..]);
      ScanRendered(tokens[1..]);
      ScanToken(tokens[0], Render(tokens[1..]));
      assert [tokens[0]] + tokens[1..] == tokens;
    }
  }

  /** ... and every text that scans is the concatenation of its tokens. */
  lemma {:induction false} ScanSound(s: string)
    requires Scan(s).Some?
    ensures ValidTokens(Scan(s).value) && Render(Scan(s).value) == s
    decreases |s|
  {
    hide ReadToken;
    if s != "" {
      var t := ReadToken(s).value;
      ReadTokenSound(s);
      ScanSound(s[Length(t)..]);
      var others := Scan(s[Length(t)..]).value;
      assert ([t] + others)[1..] == others;
      assert s == s[..Length(t)] + s[Length(t)..];
    }
  }

  ghost predicate Denotes(tokens: seq<Token>, text: string) {
    tokens != [] && ValidTokens(tokens) && Render(tokens) == text
  }

  /** Duration text is unambiguous: no text is written by two token lists, and a
      text parses to a value exactly when it is a non-empty concatenation of
      amounts with units whose sum is that value and in range; every other text
      is refused. */
  lemma DurationUnambiguous(text: string, ms: real)
    ensures ParseDuration(text) == Ok(ms) <==>
      exists tokens :: Denotes(tokens, text) && Total(tokens) == ms && InRange(ms)
    ensures forall a: seq<Token>, b: seq<Token> :: Denotes(a, text) && Denotes(b, text) ==> a == b
  {
    if Scan(text).Some? {
      ScanSound(text);
      assert text != "" ==> Denotes(Scan(text).value, text);
    }
    forall a: seq<Token> | Denotes(a, text) ensures Scan(text) == Some(a) && text != "" {
      ScanRendered(a);
      assert ValidToken(a[0]);
      UnitsNonempty(a[0].unit);
    }
  }

  // ----- what a duration is worth, said of its text alone -----

  /** Nanoseconds in a unit. */
  function Nanoseconds(): map<string, nat> {
    map["ns" := 1, "us" := 1000, "\U{B5}s" := 1000, "\U{3BC}s" := 1000, "ms" := 1000 * 1000,
        "s" := 1000 * 1000 * 1000, "m" := 60 * 1000 * 1000 * 1000, "h" := 60 * 60 * 1000 * 1000 * 1000]
  }

  /** An amount, with or without a point, and its unit. */
  datatype Part = Part(whole: string, point: bool, fraction: string, unit: string)

  ghost predicate AllNumerals(s: string) {
    forall i :: 0 <= i < |s| ==> IsNumeral(s[i])
  }

  ghost predicate ValidPart(p: Part) {
    && AllNumerals(p.whole) && AllNumerals(p.fraction) && p.whole + p.fraction != ""
    && (!p.point ==> p.fraction == "") && p.unit in Nanoseconds()
  }

  function AmountText(p: Part): string {
    p.whole + (if p.point then "." else "") + p.fraction
  }

  function PartsText(parts: seq<Part>): string {
    if parts == [] then "" else AmountText(parts[0]) + parts[0].unit + PartsText(parts[1..])
  }

  function Power10(n: nat): (p: nat)
    ensures p > 0
  {
    if n == 0 then 1 else 10 * Power10(n - 1)
  }

  /** The number that numerals spell, each at its place. */
  ghost function Spelled(numerals: string): nat
    requires AllNumerals(numerals)
  {
    if numerals == "" then 0
    else NumeralValues()[numerals[0]] * Power10(|numerals| - 1) + Spelled(numerals[1..])
  }

  lemma NumeralsTogether(a: string, b: string)
    requires AllNumerals(a) && AllNumerals(b)
    ensures AllNumerals(a + b)
  {
  }

  /** The spelled number, shifted by the places after the point, in the unit. */
  ghost function PartMilliseconds(p: Part): real
    requires ValidPart(p)
  {
    NumeralsTogether(p.whole, p.fraction);
    (Spelled(p.whole + p.fraction) * Nanoseconds()[p.unit]) as real / (1000000 * Power10(|p.fraction|)) as real
  }

  ghost predicate ValidParts(parts: seq<Part>) {
    forall i :: 0 <= i < |parts| ==> ValidPart(parts[i])
  }

  ghost function SumOf(parts: seq<Part>): real
    requires ValidParts(parts)
  {
    if parts == [] then 0.0 else PartMilliseconds(parts[0]) + SumOf(parts[1..])
  }

  /** A text is a duration of so many milliseconds. */
  ghost predicate Means(text: string, ms: real) {
    && 0.0 < ms <= 9007199254740991.0
    && exists parts :: parts != [] && ValidParts(parts) && PartsText(parts) == text && SumOf(parts) == ms
  }

  // ----- the parser's values are these -----

  lemma NumeralsAreDigits(s: string)
    ensures AllNumerals(s) <==> AllDigits(s)
    ensures AllNumerals(s) ==> forall i :: 0 <= i < |s| ==> NumeralValues()[s[i]] == DigitValue(s[i])
  {
    hide NumeralValues;
    forall i | 0 <= i < |s|
      ensures IsNumeral(s[i]) <==> IsDigit(s[i])
      ensures IsNumeral(s[i]) ==> NumeralValues()[s[i]] == DigitValue(s[i])
      ensures s[i] in s
    {
      NumeralIff(s[i]);
    }
  }

  lemma {:induction false} SpelledTogether(a: string, b: string)
    requires AllNumerals(a) && AllNumerals(b) && AllNumerals(a + b)
    ensures Spelled(a + b) == Spelled(a) * Power10(|b|) + Spelled(b)
  {
    hide NumeralValues;
    if a == "" {
      assert a + b == b;
    } else {
      assert (a + b)[1..] == a[1..] + b;
      SpelledTogether(a[1..], b);
      PowersMultiply(|a| - 1, |b|);
      var d, x, y := NumeralValues()[a[0]], Power10(|a| - 1), Power10(|b|);
      Distribute(d, x, y, Spelled(a[1..]));
    }
  }

  lemma Distribute(d: int, x: int, y: int, rest: int)
    ensures (d * x + rest) * y == d * (x * y) + rest * y
  {
    assert (d * x + rest) * y == d * x * y + rest * y;
    assert d * x * y == d * (x * y);
  }

  lemma {:induction false} PowersMultiply(m: nat, n: nat)
    ensures Power10(m + n) == Power10(m) * Power10(n)
  {
    if m > 0 {
      PowersMultiply(m - 1, n);
      assert (10 * Power10(m - 1)) * Power10(n) == 10 * (Power10(m - 1) * Power10(n));
    }
  }

  lemma {:induction false} WholeIsSpelled(s: string)
    requires AllNumerals(s)
    ensures WholeValue(s) == Spelled(s)
  {
    hide NumeralValues;
    if s != "" {
      var front, last := s[..|s| - 1], s[|s| - 1..];
      WholeIsSpelled(front);
      assert s == front + last && last == [s[|s| - 1]];
      SpelledTogether(front, last);
      NumeralsAreDigits(s);
      assert Power10(1) == 10 * Power10(0) == 10;
      assert last[1..] == "";
      assert Spelled(last) == NumeralValues()[last[0]] * Power10(0) + Spelled("");
    }
  }

  lemma {:induction false} FractionIsSpelled(s: string)
    requires AllNumerals(s)
    ensures FractionValue(s) * Power10(|s|) as real == Spelled(s) as real
  {
    hide NumeralValues;
    if s != "" {
      FractionIsSpelled(s[1..]);
      NumeralsAreDigits(s);
      TenTimes(DigitValue(s[0]), FractionValue(s[1..]), Power10(|s| - 1), Spelled(s[1..]));
    }
  }

  lemma TenTimes(d: int, rest: real, power: nat, spelled: nat)
    requires rest * power as real == spelled as real
    ensures (d as real + rest) / 10.0 * (10 * power) as real == (d * power + spelled) as real
  {
    var p := power as real;
    assert (10 * power) as real == 10.0 * p;
    assert (d as real + rest) / 10.0 * (10.0 * p) == (d as real + rest) * p;
    assert (d as real + rest) * p == d as real * p + rest * p;
    assert (d * power) as real == d as real * p;
  }

  function TokenOf(p: Part): Token {
    Token(AmountText(p), p.unit)
  }

  lemma AmountSplits(p: Part)
    requires ValidPart(p)
    ensures AmountValue(AmountText(p)) == WholeValue(p.whole) as real + (if p.point then FractionValue(p.fraction) else 0.0)
  {
    hide NumeralValues, Nanoseconds, FractionValue, WholeValue, DigitRun;
    var rest := (if p.point then "." else "") + p.fraction;
    NumeralsAreDigits(p.whole);
    DigitRunExact(p.whole, rest);
    var a := AmountText(p);
    assert a == p.whole + rest && a[..|p.whole|] == p.whole;
    assert p.point ==> a[|p.whole| + 1..] == p.fraction;
  }

  /** The amount, by its places. */
  lemma AmountIsSpelled(p: Part)
    requires ValidPart(p) && AllNumerals(p.whole + p.fraction)
    ensures AmountValue(AmountText(p)) * Power10(|p.fraction|) as real == Spelled(p.whole + p.fraction) as real
  {
    hide NumeralValues, Nanoseconds, FractionValue, WholeValue, AmountValue, Spelled, Power10;
    AmountSplits(p);
    WholeIsSpelled(p.whole);
    FractionIsSpelled(p.fraction);
    SpelledTogether(p.whole, p.fraction);
    NothingSpelled();
    Shifted(WholeValue(p.whole), if p.point then FractionValue(p.fraction) else 0.0, Power10(|p.fraction|), Spelled(p.fraction));
  }

  lemma NothingSpelled()
    ensures Spelled("") == 0
  {
  }

  lemma Shifted(w: int, f: real, power: nat, spelled: nat)
    requires f * power as real == spelled as real
    ensures (w as real + f) * power as real == (w * power + spelled) as real
  {
    assert (w as real + f) * power as real == w as real * power as real + f * power as real;
    assert (w * power) as real == w as real * power as real;
  }

  lemma UnitsAgree(unit: string)
    ensures IsUnit(unit) <==> unit in Nanoseconds()
    ensures IsUnit(unit) ==> forall amount :: Scale(amount, unit) * 1000000.0 == amount * Nanoseconds()[unit] as real
  {
  }

  lemma TokenIsPart(p: Part)
    requires ValidPart(p)
    ensures Milliseconds(TokenOf(p)) == PartMilliseconds(p)
  {
    hide Nanoseconds, AmountValue, NumeralValues, Scale;
    NumeralsTogether(p.whole, p.fraction);
    AmountIsSpelled(p);
    UnitsAgree(p.unit);
    var amount, n := AmountValue(AmountText(p)), Nanoseconds()[p.unit];
    Quotient(Scale(amount, p.unit), amount, Spelled(p.whole + p.fraction), n, Power10(|p.fraction|));
  }

  lemma Quotient(ms: real, amount: real, spelled: nat, n: nat, power: nat)
    requires power > 0 && amount * power as real == spelled as real && ms * 1000000.0 == amount * n as real
    ensures ms == (spelled * n) as real / (1000000 * power) as real
  {
    var p := power as real;
    assert (1000000 * power) as real == 1000000.0 * p;
    assert ms * (1000000.0 * p) == ms * 1000000.0 * p;
    assert amount * n as real * p == amount * p * n as real;
    assert (spelled * n) as real == spelled as real * n as real;
  }

  /** The parser's tokens are exactly the texts of parts. */
  lemma PartIsToken(p: Part)
    requires ValidPart(p)
    ensures ValidToken(TokenOf(p))
  {
    hide NumeralValues, Nanoseconds, IsUnit;
    NumeralsAreDigits(p.whole);
    NumeralsAreDigits(p.fraction);
    UnitsAgree(p.unit);
    var a := AmountText(p);
    if p.point {
      var i := |p.whole|;
      assert a[i] == '.' && a[..i] == p.whole && a[i + 1..] == p.fraction;
    } else {
      assert a == p.whole;
    }
  }

  lemma TokenHasPart(t: Token) returns (p: Part)
    requires ValidToken(t)
    ensures ValidPart(p) && TokenOf(p) == t
  {
    hide NumeralValues, Nanoseconds, IsUnit;
    UnitsAgree(t.unit);
    if AllDigits(t.amount) && t.amount != "" {
      p := Part(t.amount, false, "", t.unit);
      NumeralsAreDigits(p.whole);
    } else {
      var i := PointOf(t.amount);
      p := Part(t.amount[..i], true, t.amount[i + 1..], t.unit);
      NumeralsAreDigits(p.whole);
      NumeralsAreDigits(p.fraction);
      assert t.amount == t.amount[..i] + "." + t.amount[i + 1..];
    }
  }

  function TokensOf(parts: seq<Part>): (tokens: seq<Token>)
    ensures |tokens| == |parts|
  {
    if parts == [] then [] else [TokenOf(parts[0])] + TokensOf(parts[1..])
  }

  lemma {:induction false} PartsAreTokens(parts: seq<Part>)
    requires ValidParts(parts)
    ensures ValidTokens(TokensOf(parts)) && Render(TokensOf(parts)) == PartsText(parts)
    ensures Total(TokensOf(parts)) == SumOf(parts)
  {
    hide ValidPart, ValidToken, Milliseconds, PartMilliseconds, AmountText;
    if parts != [] {
      PartIsToken(parts[0]);
      TokenIsPart(parts[0]);
      PartsAreTokens(parts[1..]);
      var first, rest := TokenOf(parts[0]), TokensOf(parts[1..]);
      assert TokensOf(parts)[1..] == rest;
      assert forall i :: 1 <= i < |parts| ==> TokensOf(parts)[i] == rest[i - 1];
    }
  }

  lemma {:induction false} TokensHaveParts(tokens: seq<Token>) returns (parts: seq<Part>)
    requires ValidTokens(tokens)
    ensures ValidParts(parts) && TokensOf(parts) == tokens
  {
    hide ValidPart, ValidToken, TokenOf;
    if tokens == [] {
      parts := [];
    } else {
      assert ValidToken(tokens[0]);
      assert forall i :: 1 <= i < |tokens| ==> tokens[1..][i - 1] == tokens[i];
      var first := TokenHasPart(tokens[0]);
      var rest := TokensHaveParts(tokens[1..]);
      parts := [first] + rest;
      assert parts[1..] == rest && [tokens[0]] + tokens[1..] == tokens;
    }
  }

  /** The parser's answer is the worth of the text, exactly: it answers a number of
      milliseconds if and only if the text is a non-empty sequence of amounts with
      units, each worth the number it spells, by place, in its unit, that add up to
      it, in range. */
  lemma ParseMeans(text: string, ms: real)
    ensures ParseDuration(text) == Ok(ms) <==> Means(text, ms)
  {
    hide Scan, ParseDuration, SumOf, Total, ValidPart, ValidToken, Render, PartsText;
    DurationUnambiguous(text, ms);
    InRangeMeans(ms);
    if parts: seq<Part> :| parts != [] && ValidParts(parts) && PartsText(parts) == text && SumOf(parts) == ms {
      PartsAreTokens(parts);
      assert InRange(ms) ==> Denotes(TokensOf(parts), text) && Total(TokensOf(parts)) == ms && InRange(ms);
    }
    if tokens: seq<Token> :| Denotes(tokens, text) && Total(tokens) == ms && InRange(ms) {
      var parts := TokensHaveParts(tokens);
      PartsAreTokens(parts);
      assert parts != [] && ValidParts(parts) && PartsText(parts) == text && SumOf(parts) == ms;
    }
  }

  lemma InRangeMeans(ms: real)
    ensures InRange(ms) <==> 0.0 < ms <= 9007199254740991.0
  {
  }

  /** The scanning loop: the offset strictly increases. */
  method ParseDurationMilliseconds(value: string) returns (r: Result<real, DurationError>)
    ensures r == ParseDuration(value)
    ensures forall ms :: r == Ok(ms) <==> Means(value, ms)
  {
    hide Scan, ReadToken, Scanned, Means;
    forall ms ensures ParseDuration(value) == Ok(ms) <==> Means(value, ms) {
      ParseMeans(value, ms);
    }
    if value == "" {
      return Err(NotAPositiveDuration);
    }
    var totalMs, offset := 0.0, 0;
    ghost var done: seq<Token> := [];
    ScanStart(value);
    while offset < |value|
      invariant 0 <= offset <= |value| && Scanned(value, done, offset) && Sums(totalMs, done)
      decreases |value| - offset
    {
      var token := NextToken(value, offset, done);
      if token.None? {
        return Err(NotAPositiveDuration);
      }
      totalMs := AddToken(totalMs, token.value, done);
      offset := offset + Length(token.value);
      done := done + [token.value];
    }
    ScanEnd(value, done);
    if !InRange(totalMs) {
      return Err(NotAPositiveDuration);
    }
    return Ok(totalMs);
  }
}
