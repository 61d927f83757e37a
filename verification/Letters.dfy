/** The letters and numerals of ASCII, each listed by name. */
module Letters {

  /** Every lower-case letter with its capital. */
  function CasePairs(): map<char, char> {
    map[
      'a' := 'A', 'b' := 'B', 'c' := 'C', 'd' := 'D', 'e' := 'E', 'f' := 'F', 'g' := 'G', 'h' := 'H', 'i' := 'I',
      'j' := 'J', 'k' := 'K', 'l' := 'L', 'm' := 'M', 'n' := 'N', 'o' := 'O', 'p' := 'P', 'q' := 'Q', 'r' := 'R',
      's' := 'S', 't' := 'T', 'u' := 'U', 'v' := 'V', 'w' := 'W', 'x' := 'X', 'y' := 'Y', 'z' := 'Z']
  }

  predicate IsSmall(c: char) {
    c in CasePairs()
  }

  predicate IsCapital(c: char) {
    c in CasePairs().Values
  }

  /** The value of each numeral. */
  function NumeralValues(): map<char, nat> {
    map['0' := 0, '1' := 1, '2' := 2, '3' := 3, '4' := 4, '5' := 5, '6' := 6, '7' := 7, '8' := 8, '9' := 9]
  }

  predicate IsNumeral(c: char) {
    c in NumeralValues()
  }

  lemma SmallIff(c: char)
    ensures IsSmall(c) <==> 'a' <= c <= 'z'
    ensures IsSmall(c) ==> CasePairs()[c] == ((c as int) - 32) as char
  {
  }

  lemma CapitalIff(c: char)
    ensures IsCapital(c) <==> 'A' <= c <= 'Z'
  {
    hide CasePairs;
    if 'A' <= c <= 'Z' {
      var lower := ((c as int) + 32) as char;
      SmallIff(lower);
      assert lower in CasePairs() && CasePairs()[lower] == c;
    }
    if IsCapital(c) {
      var k :| k in CasePairs() && CasePairs()[k] == c;
      SmallIff(k);
    }
  }

  lemma NumeralIff(c: char)
    ensures IsNumeral(c) <==> '0' <= c <= '9'
    ensures IsNumeral(c) ==> NumeralValues()[c] == c as int - '0' as int
  {
  }

  /** The sixteen numerals of the base in which digests are written. */
  const HEX := "0123456789abcdef"

  predicate IsHexNumeral(c: char) {
    c in HEX
  }

  function HexNumeral(n: nat): char
    requires n < 16
  {
    HEX[n]
  }

  lemma HexIff(c: char)
    ensures IsHexNumeral(c) <==> '0' <= c <= '9' || 'a' <= c <= 'f'
  {
    if '0' <= c <= '9' {
      assert HEX[c as int - '0' as int] == c;
    } else if 'a' <= c <= 'f' {
      assert HEX[c as int - 'a' as int + 10] == c;
    }
  }

  lemma HexNumeralIs(n: nat)
    requires n < 16
    ensures IsHexNumeral(HexNumeral(n))
  {
  }

  lemma HexNumeralOf(c: char) returns (n: nat)
    requires IsHexNumeral(c)
    ensures n < 16 && HexNumeral(n) == c
  {
    n :| n < 16 && HEX[n] == c;
  }

  /** Every letter of one text is the other's, or its lower-case form. */
  ghost predicate SameButCase(s: string, upper: string) {
    && |s| == |upper|
    && forall i :: 0 <= i < |s| ==> s[i] == upper[i] || (IsSmall(s[i]) && CasePairs()[s[i]] == upper[i])
  }

  ghost predicate NoSmallLetter(s: string) {
    forall i :: 0 <= i < |s| ==> !IsSmall(s[i])
  }
}
