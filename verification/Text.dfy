/** Strings as the control plane and the edge handle them: splitting on a
    separator, prefixes, the byte order used by sorting, and composite keys
    whose two halves are joined by a NUL character. */
module Text {

  datatype Option<+T> = None | Some(value: T)

  datatype Result<+T, +E> = Ok(value: T) | Err(error: E)

  const NUL: char := 0 as char

  lemma Associative<T>(a: seq<T>, b: seq<T>, c: seq<T>)
    ensures a + (b + c) == a + b + c
  {
  }

  predicate StartsWith(s: string, prefix: string) {
    |prefix| <= |s| && s[..|prefix|] == prefix
  }

  /** `strings.Split`: always at least one piece, and pieces never contain the separator. */
  function Split(s: string, sep: char): (pieces: seq<string>)
    ensures |pieces| >= 1
    ensures forall i :: 0 <= i < |pieces| ==> sep !in pieces[i]
  {
    if s == "" then
      [""]
    else if s[0] == sep then
      [""] + Split(s[1..], sep)
    else
      var rest := Split(s[1..], sep);
      [[s[0]] + rest[0]] + rest[1..]
  }

  function Join(pieces: seq<string>, sep: string): string {
    if pieces == [] then ""
    else if |pieces| == 1 then pieces[0]
    else pieces[0] + sep + Join(pieces[1..], sep)
  }

  /** Splitting and joining are inverse: nothing of the text is lost or invented. */
  lemma {:induction false} JoinSplit(s: string, sep: char)
    ensures Join(Split(s, sep), [sep]) == s
  {
    if s != "" {
      JoinSplit(s[1..], sep);
      var rest := Split(s[1..], sep);
      if s[0] == sep {
        assert Split(s, sep)[1..] == rest;
        assert s == "" + [sep] + s[1..];
      } else {
        var pieces := Split(s, sep);
        assert pieces[1..] == rest[1..];
        if |rest| > 1 {
          assert Join(pieces, [sep]) == [s[0]] + rest[0] + [sep] + Join(rest[1..], [sep]);
          assert [s[0]] + rest[0] + [sep] + Join(rest[1..], [sep])
              == [s[0]] + (rest[0] + [sep] + Join(rest[1..], [sep]));
        }
        assert s == [s[0]] + s[1..];
      }
    }
  }

  /** ... and the other way: a list of pieces without the separator is got back. */
  lemma {:induction false} SplitJoin(pieces: seq<string>, sep: char)
    requires pieces != [] && forall i :: 0 <= i < |pieces| ==> sep !in pieces[i]
    ensures Split(Join(pieces, [sep]), sep) == pieces
  {
    var rest := if |pieces| == 1 then "" else [sep] + Join(pieces[1..], [sep]);
    if |pieces| > 1 {
      SplitJoin(pieces[1..], sep);
      assert Join(pieces, [sep]) == pieces[0] + rest;
      assert rest[1..] == Join(pieces[1..], [sep]);
      assert Split(rest, sep) == [""] + pieces[1..];
    } else {
      assert pieces[0] + rest == pieces[0];
      assert Split(rest, sep) == [""];
    }
    SplitHeadPiece(pieces[0], rest, sep);
    assert pieces == [pieces[0]] + pieces[1..];
    assert pieces[0] + "" == pieces[0];
  }

  lemma {:induction false} SplitHeadPiece(head: string, rest: string, sep: char)
    requires sep !in head
    ensures Split(head + rest, sep) == [head + Split(rest, sep)[0]] + Split(rest, sep)[1..]
  {
    var parts := Split(rest, sep);
    if head == "" {
      assert head + rest == rest && head + parts[0] == parts[0];
      assert parts == [parts[0]] + parts[1..];
    } else {
      assert head[0] in head;
      assert forall c :: c in head[1..] ==> c in head;
      SplitHeadPiece(head[1..], rest, sep);
      assert (head + rest)[1..] == head[1..] + rest;
      assert [head[0]] + (head[1..] + parts[0]) == head + parts[0];
    }
  }

  /** The order of `sort.Strings`: character by character, a proper prefix first. */
  predicate Less(a: string, b: string) {
    if b == "" then false
    else if a == "" then true
    else a[0] < b[0] || (a[0] == b[0] && Less(a[1..], b[1..]))
  }

  /** The first difference decides, and a proper prefix comes first. */
  ghost predicate FirstDifference(a: string, b: string, k: nat) {
    && k <= |a| && k < |b| && a[..k] == b[..k]
    && (k == |a| || a[k] < b[k])
  }

  lemma {:induction false} LessIff(a: string, b: string)
    ensures Less(a, b) <==> exists k: nat :: FirstDifference(a, b, k)
  {
    if b != "" {
      if a == "" {
        assert FirstDifference(a, b, 0);
      } else if a[0] == b[0] {
        LessIff(a[1..], b[1..]);
        if k: nat :| FirstDifference(a[1..], b[1..], k) {
          assert a[..k + 1] == [a[0]] + a[1..][..k] && b[..k + 1] == [b[0]] + b[1..][..k];
          assert FirstDifference(a, b, k + 1);
        }
        if k: nat :| FirstDifference(a, b, k) {
          assert k > 0;
          assert a[1..][..k - 1] == a[..k][1..] && b[1..][..k - 1] == b[..k][1..];
          assert FirstDifference(a[1..], b[1..], k - 1);
        }
      } else {
        assert a[0] < b[0] ==> FirstDifference(a, b, 0);
        if k: nat :| FirstDifference(a, b, k) {
          assert k > 0 ==> a[..k][0] == b[..k][0];
        }
      }
    }
  }

  lemma {:induction false} LessTransitive(a: string, b: string, c: string)
    requires Less(a, b) && Less(b, c)
    ensures Less(a, c)
  {
    if a != "" && a[0] == b[0] && b[0] == c[0] {
      LessTransitive(a[1..], b[1..], c[1..]);
    }
  }

  lemma {:induction false} LessTotal(a: string, b: string)
    ensures (Less(a, b) && !Less(b, a) && a != b)
         || (Less(b, a) && !Less(a, b) && a != b)
         || (a == b && !Less(a, b))
  {
    if a != "" && b != "" && a[0] == b[0] {
      LessTotal(a[1..], b[1..]);
      assert a == [a[0]] + a[1..] && b == [b[0]] + b[1..];
    }
  }

  ghost predicate StrictlySorted(names: seq<string>) {
    forall i, j :: 0 <= i < j < |names| ==> Less(names[i], names[j])
  }

  /** A strictly sorted list is determined by its elements alone. */
  lemma {:induction false} SortedUnique(a: seq<string>, b: seq<string>)
    requires StrictlySorted(a) && StrictlySorted(b)
    requires forall x :: x in a <==> x in b
    ensures a == b
  {
    if a == [] {
      assert forall i :: 0 <= i < |b| ==> b[i] in a;
    } else {
      assert a[0] in a;
      assert b != [];
      assert b[0] in b;
      LessTotal(a[0], b[0]);
      forall x ensures x in a[1..] <==> x in b[1..] {
        LessTotal(a[0], a[0]);
        if x in a[1..] { LessTotal(a[0], x); assert x in a; }
        if x in b[1..] { LessTotal(b[0], x); assert x in b; }
      }
      SortedUnique(a[1..], b[1..]);
      assert a == [a[0]] + a[1..] && b == [b[0]] + b[1..];
    }
  }

  /** The composite key `left NUL right`. */
  function NulKey(left: string, right: string): string {
    left + [NUL] + right
  }

  /** Two composite keys agree exactly when both halves do, provided the left
      halves hold no NUL; the right halves may hold anything. */
  lemma {:induction false} NulKeyInjective(a: string, b: string, c: string, d: string)
    requires NUL !in a && NUL !in c
    ensures NulKey(a, b) == NulKey(c, d) <==> a == c && b == d
  {
    var left, right := NulKey(a, b), NulKey(c, d);
    if a == "" || c == "" {
      assert left[|a|] == NUL && right[|c|] == NUL;
      assert left[|a| + 1..] == b && right[|c| + 1..] == d;
      assert a != "" ==> left[0] == a[0];
      assert c != "" ==> right[0] == c[0];
    } else {
      NulKeyInjective(a[1..], b, c[1..], d);
      assert left[0] == a[0] && left[1..] == NulKey(a[1..], b);
      assert right[0] == c[0] && right[1..] == NulKey(c[1..], d);
      assert a == [a[0]] + a[1..] && c == [c[0]] + c[1..];
    }
  }
}
