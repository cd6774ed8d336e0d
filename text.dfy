/**
 * The string primitives of PHP that the client relies on: explode with a limit of two,
 * explode on a one-character separator, trim, and the ASCII case folding behind stristr.
 */
module Text {
  import opened Wrappers
  import opened Sequences

  /** The characters PHP's trim() strips when no character list is given. */
  const Whitespace: set<char> := {' ', '\t', '\n', '\r', '\0', '\U{0B}'}

  /** Every character trim() strips is a space or a control character. */
  lemma WhitespaceIsLow()
    ensures forall c :: c in Whitespace ==> c <= ' '
  {
    forall w | w in Whitespace ensures w <= ' ' { }
  }

  /** `pat` occurs in `s` starting at index `i`. */
  predicate OccursAt(s: string, pat: string, i: nat)
  {
    i + |pat| <= |s| && s[i..i + |pat|] == pat
  }

  /** The first index at or after `from` where `pat` occurs in `s`. */
  function FindFrom(s: string, pat: string, from: nat): (r: Option<nat>)
    requires pat != []
    decreases |s| - from
    ensures r.Some? ==> from <= r.value && OccursAt(s, pat, r.value)
    ensures r.Some? ==> forall i :: from <= i < r.value ==> !OccursAt(s, pat, i)
    ensures r.None? ==> forall i :: from <= i ==> !OccursAt(s, pat, i)
  {
    if from + |pat| > |s| then None
    else if s[from..from + |pat|] == pat then Some(from)
    else FindFrom(s, pat, from + 1)
  }

  /**
   * explode(sep, s, 2): the text before the first occurrence of `sep` and the text after it,
   * or None when `sep` does not occur (explode then yields the whole string as its only piece).
   */
  function SplitOnce(s: string, sep: string): (r: Option<(string, string)>)
    requires sep != []
    ensures r.Some? ==> s == r.value.0 + sep + r.value.1
    ensures r.Some? ==> forall i :: 0 <= i < |r.value.0| ==> !OccursAt(s, sep, i)
    ensures r.None? <==> forall i :: 0 <= i ==> !OccursAt(s, sep, i)
  {
    match FindFrom(s, sep, 0)
    case None => None
    case Some(k) =>
      assert s == s[..k] + s[k..k + |sep|] + s[k + |sep|..];
      Some((s[..k], s[k + |sep|..]))
  }

  /** The pieces glued back together with `c` between them (PHP's implode). */
  function Join(parts: seq<string>, c: char): string
    requires |parts| >= 1
  {
    if |parts| == 1 then parts[0] else parts[0] + [c] + Join(parts[1..], c)
  }

  function Count(s: string, c: char): nat
  {
    if s == [] then 0 else (if s[0] == c then 1 else 0) + Count(s[1..], c)
  }

  /** explode(c, s) for a one-character separator, without a limit. */
  function Split(s: string, c: char): (r: seq<string>)
    ensures |r| == Count(s, c) + 1
    ensures forall i :: 0 <= i < |r| ==> c !in r[i]
    ensures Join(r, c) == s
  {
    if s == [] then [""]
    else if s[0] == c then
      var rest := Split(s[1..], c);
      assert s == [c] + s[1..];
      [""] + rest
    else
      var rest := Split(s[1..], c);
      var r := [[s[0]] + rest[0]] + rest[1..];
      assert r[1..] == rest[1..];
      assert s == [s[0]] + s[1..];
      r
  }

  /** Splitting a string with no `c` in it yields the string alone. */
  lemma {:induction false} SplitWithoutSeparator(p: string, c: char)
    requires c !in p
    ensures Split(p, c) == [p]
  {
    if p != [] {
      SplitWithoutSeparator(p[1..], c);
      assert [p[0]] + p[1..] == p;
    }
  }

  lemma {:induction false} SplitAfterPiece(p: string, rest: string, c: char)
    requires c !in p
    ensures Split(p + [c] + rest, c) == [p] + Split(rest, c)
  {
    if p == [] {
      assert p + [c] + rest == [c] + rest;
      assert ([c] + rest)[1..] == rest;
    } else {
      assert (p + [c] + rest)[1..] == p[1..] + [c] + rest;
      SplitAfterPiece(p[1..], rest, c);
      assert [p[0]] + p[1..] == p;
    }
  }

  /** explode undoes implode when no piece contains the separator. */
  lemma {:induction false} SplitJoin(parts: seq<string>, c: char)
    requires |parts| >= 1
    requires forall i :: 0 <= i < |parts| ==> c !in parts[i]
    ensures Split(Join(parts, c), c) == parts
  {
    if |parts| == 1 {
      SplitWithoutSeparator(parts[0], c);
    } else {
      SplitJoin(parts[1..], c);
      SplitAfterPiece(parts[0], Join(parts[1..], c), c);
      assert [parts[0]] + parts[1..] == parts;
    }
  }

  /** ltrim(s, cs) */
  function TrimLeft(s: string, cs: set<char>): (r: string)
    ensures |r| <= |s| && r == s[|s| - |r|..]
    ensures forall i :: 0 <= i < |s| - |r| ==> s[i] in cs
    ensures r == [] || r[0] !in cs
  {
    if s != [] && s[0] in cs then
      var r := TrimLeft(s[1..], cs);
      DropAfterHead(s, |s| - 1 - |r|);
      assert forall i :: 1 <= i < |s| - |r| ==> s[i] == s[1..][i - 1];
      r
    else s
  }

  /** rtrim(s, cs) */
  function TrimRight(s: string, cs: set<char>): (r: string)
    ensures |r| <= |s| && r == s[..|r|]
    ensures forall i :: |r| <= i < |s| ==> s[i] in cs
    ensures r == [] || r[|r| - 1] !in cs
  {
    if s != [] && s[|s| - 1] in cs then
      var r := TrimRight(s[..|s| - 1], cs);
      TakeBeforeLast(s, |r|);
      assert forall i :: |r| <= i < |s| - 1 ==> s[i] == s[..|s| - 1][i];
      r
    else s
  }

  /** How many characters ltrim(s, cs) strips. */
  function Stripped(s: string, cs: set<char>): nat
  {
    |s| - |TrimLeft(s, cs)|
  }

  /**
   * trim(s, cs): both ends stripped of characters in `cs`. The result is the slice of `s` that
   * starts after the stripped prefix and is followed only by stripped characters; it neither
   * starts nor ends with a character of `cs`.
   */
  function Trim(s: string, cs: set<char>): (r: string)
    ensures Stripped(s, cs) + |r| <= |s| && r == s[Stripped(s, cs)..Stripped(s, cs) + |r|]
    ensures forall i :: 0 <= i < Stripped(s, cs) ==> s[i] in cs
    ensures forall i :: Stripped(s, cs) + |r| <= i < |s| ==> s[i] in cs
    ensures r == [] || (r[0] !in cs && r[|r| - 1] !in cs)
  {
    var l := TrimLeft(s, cs);
    var r := TrimRight(l, cs);
    TrimShape(s, cs, l, r, |s| - |l|);
    r
  }

  /**
   * A suffix `l` of `s` cut down to a prefix `r` of it, with only characters of `cs` cut from the
   * end and none at the start of `l`, is a slice of `s` with stripped characters after it and none
   * at its ends.
   */
  lemma TrimShape(s: string, cs: set<char>, l: string, r: string, a: nat)
    requires a + |l| == |s| && l == s[a..]
    requires |r| <= |l| && r == l[..|r|]
    requires forall i :: |r| <= i < |l| ==> l[i] in cs
    requires l == [] || l[0] !in cs
    requires r == [] || r[|r| - 1] !in cs
    ensures a + |r| <= |s| && r == s[a..a + |r|]
    ensures forall i :: a + |r| <= i < |s| ==> s[i] in cs
    ensures r == [] || (r[0] !in cs && r[|r| - 1] !in cs)
  {
    DropTake(s, a, |r|);
    forall i | a + |r| <= i < |s| ensures s[i] in cs {
      assert s[i] == l[i - a];
    }
    if r != [] {
      assert r[0] == l[0];
    }
  }

  lemma {:induction false} TrimRightDropsLast(s: string, x: char, cs: set<char>)
    requires x in cs
    ensures TrimRight(s + [x], cs) == TrimRight(s, cs)
  {
    assert (s + [x])[..|s|] == s;
  }

  lemma {:induction false} TrimLeftKeepsLast(s: string, x: char, cs: set<char>)
    requires TrimLeft(s, cs) != []
    ensures TrimLeft(s + [x], cs) == TrimLeft(s, cs) + [x]
  {
    if s[0] in cs {
      assert (s + [x])[1..] == s[1..] + [x];
      TrimLeftKeepsLast(s[1..], x, cs);
    }
  }

  lemma {:induction false} TrimLeftAllStripped(s: string, x: char, cs: set<char>)
    requires TrimLeft(s, cs) == [] && x in cs
    ensures TrimLeft(s + [x], cs) == []
  {
    if s == [] {
    } else {
      assert (s + [x])[1..] == s[1..] + [x];
      TrimLeftAllStripped(s[1..], x, cs);
    }
  }

  /** A stripped character appended to a string does not change what trim() returns. */
  lemma TrimIgnoresTrailing(s: string, x: char, cs: set<char>)
    requires x in cs
    ensures Trim(s + [x], cs) == Trim(s, cs)
  {
    if TrimLeft(s, cs) == [] {
      TrimLeftAllStripped(s, x, cs);
    } else {
      TrimLeftKeepsLast(s, x, cs);
      TrimRightDropsLast(TrimLeft(s, cs), x, cs);
    }
  }

  /** ASCII lower-casing of one character, as strtolower and stristr do it. */
  function LowerChar(c: char): char
  {
    if 'A' <= c <= 'Z' then (c as int + 32) as char else c
  }

  /** ASCII lower-casing of a string. */
  function Lower(s: string): (r: string)
    ensures |r| == |s|
    ensures forall i :: 0 <= i < |s| ==> r[i] == LowerChar(s[i])
  {
    seq(|s|, i requires 0 <= i < |s| => LowerChar(s[i]))
  }

  /** stristr(haystack, needle) !== false */
  predicate ContainsIgnoringCase(haystack: string, needle: string)
  {
    exists i :: 0 <= i <= |haystack| && OccursAt(Lower(haystack), Lower(needle), i)
  }

  /** Lower-casing commutes with slicing. */
  lemma LowerSlice(s: string, a: nat, b: nat)
    requires a <= b <= |s|
    ensures Lower(s[a..b]) == Lower(s)[a..b]
  {
    var x, y := Lower(s[a..b]), Lower(s)[a..b];
    forall i | 0 <= i < b - a ensures x[i] == y[i] {
      assert s[a..b][i] == s[a + i];
    }
  }

  /** An occurrence inside a slice is an occurrence in the whole text, and back. */
  lemma OccursInSlice(x: string, a: nat, b: nat, pat: string, p: nat)
    requires a <= p && p + |pat| <= b <= |x|
    ensures OccursAt(x[a..b], pat, p - a) <==> OccursAt(x, pat, p)
  {
    SliceOfSlice(x, a, b, p - a, p - a + |pat|);
  }

  /** An occurrence inside a slice, up to case, is an occurrence in the whole text. */
  lemma ContainsInSlice(s: string, a: nat, b: nat, t: string, needle: string)
    requires a <= b <= |s| && t == s[a..b] && ContainsIgnoringCase(t, needle)
    ensures ContainsIgnoringCase(s, needle)
  {
    var n := Lower(needle);
    var i :| 0 <= i <= |t| && OccursAt(Lower(t), n, i);
    LowerSlice(s, a, b);
    OccursInSlice(Lower(s), a, b, n, a + i);
    assert OccursAt(Lower(s), n, a + i);
  }

  /**
   * Where a needle whose first and last characters lower-case to printable ones occurs, up to
   * case, the text has printable characters at both ends of the occurrence.
   */
  lemma OccurrenceIsPrintable(s: string, needle: string, p: nat)
    requires |needle| >= 1 && Lower(needle)[0] > ' ' && Lower(needle)[|needle| - 1] > ' '
    requires OccursAt(Lower(s), Lower(needle), p)
    ensures s[p] > ' ' && s[p + |needle| - 1] > ' '
  {
    OccurrenceEnds(Lower(s), Lower(needle), p);
  }

  /** A text whose character at `p` differs from the pattern's first has no occurrence at `p`. */
  lemma Mismatch(x: string, pat: string, p: nat)
    requires |pat| >= 1 && p < |x| && x[p] != pat[0]
    ensures !OccursAt(x, pat, p)
  {
    if p + |pat| <= |x| {
      assert x[p..p + |pat|][0] == x[p];
    }
  }

  /** An occurrence starts and ends with the pattern's first and last characters. */
  lemma OccurrenceEnds(x: string, pat: string, p: nat)
    requires |pat| >= 1 && OccursAt(x, pat, p)
    ensures x[p] == pat[0] && x[p + |pat| - 1] == pat[|pat| - 1]
  {
    assert x[p..p + |pat|][0] == x[p];
    assert x[p..p + |pat|][|pat| - 1] == x[p + |pat| - 1];
  }

  /** A slice that holds an occurrence, up to case, whole contains the needle. */
  lemma SliceContains(s: string, a: nat, b: nat, t: string, needle: string, p: nat)
    requires a <= p && p + |needle| <= b <= |s| && t == s[a..b]
    requires OccursAt(Lower(s), Lower(needle), p)
    ensures ContainsIgnoringCase(t, needle)
  {
    LowerSlice(s, a, b);
    OccursInSlice(Lower(s), a, b, Lower(needle), p);
    assert OccursAt(Lower(t), Lower(needle), p - a);
  }

  /**
   * A window of a text with only characters of `cs` around it, where `cs` holds only spaces and
   * control characters: an occurrence, up to case, of a needle whose first and last characters
   * lower-case to printable ones lies inside the window.
   */
  lemma WindowKeeps(s: string, t: string, a: nat, needle: string, cs: set<char>)
    requires a + |t| <= |s| && t == s[a..a + |t|]
    requires forall i :: 0 <= i < a ==> s[i] in cs
    requires forall i :: a + |t| <= i < |s| ==> s[i] in cs
    requires forall c :: c in cs ==> c <= ' '
    requires |needle| >= 1 && Lower(needle)[0] > ' ' && Lower(needle)[|needle| - 1] > ' '
    requires ContainsIgnoringCase(s, needle)
    ensures ContainsIgnoringCase(t, needle)
  {
    var p :| 0 <= p <= |s| && OccursAt(Lower(s), Lower(needle), p);
    var q := p + |needle| - 1;
    OccurrenceIsPrintable(s, needle, p);
    assert s[p] !in cs && s[q] !in cs;
    SliceContains(s, a, a + |t|, t, needle, p);
  }

  /** Such a window contains the needle, up to case, exactly when the whole text does. */
  lemma WindowContains(s: string, t: string, a: nat, needle: string, cs: set<char>)
    requires a + |t| <= |s| && t == s[a..a + |t|]
    requires forall i :: 0 <= i < a ==> s[i] in cs
    requires forall i :: a + |t| <= i < |s| ==> s[i] in cs
    requires forall c :: c in cs ==> c <= ' '
    requires |needle| >= 1 && Lower(needle)[0] > ' ' && Lower(needle)[|needle| - 1] > ' '
    ensures ContainsIgnoringCase(t, needle) <==> ContainsIgnoringCase(s, needle)
  {
    if ContainsIgnoringCase(s, needle) {
      WindowKeeps(s, t, a, needle, cs);
    }
    if ContainsIgnoringCase(t, needle) {
      ContainsInSlice(s, a, a + |t|, t, needle);
    }
  }

  /**
   * For such a needle, trim() does not change whether stristr finds it: trim only removes
   * characters the needle cannot start or end with, and keeps a slice of the text.
   */
  lemma TrimmedContains(s: string, needle: string, cs: set<char>)
    requires |needle| >= 1 && Lower(needle)[0] > ' ' && Lower(needle)[|needle| - 1] > ' '
    requires forall c :: c in cs ==> c <= ' '
    ensures ContainsIgnoringCase(Trim(s, cs), needle) <==> ContainsIgnoringCase(s, needle)
  {
    WindowContains(s, Trim(s, cs), Stripped(s, cs), needle, cs);
  }

  /** The digits of `s`, read as a decimal number, most significant first. */
  function Value(s: string): int
  {
    if s == [] then 0 else 10 * Value(s[..|s| - 1]) + (s[|s| - 1] as int - '0' as int)
  }

  /** The decimal text PHP prints for a natural number: digits only, and reading it back gives `n`. */
  function Digits(n: nat): (s: string)
    ensures |s| >= 1
    ensures forall i :: 0 <= i < |s| ==> '0' <= s[i] <= '9'
    ensures Value(s) == n
  {
    var d := [(48 + n % 10) as char];
    if n < 10 then
      assert d[..0] == [];
      d
    else
      var high := Digits(n / 10);
      assert (high + d)[..|high|] == high;
      high + d
  }

  /** The decimal text PHP prints for an integer: a minus sign before the digits of a negative one. */
  function Decimal(n: int): (r: string)
    ensures n >= 0 ==> r == Digits(n) && Value(r) == n
    ensures n < 0 ==> |r| >= 2 && r[0] == '-' && r[1..] == Digits(-n) && Value(r[1..]) == -n
  {
    if n < 0 then "-" + Digits(-n) else Digits(n)
  }

  /** Different integers print differently. */
  lemma DecimalInjective(m: int, n: int)
    requires Decimal(m) == Decimal(n)
    ensures m == n
  {
    assert Decimal(m)[0] == '-' <==> m < 0;
    assert Decimal(n)[0] == '-' <==> n < 0;
  }
}
