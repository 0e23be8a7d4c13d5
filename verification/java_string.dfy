/** The parts of java.lang.String that the three programs rely on:
    `trim`, `compareTo` (natural order) and the length of `String.valueOf(long)`.
    A Java string is a sequence of characters. */
module JavaString {

  // ---------------------------------------------------------------------------
  // String.trim()
  // ---------------------------------------------------------------------------

  /** `trim` strips every character whose code is at most U+0020 (space). */
  predicate IsTrimmed(c: char) {
    c <= ' '
  }

  /** Number of characters `trim` strips from the front. */
  function LeadingTrimmed(s: string): (k: nat)
    ensures k <= |s|
    ensures forall i :: 0 <= i < k ==> IsTrimmed(s[i])
    ensures k < |s| ==> !IsTrimmed(s[k])
  {
    if s != [] && IsTrimmed(s[0]) then 1 + LeadingTrimmed(s[1..]) else 0
  }

  /** Number of characters `trim` strips from the back. */
  function TrailingTrimmed(s: string): (k: nat)
    ensures k <= |s|
    ensures forall i :: |s| - k <= i < |s| ==> IsTrimmed(s[i])
    ensures k < |s| ==> !IsTrimmed(s[|s| - 1 - k])
  {
    if s != [] && IsTrimmed(s[|s| - 1]) then 1 + TrailingTrimmed(s[..|s| - 1]) else 0
  }

  /** `s.trim()`: the longest middle slice of `s` that neither starts nor ends
      with a character at or below U+0020. */
  function Trim(s: string): (r: string)
    ensures exists i, j :: 0 <= i <= j <= |s| && r == s[i..j]
                           && (forall k :: 0 <= k < i ==> IsTrimmed(s[k]))
                           && (forall k :: j <= k < |s| ==> IsTrimmed(s[k]))
    ensures r != [] ==> !IsTrimmed(r[0]) && !IsTrimmed(r[|r| - 1])
  {
    var i := LeadingTrimmed(s);
    var t := s[i..];
    var j := i + |t| - TrailingTrimmed(t);
    assert t[..|t| - TrailingTrimmed(t)] == s[i..j];
    s[i..j]
  }

  /** `s.trim().isEmpty()`: true exactly when every character is stripped. */
  predicate IsBlank(s: string) {
    Trim(s) == []
  }

  /** A string is blank exactly when it has no character above U+0020. */
  lemma BlankIff(s: string)
    ensures IsBlank(s) <==> forall k :: 0 <= k < |s| ==> IsTrimmed(s[k])
  {
    var r := Trim(s);
    var i, j :| 0 <= i <= j <= |s| && r == s[i..j]
                && (forall k :: 0 <= k < i ==> IsTrimmed(s[k]))
                && (forall k :: j <= k < |s| ==> IsTrimmed(s[k]));
    if r != [] {
      assert !IsTrimmed(s[i]) by { assert r[0] == s[i]; }
    } else {
      forall k | 0 <= k < |s| ensures IsTrimmed(s[k]) {
        assert k < i || j <= k;
      }
    }
  }

  // ---------------------------------------------------------------------------
  // String.compareTo: natural (lexicographic, case-sensitive) order
  // ---------------------------------------------------------------------------

  /** `a.compareTo(b) <= 0`: at the first position where the strings differ,
      `a` has the smaller character; when there is none, `a` is not longer. */
  predicate StrLe(a: string, b: string) {
    if a == [] then true
    else if b == [] then false
    else if a[0] != b[0] then a[0] < b[0]
    else StrLe(a[1..], b[1..])
  }

  lemma {:induction false} StrLeTotal(a: string, b: string)
    ensures StrLe(a, b) || StrLe(b, a)
  {
    if a != [] && b != [] && a[0] == b[0] {
      StrLeTotal(a[1..], b[1..]);
    }
  }

  lemma {:induction false} StrLeTransitive(a: string, b: string, c: string)
    requires StrLe(a, b) && StrLe(b, c)
    ensures StrLe(a, c)
  {
    if a != [] && b != [] && c != [] && a[0] == b[0] == c[0] {
      StrLeTransitive(a[1..], b[1..], c[1..]);
    }
  }

  /** Two strings that compare equal are equal: `compareTo` returns 0 only for
      equal contents. */
  lemma {:induction false} StrLeAntisymmetric(a: string, b: string)
    requires StrLe(a, b) && StrLe(b, a)
    ensures a == b
  {
    if a != [] && b != [] {
      StrLeAntisymmetric(a[1..], b[1..]);
      assert a == [a[0]] + a[1..] && b == [b[0]] + b[1..];
    }
  }

  // ---------------------------------------------------------------------------
  // String.valueOf(long).length()
  // ---------------------------------------------------------------------------

  function Pow10(k: nat): (p: nat)
    ensures p >= 1
  {
    if k == 0 then 1 else 10 * Pow10(k - 1)
  }

  /** Number of decimal digits of `n`, with no leading zeros (`0` has one). */
  function DigitCount(n: nat): (d: nat)
    ensures d >= 1
  {
    if n < 10 then 1 else 1 + DigitCount(n / 10)
  }

  /** Length of the decimal rendering of `n`; a minus sign counts as a character. */
  function DecimalLength(n: int): (len: nat)
    ensures len >= 1
  {
    if n < 0 then 1 + DigitCount(-n) else DigitCount(n)
  }

  /** `n` has exactly `d` digits precisely when it lies in [10^(d-1), 10^d)
      (for one digit the range starts at 0). */
  lemma {:induction false} DigitCountRange(n: nat, d: nat)
    requires d >= 1
    ensures DigitCount(n) == d <==> (d == 1 || Pow10(d - 1) <= n) && n < Pow10(d)
  {
    if d == 1 {
      if n >= 10 {
        assert DigitCount(n) == 1 + DigitCount(n / 10);
      }
    } else if n < 10 {
      assert Pow10(d - 1) >= 10 by { PowMonotone(1, d - 1); }
    } else {
      DigitCountRange(n / 10, d - 1);
      assert Pow10(d) == 10 * Pow10(d - 1);
      assert d - 1 == 1 || Pow10(d - 1) == 10 * Pow10(d - 2);
    }
  }

  lemma {:induction false} PowMonotone(i: nat, j: nat)
    requires i <= j
    ensures Pow10(i) <= Pow10(j)
  {
    if i < j {
      PowMonotone(i, j - 1);
    }
  }
}
