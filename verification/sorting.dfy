/** `Collections.sort(list)` and `Collections.sort(list, comparator)`: a stable
    sort by a comparator. A comparator is modelled as the relation
    `le(a, b)` = "compare(a, b) <= 0". The order the library produces is
    given here by a stable insertion sort, `SortBy`; `StableSortUnique` shows
    that every stable sort produces that same order, so the choice of
    algorithm does not show in the result. */
module Sorting {

  /** What a comparator must be for a sort to be well defined: total and transitive. */
  ghost predicate TotalPreorder<T(!new)>(le: (T, T) -> bool) {
    (forall a, b :: le(a, b) || le(b, a)) &&
    (forall a, b, c :: le(a, b) && le(b, c) ==> le(a, c))
  }

  /** Every earlier element compares at most equal to every later one. */
  ghost predicate SortedBy<T>(s: seq<T>, le: (T, T) -> bool) {
    forall i, j :: 0 <= i < j < |s| ==> le(s[i], s[j])
  }

  /** `[y]` when `y` compares equal to `x`, else `[]`. */
  function TieOf<T>(x: T, y: T, le: (T, T) -> bool): seq<T> {
    if le(x, y) && le(y, x) then [y] else []
  }

  /** The elements of `s` that compare equal to `x`, in their order in `s`.
      A sort is stable when it keeps every such subsequence. */
  function Ties<T>(s: seq<T>, x: T, le: (T, T) -> bool): seq<T> {
    if s == [] then [] else TieOf(x, s[0], le) + Ties(s[1..], x, le)
  }

  lemma TiesCons<T>(h: T, t: seq<T>, x: T, le: (T, T) -> bool)
    ensures Ties([h] + t, x, le) == TieOf(x, h, le) + Ties(t, x, le)
  {
    assert ([h] + t)[0] == h && ([h] + t)[1..] == t;
  }

  /** Inserts `x` before the first element it compares at most equal to. */
  function InsertBy<T>(x: T, s: seq<T>, le: (T, T) -> bool): (r: seq<T>)
    ensures |r| == |s| + 1
  {
    if s == [] || le(x, s[0]) then [x] + s else [s[0]] + InsertBy(x, s[1..], le)
  }

  /** The order a stable sort by `le` puts `s` in. */
  function SortBy<T>(s: seq<T>, le: (T, T) -> bool): (r: seq<T>)
    ensures |r| == |s|
  {
    if s == [] then [] else InsertBy(s[0], SortBy(s[1..], le), le)
  }

  // ---------------------------------------------------------------------------
  // Permutation
  // ---------------------------------------------------------------------------

  lemma {:induction false} InsertByPermutes<T>(x: T, s: seq<T>, le: (T, T) -> bool)
    ensures multiset(InsertBy(x, s, le)) == multiset(s) + multiset{x}
  {
    if s != [] && !le(x, s[0]) {
      InsertByPermutes(x, s[1..], le);
      assert s == [s[0]] + s[1..];
    }
  }

  /** `SortBy` only reorders: the result holds the same elements, as often. */
  lemma {:induction false} SortByPermutes<T>(s: seq<T>, le: (T, T) -> bool)
    ensures multiset(SortBy(s, le)) == multiset(s)
  {
    if s != [] {
      SortByPermutes(s[1..], le);
      InsertByPermutes(s[0], SortBy(s[1..], le), le);
      assert s == [s[0]] + s[1..];
    }
  }

  // ---------------------------------------------------------------------------
  // Sortedness
  // ---------------------------------------------------------------------------

  lemma {:induction false} InsertBySorted<T(!new)>(x: T, s: seq<T>, le: (T, T) -> bool)
    requires TotalPreorder(le) && SortedBy(s, le)
    ensures SortedBy(InsertBy(x, s, le), le)
  {
    if s == [] || le(x, s[0]) {
      var r := [x] + s;
      forall i, j | 0 <= i < j < |r| ensures le(r[i], r[j]) {
        if i == 0 && j > 1 {
          assert le(s[0], s[j - 1]);
        }
      }
    } else {
      var t := InsertBy(x, s[1..], le);
      InsertBySorted(x, s[1..], le);
      InsertByPermutes(x, s[1..], le);
      assert le(s[0], x);
      forall k | 0 <= k < |t| ensures le(s[0], t[k]) {
        assert t[k] in multiset(t);
        if t[k] != x {
          assert t[k] in multiset(s[1..]);
          var m :| 0 <= m < |s[1..]| && s[1..][m] == t[k];
          assert le(s[0], s[m + 1]);
        }
      }
      var r := [s[0]] + t;
      forall i, j | 0 <= i < j < |r| ensures le(r[i], r[j]) {
        if i > 0 {
          assert le(t[i - 1], t[j - 1]);
        } else {
          assert le(s[0], t[j - 1]);
        }
      }
    }
  }

  /** The result of `SortBy` is sorted. */
  lemma {:induction false} SortBySorted<T(!new)>(s: seq<T>, le: (T, T) -> bool)
    requires TotalPreorder(le)
    ensures SortedBy(SortBy(s, le), le)
  {
    if s != [] {
      SortBySorted(s[1..], le);
      InsertBySorted(s[0], SortBy(s[1..], le), le);
    }
  }

  /** Sorting a sorted sequence changes nothing; so sorting twice is sorting once. */
  lemma {:induction false} SortBySortedIsIdentity<T>(s: seq<T>, le: (T, T) -> bool)
    requires SortedBy(s, le)
    ensures SortBy(s, le) == s
  {
    if s != [] {
      SortBySortedIsIdentity(s[1..], le);
      if |s| > 1 {
        assert le(s[0], s[1]);
      }
      assert s == [s[0]] + s[1..];
    }
  }

  lemma SortByIdempotent<T(!new)>(s: seq<T>, le: (T, T) -> bool)
    requires TotalPreorder(le)
    ensures SortBy(SortBy(s, le), le) == SortBy(s, le)
  {
    SortBySorted(s, le);
    SortBySortedIsIdentity(SortBy(s, le), le);
  }

  // ---------------------------------------------------------------------------
  // Stability
  // ---------------------------------------------------------------------------

  lemma {:induction false} InsertByTies<T(!new)>(y: T, s: seq<T>, x: T, le: (T, T) -> bool)
    requires TotalPreorder(le)
    ensures Ties(InsertBy(y, s, le), x, le) == TieOf(x, y, le) + Ties(s, x, le)
  {
    if s == [] || le(y, s[0]) {
      TiesCons(y, s, x, le);
    } else {
      var t := InsertBy(y, s[1..], le);
      var a, b, rest := TieOf(x, s[0], le), TieOf(x, y, le), Ties(s[1..], x, le);
      InsertByTies(y, s[1..], x, le);
      TiesCons(s[0], t, x, le);
      assert Ties(InsertBy(y, s, le), x, le) == a + (b + rest);
      TiesCons(s[0], s[1..], x, le);
      assert s == [s[0]] + s[1..];
      assert Ties(s, x, le) == a + rest;
      NoTieOnBothSides(x, y, s[0], le);
      assert a + (b + rest) == b + (a + rest);
    }
  }

  /** When `y` sorts strictly after `z`, no element ties with both. */
  lemma NoTieOnBothSides<T(!new)>(x: T, y: T, z: T, le: (T, T) -> bool)
    requires TotalPreorder(le) && !le(y, z)
    ensures TieOf(x, y, le) == [] || TieOf(x, z, le) == []
  {
    if le(y, x) {
      assert !le(x, z);
    }
  }

  /** `SortBy` is stable: elements that compare equal keep their relative order. */
  lemma {:induction false} SortByStable<T(!new)>(s: seq<T>, x: T, le: (T, T) -> bool)
    requires TotalPreorder(le)
    ensures Ties(SortBy(s, le), x, le) == Ties(s, x, le)
  {
    if s != [] {
      SortByStable(s[1..], x, le);
      InsertByTies(s[0], SortBy(s[1..], le), x, le);
    }
  }

  lemma {:induction false} TiesMember<T>(s: seq<T>, x: T, le: (T, T) -> bool, k: nat)
    requires k < |Ties(s, x, le)|
    ensures exists i :: 0 <= i < |s| && s[i] == Ties(s, x, le)[k]
    ensures le(x, Ties(s, x, le)[k]) && le(Ties(s, x, le)[k], x)
  {
    var head := TieOf(x, s[0], le);
    if k >= |head| {
      TiesMember(s[1..], x, le, k - |head|);
      var i :| 0 <= i < |s[1..]| && s[1..][i] == Ties(s[1..], x, le)[k - |head|];
      assert s[i + 1] == Ties(s, x, le)[k];
    } else {
      assert s[0] == Ties(s, x, le)[k];
    }
  }

  /** Two sorted sequences that agree on every class of equal elements are the same. */
  lemma {:induction false} SortedTiesDetermine<T(!new)>(t1: seq<T>, t2: seq<T>, le: (T, T) -> bool)
    requires TotalPreorder(le) && SortedBy(t1, le) && SortedBy(t2, le)
    requires forall x :: Ties(t1, x, le) == Ties(t2, x, le)
    ensures t1 == t2
    decreases |t1|
  {
    assert t1 != [] ==> le(t1[0], t1[0]) && Ties(t1, t1[0], le) != [];
    assert t2 != [] ==> le(t2[0], t2[0]) && Ties(t2, t2[0], le) != [];
    if t1 != [] && t2 != [] {
      var a, b := t1[0], t2[0];
      assert le(a, b) by { FirstIsLeast(t1, t2, b, le); }
      assert le(b, a) by { FirstIsLeast(t2, t1, a, le); }
      assert Ties(t1, a, le) == [a] + Ties(t1[1..], a, le);
      assert Ties(t2, a, le) == [b] + Ties(t2[1..], a, le);
      assert a == b by { assert Ties(t1, a, le)[0] == Ties(t2, a, le)[0]; }
      forall x ensures Ties(t1[1..], x, le) == Ties(t2[1..], x, le) {
        assert Ties(t1, x, le) == Ties(t2, x, le);
        var head := TieOf(x, a, le);
        assert Ties(t1, x, le) == head + Ties(t1[1..], x, le);
        assert Ties(t2, x, le) == head + Ties(t2[1..], x, le);
        assert (head + Ties(t1[1..], x, le))[|head|..] == Ties(t1[1..], x, le);
        assert (head + Ties(t2[1..], x, le))[|head|..] == Ties(t2[1..], x, le);
      }
      SortedTiesDetermine(t1[1..], t2[1..], le);
      assert t1 == [a] + t1[1..] && t2 == [b] + t2[1..];
    }
  }

  /** The head of a sorted `t1` is at most every element `y` of `t2`, when the
      two sequences agree on the class of elements equal to `y`. */
  lemma FirstIsLeast<T(!new)>(t1: seq<T>, t2: seq<T>, y: T, le: (T, T) -> bool)
    requires TotalPreorder(le) && SortedBy(t1, le) && t1 != []
    requires y in t2 && Ties(t1, y, le) == Ties(t2, y, le)
    ensures le(t1[0], y)
  {
    var m :| 0 <= m < |t2| && t2[m] == y;
    assert le(y, y);
    assert Ties(t2, y, le) != [] by { TiesContains(t2, y, le, m); }
    TiesMember(t1, y, le, 0);
    var i :| 0 <= i < |t1| && t1[i] == Ties(t1, y, le)[0];
    assert le(t1[0], t1[i]) by { assert i == 0 || le(t1[0], t1[i]); }
  }

  lemma {:induction false} TiesContains<T>(s: seq<T>, x: T, le: (T, T) -> bool, m: nat)
    requires m < |s| && le(x, s[m]) && le(s[m], x)
    ensures Ties(s, x, le) != []
  {
    if m > 0 && TieOf(x, s[0], le) == [] {
      TiesContains(s[1..], x, le, m - 1);
    }
  }

  /** Every stable sort gives the same result: a sorted sequence that keeps the
      relative order of every class of equal elements of `s` is `SortBy(s, le)`. */
  lemma StableSortUnique<T(!new)>(s: seq<T>, t: seq<T>, le: (T, T) -> bool)
    requires TotalPreorder(le) && SortedBy(t, le)
    requires forall x :: Ties(t, x, le) == Ties(s, x, le)
    ensures t == SortBy(s, le)
  {
    SortBySorted(s, le);
    forall x ensures Ties(SortBy(s, le), x, le) == Ties(t, x, le) {
      SortByStable(s, x, le);
    }
    SortedTiesDetermine(SortBy(s, le), t, le);
  }
}
