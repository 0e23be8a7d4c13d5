/** LibraryUtility: a list of book titles that is appended to, searched,
    pruned and sorted in place. A Java `null` title is `None`. */
module Library {
  import opened Wrappers
  import opened JavaString
  import opened Sorting

  /** Why a request on the title list was refused: the two
      IllegalArgumentExceptions, and the "Title not found." message. */
  datatype LibraryError = InvalidTitle | NullTitle | TitleNotFound

  /** `List.indexOf`: the first index holding `x`, or -1 when there is none. */
  function IndexOf<T(==)>(s: seq<T>, x: T): (i: int)
    ensures -1 <= i < |s|
    ensures i >= 0 ==> s[i] == x && x !in s[..i]
    ensures i == -1 <==> x !in s
  {
    if s == [] then -1
    else if s[0] == x then 0
    else
      var j := IndexOf(s[1..], x);
      assert s == [s[0]] + s[1..];
      assert j >= 0 ==> s[..j + 1] == [s[0]] + s[1..][..j];
      if j == -1 then -1 else j + 1
  }

  /** The first-index property determines the index: whatever satisfies it is `IndexOf`. */
  lemma IndexOfUnique<T>(s: seq<T>, x: T, i: int)
    requires -1 <= i < |s|
    requires i >= 0 ==> s[i] == x && x !in s[..i]
    requires i == -1 ==> x !in s
    ensures i == IndexOf(s, x)
  {
  }

  /** `List.remove(Object)`: drops the first element equal to `x`, if any. */
  function RemoveFirst<T(==)>(s: seq<T>, x: T): seq<T> {
    if s == [] then []
    else if s[0] == x then s[1..]
    else [s[0]] + RemoveFirst(s[1..], x)
  }

  /** With `x` present, exactly the element at `IndexOf(s, x)` goes; the others
      keep their order. With `x` absent, nothing changes. */
  lemma {:induction false} RemoveFirstSplices<T>(s: seq<T>, x: T)
    ensures x !in s ==> RemoveFirst(s, x) == s
    ensures x in s ==> RemoveFirst(s, x) == s[..IndexOf(s, x)] + s[IndexOf(s, x) + 1..]
  {
    if s != [] && s[0] != x {
      RemoveFirstSplices(s[1..], x);
      assert s == [s[0]] + s[1..];
      if x in s {
        var j := IndexOf(s[1..], x);
        assert IndexOf(s, x) == j + 1;
        assert s[..j + 1] == [s[0]] + s[1..][..j];
        assert s[j + 2..] == s[1..][j + 1..];
      }
    }
  }

  /** Removing a present title shortens the list by one and takes away one copy of it. */
  lemma {:induction false} RemoveFirstCounts<T>(s: seq<T>, x: T)
    requires x in s
    ensures |RemoveFirst(s, x)| == |s| - 1
    ensures multiset(RemoveFirst(s, x)) == multiset(s) - multiset{x}
  {
    assert s == [s[0]] + s[1..];
    if s[0] != x {
      RemoveFirstCounts(s[1..], x);
    }
  }

  /** Titles are ordered by `String.compareTo`, which is a total order. */
  lemma TitleOrderIsTotal()
    ensures TotalPreorder(StrLe)
  {
    forall a, b ensures StrLe(a, b) || StrLe(b, a) {
      StrLeTotal(a, b);
    }
    forall a, b, c | StrLe(a, b) && StrLe(b, c) ensures StrLe(a, c) {
      StrLeTransitive(a, b, c);
    }
  }

  /** Two sorted title lists holding the same titles are equal, whatever sort produced them. */
  lemma {:induction false} SortedTitlesUnique(s: seq<string>, t: seq<string>)
    requires SortedBy(s, StrLe) && SortedBy(t, StrLe)
    requires multiset(s) == multiset(t)
    ensures s == t
  {
    assert |s| == |t| by { assert |multiset(s)| == |multiset(t)|; }
    if s != [] {
      SortedHeadsEqual(s, t);
      var rs, rt := s[1..], t[1..];
      assert s == [s[0]] + rs && t == [t[0]] + rt;
      assert multiset(rs) == multiset(s) - multiset{s[0]};
      assert multiset(rt) == multiset(t) - multiset{t[0]};
      SortedTitlesUnique(rs, rt);
    }
  }

  lemma SortedHeadsEqual(s: seq<string>, t: seq<string>)
    requires SortedBy(s, StrLe) && SortedBy(t, StrLe)
    requires multiset(s) == multiset(t) && s != [] && t != []
    ensures s[0] == t[0]
  {
    assert s[0] in multiset(t) && t[0] in multiset(s);
    var i :| 0 <= i < |t| && t[i] == s[0];
    var j :| 0 <= j < |s| && s[j] == t[0];
    StrLeTotal(s[0], t[0]);
    assert StrLe(t[0], s[0]) by { assert i == 0 || StrLe(t[0], t[i]); }
    assert StrLe(s[0], t[0]) by { assert j == 0 || StrLe(s[0], s[j]); }
    StrLeAntisymmetric(s[0], t[0]);
  }

  class LibraryUtility {
    var bookTitles: seq<string>

    /** A new utility holds no titles. */
    constructor ()
      ensures bookTitles == []
    {
      bookTitles := [];
    }

    /** Appends a title; a null or blank one is refused and changes nothing. */
    method AddBookTitle(title: Option<string>) returns (outcome: Outcome<LibraryError>)
      modifies this
      ensures outcome.Fail? <==> title.None? || IsBlank(title.value)
      ensures outcome.Fail? ==> outcome.error == InvalidTitle && bookTitles == old(bookTitles)
      ensures outcome.Pass? ==> bookTitles == old(bookTitles) + [title.value]
    {
      if title.None? || IsBlank(title.value) {
        return Fail(InvalidTitle);
      }
      bookTitles := bookTitles + [title.value];
      return Pass;
    }

    /** Removes the first occurrence of a title. A null title is refused; an
        absent one is reported; neither changes the list. */
    method RemoveBookTitle(title: Option<string>) returns (outcome: Outcome<LibraryError>)
      modifies this
      ensures title.None? ==> outcome == Fail(NullTitle)
      ensures title.Some? && title.value !in old(bookTitles) ==> outcome == Fail(TitleNotFound)
      ensures outcome.Fail? ==> bookTitles == old(bookTitles)
      ensures title.Some? && title.value in old(bookTitles) ==>
                outcome == Pass &&
                |bookTitles| == |old(bookTitles)| - 1 &&
                bookTitles == old(bookTitles)[..IndexOf(old(bookTitles), title.value)]
                              + old(bookTitles)[IndexOf(old(bookTitles), title.value) + 1..]
    {
      if title.None? {
        return Fail(NullTitle);
      }
      if title.value in bookTitles {
        RemoveFirstSplices(bookTitles, title.value);
        RemoveFirstCounts(bookTitles, title.value);
        bookTitles := RemoveFirst(bookTitles, title.value);
        return Pass;
      }
      return Fail(TitleNotFound);
    }

    /** The index of the first occurrence of a title, or -1; a null title is refused. */
    method SearchBookTitle(title: Option<string>) returns (r: Result<int, LibraryError>)
      ensures title.None? ==> r == Failure(NullTitle)
      ensures title.Some? ==> r.Success? && -1 <= r.value < |bookTitles|
      ensures title.Some? && r.Success? && r.value >= 0 ==>
                bookTitles[r.value] == title.value && title.value !in bookTitles[..r.value]
      ensures title.Some? && r.Success? && r.value == -1 ==> title.value !in bookTitles
    {
      if title.None? {
        return Failure(NullTitle);
      }
      var i := 0;
      while i < |bookTitles|
        invariant 0 <= i <= |bookTitles|
        invariant title.value !in bookTitles[..i]
      {
        if bookTitles[i] == title.value {
          return Success(i);
        }
        assert bookTitles[..i + 1] == bookTitles[..i] + [bookTitles[i]];
        i := i + 1;
      }
      assert bookTitles[..i] == bookTitles;
      return Success(-1);
    }

    /** Sorts the titles in natural string order, in place. */
    method SortBookTitles()
      modifies this
      ensures bookTitles == SortBy(old(bookTitles), StrLe)
      ensures SortedBy(bookTitles, StrLe)
      ensures multiset(bookTitles) == multiset(old(bookTitles))
      ensures SortedBy(old(bookTitles), StrLe) ==> bookTitles == old(bookTitles)
    {
      TitleOrderIsTotal();
      SortBySorted(bookTitles, StrLe);
      SortByPermutes(bookTitles, StrLe);
      if SortedBy(bookTitles, StrLe) {
        SortBySortedIsIdentity(bookTitles, StrLe);
      }
      bookTitles := SortBy(bookTitles, StrLe);
    }
  }
}
