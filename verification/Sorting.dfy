/**
 Sorting by a total order. What the rest of the project needs of the library's sort is only that its
 result is the one sorted arrangement of its argument, so the order of the argument is forgotten.
 */
module Sorting {
  ghost predicate Ranking<T(!new)>(le: (T, T) -> bool) {
    && (forall a, b :: le(a, b) || le(b, a))
    && (forall a, b, c :: le(a, b) && le(b, c) ==> le(a, c))
  }

  ghost predicate TotalOrder<T(!new)>(le: (T, T) -> bool) {
    Ranking(le) && forall a, b :: le(a, b) && le(b, a) ==> a == b
  }

  ghost predicate SortedBy<T(!new)>(s: seq<T>, le: (T, T) -> bool) {
    forall i, j :: 0 <= i < j < |s| ==> le(s[i], s[j])
  }

  function Insert<T>(x: T, s: seq<T>, le: (T, T) -> bool): seq<T> {
    if s == [] || le(x, s[0]) then [x] + s else [s[0]] + Insert(x, s[1..], le)
  }

  function Sort<T>(s: seq<T>, le: (T, T) -> bool): seq<T> {
    if s == [] then [] else Insert(s[0], Sort(s[1..], le), le)
  }

  lemma {:induction false} InsertPermutes<T>(x: T, s: seq<T>, le: (T, T) -> bool)
    ensures multiset(Insert(x, s, le)) == multiset(s) + multiset{x}
  {
    if s != [] {
      assert s == [s[0]] + s[1..];
      if !le(x, s[0]) { InsertPermutes(x, s[1..], le); }
    }
  }

  lemma {:induction false} SortPermutes<T>(s: seq<T>, le: (T, T) -> bool)
    ensures multiset(Sort(s, le)) == multiset(s)
  {
    if s != [] {
      assert s == [s[0]] + s[1..];
      SortPermutes(s[1..], le);
      InsertPermutes(s[0], Sort(s[1..], le), le);
    }
  }

  lemma {:induction false} InsertSorts<T(!new)>(x: T, s: seq<T>, le: (T, T) -> bool)
    requires Ranking(le) && SortedBy(s, le)
    ensures SortedBy(Insert(x, s, le), le)
  {
    if s != [] && !le(x, s[0]) {
      var tail := Insert(x, s[1..], le);
      InsertSorts(x, s[1..], le);
      InsertPermutes(x, s[1..], le);
      forall y | y in tail ensures le(s[0], y) {
        assert y in multiset(tail);
        assert y in multiset(s[1..]) + multiset{x};
      }
    }
  }

  lemma {:induction false} SortSorts<T(!new)>(s: seq<T>, le: (T, T) -> bool)
    requires Ranking(le)
    ensures SortedBy(Sort(s, le), le)
  {
    if s != [] {
      SortSorts(s[1..], le);
      InsertSorts(s[0], Sort(s[1..], le), le);
    }
  }

  lemma HeadsAgree<T(!new)>(s: seq<T>, t: seq<T>, le: (T, T) -> bool)
    requires TotalOrder(le) && SortedBy(s, le) && SortedBy(t, le) && multiset(s) == multiset(t)
    requires s != [] && t != []
    ensures s[0] == t[0]
  {
    assert s[0] in multiset(t) && t[0] in multiset(s);
    var i :| 0 <= i < |t| && t[i] == s[0];
    var j :| 0 <= j < |s| && s[j] == t[0];
  }

  lemma TailContents<T>(s: seq<T>)
    requires s != []
    ensures multiset(s[1..]) == multiset(s) - multiset{s[0]}
  {
    assert s == [s[0]] + s[1..];
  }

  lemma {:induction false} SortedUnique<T(!new)>(s: seq<T>, t: seq<T>, le: (T, T) -> bool)
    requires TotalOrder(le) && SortedBy(s, le) && SortedBy(t, le) && multiset(s) == multiset(t)
    ensures s == t
  {
    assert |s| == |multiset(s)| == |multiset(t)| == |t|;
    if s != [] {
      HeadsAgree(s, t, le);
      TailContents(s);
      TailContents(t);
      SortedUnique(s[1..], t[1..], le);
    }
  }

  /** Sorting forgets the order of its argument. */
  lemma SortForgetsOrder<T(!new)>(s: seq<T>, t: seq<T>, le: (T, T) -> bool)
    requires TotalOrder(le) && multiset(s) == multiset(t)
    ensures Sort(s, le) == Sort(t, le)
  {
    SortPermutes(s, le);
    SortPermutes(t, le);
    SortSorts(s, le);
    SortSorts(t, le);
    SortedUnique(Sort(s, le), Sort(t, le), le);
  }
}
