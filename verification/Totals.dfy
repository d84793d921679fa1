/** Sums over finite sets of the integers a map assigns to their elements. */
module Totals {
  ghost function Total<K>(s: set<K>, m: map<K, int>): int
    requires s <= m.Keys
  {
    if s == {} then 0 else
      var x :| x in s;
      m[x] + Total(s - {x}, m)
  }

  lemma TotalEmpty<K>(s: set<K>, m: map<K, int>)
    requires s <= m.Keys
    ensures s == {} ==> Total(s, m) == 0
  {
  }

  lemma Distributes(a: int, x: int, y: int)
    ensures a * (x + y) == a * x + a * y
  {
  }

  lemma {:induction false} TotalRemove<K>(s: set<K>, m: map<K, int>, x: K)
    requires s <= m.Keys && x in s
    ensures Total(s, m) == m[x] + Total(s - {x}, m)
  {
    var y :| y in s && Total(s, m) == m[y] + Total(s - {y}, m);
    if y != x {
      TotalRemove(s - {y}, m, x);
      TotalRemove(s - {x}, m, y);
      assert s - {y} - {x} == s - {x} - {y};
    }
  }

  lemma TotalInsert<K>(s: set<K>, m: map<K, int>, x: K)
    requires s <= m.Keys && x in m.Keys && x !in s
    ensures Total(s + {x}, m) == m[x] + Total(s, m)
  {
    TotalRemove(s + {x}, m, x);
    assert s + {x} - {x} == s;
  }

  lemma {:induction false} TotalUnion<K>(s: set<K>, t: set<K>, m: map<K, int>)
    requires s + t <= m.Keys && s !! t
    ensures Total(s + t, m) == Total(s, m) + Total(t, m)
  {
    if t == {} {
      assert s + t == s;
    } else {
      var x :| x in t;
      TotalUnion(s, t - {x}, m);
      TotalInsert(s + (t - {x}), m, x);
      TotalRemove(t, m, x);
      assert s + (t - {x}) + {x} == s + t;
    }
  }

  lemma {:induction false} TotalSame<K>(s: set<K>, m: map<K, int>, m': map<K, int>)
    requires s <= m.Keys && s <= m'.Keys && forall x :: x in s ==> m[x] == m'[x]
    ensures Total(s, m) == Total(s, m')
  {
    if x :| x in s {
      TotalRemove(s, m, x);
      TotalRemove(s, m', x);
      TotalSame(s - {x}, m, m');
    }
  }

  /** Scaled comparison, element by element and in total. */
  lemma {:induction false} TotalCompare<K>(s: set<K>, a: int, m: map<K, int>, b: int, m': map<K, int>)
    requires s <= m.Keys && s <= m'.Keys && forall x :: x in s ==> a * m[x] <= b * m'[x]
    ensures a * Total(s, m) <= b * Total(s, m')
  {
    hide Total;
    TotalEmpty(s, m);
    TotalEmpty(s, m');
    if x :| x in s {
      TotalRemove(s, m, x);
      TotalRemove(s, m', x);
      TotalCompare(s - {x}, a, m, b, m');
      Distributes(a, m[x], Total(s - {x}, m));
      Distributes(b, m'[x], Total(s - {x}, m'));
    }
  }

  /** Comparison with a constant for each element. */
  lemma {:induction false} TotalAtMost<K>(s: set<K>, a: int, m: map<K, int>, c: int)
    requires s <= m.Keys && forall x :: x in s ==> a * m[x] <= c
    ensures a * Total(s, m) <= c * |s|
  {
    hide Total;
    TotalEmpty(s, m);
    if x :| x in s {
      TotalRemove(s, m, x);
      TotalAtMost(s - {x}, a, m, c);
      Distributes(a, m[x], Total(s - {x}, m));
      Distributes(c, |s - {x}|, 1);
    }
  }

  lemma TotalAtLeast<K>(s: set<K>, a: int, m: map<K, int>, c: int)
    requires s <= m.Keys && forall x :: x in s ==> a * m[x] >= c
    ensures a * Total(s, m) >= c * |s|
  {
    forall x | x in s ensures -a * m[x] <= -c {
      assert -a * m[x] == -(a * m[x]);
    }
    TotalAtMost(s, -a, m, -c);
    assert -a * Total(s, m) == -(a * Total(s, m)) && -c * |s| == -(c * |s|);
  }

  lemma {:induction false} TotalPositive<K>(s: set<K>, m: map<K, int>)
    requires s <= m.Keys && forall x :: x in s ==> m[x] > 0
    ensures s != {} ==> Total(s, m) > 0
    ensures Total(s, m) >= 0
  {
    TotalAtLeast(s, 1, m, 1);
  }

  lemma TotalConstant<K>(s: set<K>, m: map<K, int>, c: int)
    requires s <= m.Keys && forall x :: x in s ==> m[x] == c
    ensures Total(s, m) == c * |s|
  {
    TotalAtMost(s, 1, m, c);
    TotalAtLeast(s, 1, m, c);
  }
}
