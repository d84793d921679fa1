/**
 Splitting the matching pool in whole cents. `Allocate` caps winners and splits again in a loop;
 `Waterfill` says in one go what the outcome is. Shares are kept exact: the share of a proposal
 before rounding is `remaining * qf / sum`, compared and rounded by its numerator.
 */
module Allocation {
  import opened Wrappers
  import opened Strings
  import opened Totals
  import Sorting

  type Id = string
  type Weights = map<Id, nat>

  function WeightOf(qf: Weights, id: Id): nat { if id in qf then qf[id] else 0 }

  ghost predicate NoRepeats<T>(s: seq<T>) { forall i, j :: 0 <= i < j < |s| ==> s[i] != s[j] }

  ghost function Elements(s: seq<Id>): set<Id> { set x | x in s }

  // ----- what the outcome is -----

  /** The proposals that take part: those with a positive weight. */
  ghost function Positive(ids: set<Id>, qf: Weights): set<Id> {
    set id | id in ids && WeightOf(qf, id) > 0
  }

  ghost function Weight(s: set<Id>, qf: Weights): int
    requires s <= qf.Keys
  {
    Total(s, qf)
  }

  /** The order in which the rounding remainder is handed out: highest weight first, then by identifier. */
  ghost predicate Ahead(qf: Weights, a: Id, b: Id) {
    WeightOf(qf, a) > WeightOf(qf, b) || (WeightOf(qf, a) == WeightOf(qf, b) && Before(a, b))
  }

  function FloorShare(remaining: int, weight: int, sum: int): int
    requires sum > 0
  {
    remaining * weight / sum
  }

  /**
   `capped` is the set of proposals whose weight exceeds the cap at the rate `remaining / sum` that
   the others are paid at. When none is left over, money remains after every one has had the cap.
   */
  ghost predicate AtRate(all: set<Id>, qf: Weights, pool: int, cap: Option<nat>, capped: set<Id>) {
    && all <= qf.Keys
    && capped <= all
    && (cap.None? ==> capped == {})
    && var limit := if cap.Some? then cap.value else 0;
       var remaining := pool - limit * |capped|;
       var sum := Weight(all - capped, qf);
       && remaining > 0
       && (all - capped != {} ==>
             && (forall id :: id in capped ==> remaining * qf[id] > limit * sum)
             && (cap.Some? ==> forall id :: id in all - capped ==> remaining * qf[id] <= limit * sum))
  }

  ghost predicate Queued(rest: set<Id>, qf: Weights, remaining: int, sum: int, cap: Option<nat>, cents: map<Id, int>) {
    && rest <= qf.Keys && rest <= cents.Keys && sum > 0
    && (forall id :: id in rest ==> FloorShare(remaining, qf[id], sum) <= cents[id])
    && (cap.Some? ==> forall id :: id in rest ==> cents[id] <= cap.value)
    && (forall a, b :: a in rest && b in rest && Ahead(qf, a, b) && cents[b] > FloorShare(remaining, qf[b], sum) ==>
          cap.Some? && cents[a] == cap.value)
  }

  /** The proposals below the cap share `remaining`: each has its floor, and the front of the queue the rest. */
  ghost predicate SharedOut(rest: set<Id>, qf: Weights, remaining: int, cap: Option<nat>, cents: map<Id, int>) {
    && rest <= qf.Keys && rest <= cents.Keys && Weight(rest, qf) > 0
    && var sum := Weight(rest, qf);
    && Total(rest, cents) == remaining
    && Queued(rest, qf, remaining, sum, cap, cents)
  }

  ghost predicate RestPositive(rest: set<Id>, qf: Weights) {
    && rest <= qf.Keys
    && Weight(rest, qf) > 0
  }

  ghost predicate Waterfill(ids: set<Id>, qf: Weights, pool: int, cap: Option<nat>, capped: set<Id>, cents: map<Id,
                            int>, unallocated: nat)
  {
    var all := Positive(ids, qf);
    && cents.Keys == ids
    && (forall id :: id in ids - all ==> cents[id] == 0)
    && if pool <= 0 then
         capped == {} && unallocated == 0 && forall id :: id in ids ==> cents[id] == 0
       else
         && AtRate(all, qf, pool, cap, capped)
         && (forall id :: id in capped ==> cap.Some? && cents[id] == cap.value)
         && var remaining := pool - (if cap.Some? then cap.value else 0) * |capped|;
            if all == capped then unallocated == remaining
            else && unallocated == 0 && RestPositive(all - capped, qf)
                 && SharedOut(all - capped, qf, remaining, cap, cents)
  }

  /** The cents and what is unallocated are those of the water-filling, whoever is capped in it. */
  ghost predicate IsAllocation(ids: set<Id>, qf: Weights, pool: int, cap: Option<nat>, cents: map<Id, int>,
                               unallocated: nat)
  {
    exists capped :: Waterfill(ids, qf, pool, cap, capped, cents, unallocated)
  }

  // ----- the outcome is unique -----

  lemma Cross(r: int, s: int, n: int, limit: int, q: int)
    requires r * q <= limit * s * n
    ensures (r - limit * n) * q <= limit * (s - q) * n
  {
    assert (r - limit * n) * q == r * q - limit * n * q;
    assert limit * (s - q) * n == limit * s * n - limit * n * q;
  }

  lemma CancelFactor(r: int, l: int, s: int)
    ensures s > 0 && r * s <= l * s ==> r <= l
  {
  }

  lemma SplitWeight(all: set<Id>, more: set<Id>, less: set<Id>, qf: Weights)
    requires all <= qf.Keys && less <= more <= all
    ensures Weight(all - less, qf) == Weight(all - more, qf) + Weight(more - less, qf)
    ensures |more| == |less| + |more - less|
  {
    assert all - less == (all - more) + (more - less);
    TotalUnion(all - more, more - less, qf);
    assert more == less + (more - less);
  }

  lemma AllCappedTooSoon(rest: set<Id>, qf: Weights, r: int, s: int, cap: nat)
    requires rest <= qf.Keys && rest != {} && s == Weight(rest, qf)
    requires forall id :: id in rest ==> qf[id] > 0 && r * qf[id] <= cap * s
    ensures r <= cap * |rest|
  {
    hide Total;
    TotalAtMost(rest, r, qf, cap * s);
    TotalPositive(rest, qf);
    assert cap * s * |rest| == cap * |rest| * s;
    CancelFactor(r, cap * |rest|, s);
  }

  lemma ExtraCappedTooSoon(extra: set<Id>, qf: Weights, r: int, s: int, cap: nat)
    requires extra <= qf.Keys && extra != {}
    requires forall id :: id in extra ==> r * qf[id] <= cap * s
    ensures exists id :: id in extra && (r - cap * |extra|) * qf[id] <= cap * (s - Weight(extra, qf))
  {
    hide Total;
    var n, q := |extra|, Weight(extra, qf);
    TotalAtMost(extra, r, qf, cap * s);
    Cross(r, s, n, cap, q);
    if forall id :: id in extra ==> (r - cap * n) * qf[id] > cap * (s - q) {
      TotalAtLeast(extra, r - cap * n, qf, cap * (s - q) + 1);
      Distributes(n, cap * (s - q), 1);
      assert false;
    }
  }

  /** No larger set can be capped at its own rate. */
  lemma NotMoreCapped(all: set<Id>, qf: Weights, pool: int, cap: nat, less: set<Id>, more: set<Id>)
    requires all <= qf.Keys && forall id :: id in all ==> qf[id] > 0
    requires AtRate(all, qf, pool, Some(cap), less) && AtRate(all, qf, pool, Some(cap), more) && less <= more
    ensures less == more
  {
    hide Total;
    var extra := more - less;
    if extra != {} {
      SplitWeight(all, more, less, qf);
      assert all - less != {};
      var r, s := pool - cap * |less|, Weight(all - less, qf);
      Distributes(cap, |less|, |extra|);
      if all - more == {} {
        assert extra == all - less;
        AllCappedTooSoon(extra, qf, r, s, cap);
      } else {
        ExtraCappedTooSoon(extra, qf, r, s, cap);
      }
    }
  }

  lemma WeightsCompare(r: int, p: int, q: int, l: int)
    ensures r > 0 && r * p > l && r * q <= l ==> p > q
  {
  }

  lemma CappedAreHeavier(all: set<Id>, qf: Weights, pool: int, cap: nat, c: set<Id>, a: Id, b: Id)
    requires all <= qf.Keys && AtRate(all, qf, pool, Some(cap), c)
    requires a in c && b in all - c
    ensures qf[a] > qf[b]
  {
    hide Total;
    WeightsCompare(pool - cap * |c|, qf[a], qf[b], cap * Weight(all - c, qf));
  }

  /** At most one set of proposals is capped at its own rate. */
  lemma CappedSetUnique(all: set<Id>, qf: Weights, pool: int, cap: Option<nat>, c: set<Id>, c': set<Id>)
    requires all <= qf.Keys && forall id :: id in all ==> qf[id] > 0
    requires AtRate(all, qf, pool, cap, c) && AtRate(all, qf, pool, cap, c')
    ensures c == c'
  {
    if cap.Some? {
      assert c <= all && c' <= all;
      hide AtRate;
      if c <= c' {
        NotMoreCapped(all, qf, pool, cap.value, c, c');
      } else if c' <= c {
        NotMoreCapped(all, qf, pool, cap.value, c', c);
      } else {
        var a :| a in c && a !in c';
        var b :| b in c' && b !in c;
        CappedAreHeavier(all, qf, pool, cap.value, c, a, b);
        CappedAreHeavier(all, qf, pool, cap.value, c', b, a);
      }
    }
  }

  lemma AheadOrder(qf: Weights, a: Id, b: Id, c: Id)
    ensures !Ahead(qf, a, a)
    ensures Ahead(qf, a, b) && Ahead(qf, b, c) ==> Ahead(qf, a, c)
    ensures a == b || Ahead(qf, a, b) || Ahead(qf, b, a)
  {
    BeforeIrreflexive(a);
    BeforeTotal(a, b);
    if Before(a, b) && Before(b, c) { BeforeTransitive(a, b, c); }
  }

  lemma {:induction false} Frontmost(s: set<Id>, qf: Weights) returns (a: Id)
    requires s != {}
    ensures a in s && forall b :: b in s && b != a ==> Ahead(qf, a, b)
  {
    var x :| x in s;
    if s == {x} {
      a := x;
    } else {
      var y := Frontmost(s - {x}, qf);
      AheadOrder(qf, x, y, y);
      a := if Ahead(qf, x, y) then x else y;
      forall b | b in s && b != a ensures Ahead(qf, a, b) {
        AheadOrder(qf, x, y, b);
      }
    }
  }

  /** The front of the queue takes the remainder, so the sharing that gives less there gives less in total. */
  lemma LessAtTheFront(rest: set<Id>, qf: Weights, remaining: int, sum: int, cap: Option<nat>, x: map<Id, int>,
                       y: map<Id, int>, a: Id)
    requires rest <= qf.Keys && rest <= x.Keys && rest <= y.Keys && sum > 0
    requires Queued(rest, qf, remaining, sum, cap, x) && Queued(rest, qf, remaining, sum, cap, y)
    requires a in rest && x[a] < y[a]
    requires forall b :: b in rest && x[b] != y[b] && b != a ==> Ahead(qf, a, b)
    ensures Total(rest, x) < Total(rest, y)
  {
    hide Total, FloorShare, Ahead;
    forall b | b in rest - {a} ensures 1 * x[b] <= 1 * y[b] {
      if x[b] > y[b] { assert Ahead(qf, a, b); }
    }
    TotalCompare(rest - {a}, 1, x, 1, y);
    TotalRemove(rest, x, a);
    TotalRemove(rest, y, a);
  }

  lemma SharingUnique(rest: set<Id>, qf: Weights, remaining: int, cap: Option<nat>, x: map<Id, int>, y: map<Id, int>)
    requires rest <= qf.Keys && rest <= x.Keys && rest <= y.Keys && Weight(rest, qf) > 0
    requires SharedOut(rest, qf, remaining, cap, x) && SharedOut(rest, qf, remaining, cap, y)
    ensures forall id :: id in rest ==> x[id] == y[id]
  {
    hide Total, Queued, Ahead;
    var differ := set id | id in rest && x[id] != y[id];
    if differ != {} {
      var a := Frontmost(differ, qf);
      if x[a] < y[a] { LessAtTheFront(rest, qf, remaining, Weight(rest, qf), cap, x, y, a); }
      else { LessAtTheFront(rest, qf, remaining, Weight(rest, qf), cap, y, x, a); }
    } else {
      forall id | id in rest ensures x[id] == y[id] {
        assert id !in differ;
      }
    }
  }

  /** The pool, the cap and the weights determine the outcome; neither the identifiers' order nor the passes matter. */
  lemma WaterfillUnique(ids: set<Id>, qf: Weights, pool: int, cap: Option<nat>,
                        c: set<Id>, x: map<Id, int>, u: nat, c': set<Id>, x': map<Id, int>, u': nat)
    requires Waterfill(ids, qf, pool, cap, c, x, u) && Waterfill(ids, qf, pool, cap, c', x', u')
    ensures c == c' && x == x' && u == u'
  {
    if pool > 0 {
      var all := Positive(ids, qf);
      CappedSetUnique(all, qf, pool, cap, c, c');
      if all != c {
        SharingUnique(all - c, qf, pool - (if cap.Some? then cap.value else 0) * |c|, cap, x, x');
      }
      forall id | id in ids ensures x[id] == x'[id] {
        if id in all && id !in c { assert id in all - c; }
      }
    }
  }

  // ----- what the outcome promises -----

  lemma FloorNonNegative(r: int, w: int, s: int)
    requires r >= 0 && w >= 0 && s > 0
    ensures FloorShare(r, w, s) >= 0
  {
    assert r * w >= 0;
  }

  lemma FactorOrder(s: int, p: int, q: int)
    ensures s > 0 && s * p < s * q ==> p < q
  {
  }

  lemma DivisionMonotone(a: int, b: int, s: int)
    requires a <= b && s > 0
    ensures a / s <= b / s
  {
    assert s * (a / s) <= a && b < s * (b / s + 1);
    FactorOrder(s, a / s, b / s + 1);
  }

  lemma FloorMonotone(r: int, v: int, w: int, s: int)
    requires r >= 0 && v <= w && s > 0
    ensures FloorShare(r, v, s) <= FloorShare(r, w, s)
  {
    assert r * v <= r * w;
    DivisionMonotone(r * v, r * w, s);
  }

  /** Every share lies between zero and the cap. */
  lemma SharesWithinBounds(ids: set<Id>, qf: Weights, pool: int, cap: Option<nat>, capped: set<Id>, cents: map<Id,
                           int>, unallocated: nat, id: Id)
    requires Waterfill(ids, qf, pool, cap, capped, cents, unallocated) && id in ids
    ensures 0 <= cents[id] && (cap.Some? ==> cents[id] <= cap.value)
    ensures WeightOf(qf, id) == 0 ==> cents[id] == 0
  {
    var all := Positive(ids, qf);
    if pool > 0 && id in all && id !in capped {
      assert id in all - capped;
      FloorNonNegative(pool - (if cap.Some? then cap.value else 0) * |capped|, qf[id], Weight(all - capped, qf));
    }
  }

  lemma TwoParts(s: set<Id>, t: set<Id>)
    requires t <= s
    ensures s == t + (s - t) && s == (s - t) + t
    ensures |s| == |t| + |s - t|
  {
  }

  /** A part with a constant value, set aside. */
  lemma ConstantPart(s: set<Id>, rest: set<Id>, part: set<Id>, cents: map<Id, int>, c: int)
    requires rest <= s <= cents.Keys && part == s - rest
    requires forall id :: id in part ==> cents[id] == c
    ensures Total(s, cents) == c * |part| + Total(rest, cents)
  {
    hide Total;
    TwoParts(s, rest);
    TotalUnion(rest, part, cents);
    TotalConstant(part, cents, c);
  }

  lemma PiecesAddUp(ids: set<Id>, all: set<Id>, capped: set<Id>, cents: map<Id, int>, limit: int)
    requires capped <= all <= ids == cents.Keys
    requires forall id :: id in ids - all ==> cents[id] == 0
    requires forall id :: id in capped ==> cents[id] == limit
    ensures Total(ids, cents) == limit * |capped| + Total(all - capped, cents)
  {
    hide Total;
    ConstantPart(ids, all, ids - all, cents, 0);
    ConstantPart(all, all - capped, capped, cents, limit);
  }

  /** Every cent of the pool is given to a proposal or reported as unallocated. */
  lemma CentsConserved(ids: set<Id>, qf: Weights, pool: int, cap: Option<nat>, capped: set<Id>, cents: map<Id, int>,
                       unallocated: nat)
    requires Waterfill(ids, qf, pool, cap, capped, cents, unallocated)
    ensures Total(ids, cents) + unallocated == if pool > 0 then pool else 0
  {
    hide Total;
    if pool <= 0 {
      TotalConstant(ids, cents, 0);
    } else {
      var all := Positive(ids, qf);
      var limit := if cap.Some? then cap.value else 0;
      assert capped <= all && (forall id :: id in capped ==> cents[id] == limit);
      PiecesAddUp(ids, all, capped, cents, limit);
      TotalEmpty(all - capped, cents);
    }
  }

  lemma CappedWithin(all: set<Id>, qf: Weights, pool: int, cap: Option<nat>, capped: set<Id>)
    requires AtRate(all, qf, pool, cap, capped)
    ensures capped <= all && (cap.None? ==> capped == {})
  {
  }

  lemma Commutes(a: int, b: int)
    ensures a * b == b * a
  {
  }

  /** While somebody is below the cap, the caps of all hold the whole pool. */
  lemma CapsAbsorb(all: set<Id>, qf: Weights, pool: int, limit: nat, capped: set<Id>)
    requires AtRate(all, qf, pool, Some(limit), capped) && capped <= all && all != capped && all <= qf.Keys
    requires forall id :: id in all ==> qf[id] > 0
    ensures pool <= limit * |all|
  {
    hide Total;
    var rest := all - capped;
    TwoParts(all, capped);
    assert capped + {} == capped;
    AllCappedTooSoon(rest, qf, pool - limit * |capped|, Weight(rest, qf), limit);
    Distributes(limit, |capped|, |rest|);
  }

  /** What stays unallocated: the pool when nobody takes part, otherwise what the caps cannot absorb. */
  lemma UnallocatedExactly(ids: set<Id>, qf: Weights, pool: int, cap: Option<nat>, capped: set<Id>, cents: map<Id,
                           int>, unallocated: nat)
    requires Waterfill(ids, qf, pool, cap, capped, cents, unallocated) && pool >= 0
    ensures var k := |Positive(ids, qf)|;
            unallocated == if k == 0 then pool
                           else if cap.None? then 0
                           else if pool > k * cap.value then pool - k * cap.value else 0
  {
    hide Total, Queued, SharedOut, RestPositive, AtRate;
    var all := Positive(ids, qf);
    if pool > 0 {
      CappedWithin(all, qf, pool, cap, capped);
      if cap.Some? {
        Commutes(cap.value, |all|);
        if all != capped { CapsAbsorb(all, qf, pool, cap.value, capped); }
      }
    }
  }

  /** A larger weight never gets fewer cents. */
  lemma LargerWeightGetsNoLess(ids: set<Id>, qf: Weights, pool: int, cap: Option<nat>, capped: set<Id>, cents: map<Id,
                               int>, unallocated: nat, a: Id, b: Id)
    requires Waterfill(ids, qf, pool, cap, capped, cents, unallocated)
    requires a in ids && b in ids && WeightOf(qf, a) > WeightOf(qf, b)
    ensures cents[a] >= cents[b]
  {
    SharesWithinBounds(ids, qf, pool, cap, capped, cents, unallocated, a);
    SharesWithinBounds(ids, qf, pool, cap, capped, cents, unallocated, b);
    var all := Positive(ids, qf);
    if pool > 0 && b in all && a !in capped {
      var limit := if cap.Some? then cap.value else 0;
      var r, s := pool - limit * |capped|, Weight(all - capped, qf);
      assert a in all - capped;
      if b in capped {
        WeightsCompare(r, qf[b], qf[a], limit * s);
      } else {
        assert b in all - capped;
        FloorMonotone(r, qf[b], qf[a], s);
      }
    }
  }

  lemma MulMonotone(a: int, b: int, k: int)
    ensures a <= b && k >= 0 ==> a * k <= b * k
  {
  }

  lemma MulStrict(a: int, b: int, k: int)
    ensures a < b && k > 0 ==> a * k < b * k
  {
  }

  /** Of equal weights the identifier that comes first gets no less. */
  lemma EqualWeightsGoById(ids: set<Id>, qf: Weights, pool: int, cap: Option<nat>, capped: set<Id>,
                           cents: map<Id, int>, unallocated: nat, a: Id, b: Id)
    requires Waterfill(ids, qf, pool, cap, capped, cents, unallocated)
    requires a in ids && b in ids && WeightOf(qf, a) == WeightOf(qf, b) && Before(a, b)
    ensures cents[a] >= cents[b]
  {
    hide Total, FloorShare, Before;
    if pool > 0 && a in Positive(ids, qf) {
      var rest := Positive(ids, qf) - capped;
      assert a in rest <==> b in rest;
      if b in rest {
        var r, sum := pool - (if cap.Some? then cap.value else 0) * |capped|, Weight(rest, qf);
        assert Ahead(qf, a, b) && FloorShare(r, qf[a], sum) == FloorShare(r, qf[b], sum);
      }
    }
  }

  lemma FloorShort(r: int, w: int, s: int)
    requires s > 0
    ensures r * w < (FloorShare(r, w, s) + 1) * s
  {
  }

  lemma {:induction false} TotalOneMore(s: set<Id>, m: map<Id, int>, m': map<Id, int>)
    requires s <= m.Keys && s <= m'.Keys && forall x :: x in s ==> m'[x] == m[x] + 1
    ensures Total(s, m') == Total(s, m) + |s|
  {
    hide Total;
    if x :| x in s {
      TotalRemove(s, m, x);
      TotalRemove(s, m', x);
      TotalOneMore(s - {x}, m, m');
    } else {
      TotalEmpty(s, m);
      TotalEmpty(s, m');
    }
  }

  lemma SpreadShort(r: int, sum: int, w: int, c: int, n: int, weights: int, given: int)
    requires r * weights <= sum * given && weights == sum - w && given == r - c + n
    ensures c * sum <= r * w + n * sum
  {
    assert r * (sum - w) == r * sum - r * w;
    assert sum * (r - c + n) == r * sum - c * sum + n * sum;
  }

  /** If nobody is a cent short, nobody is ahead by more than the others can be short together. */
  lemma NobodyFarAhead(rest: set<Id>, qf: Weights, r: int, sum: int, cents: map<Id, int>, id: Id)
    requires rest <= qf.Keys && rest <= cents.Keys && id in rest && Total(rest, cents) == r && Total(rest, qf) == sum
    requires forall x :: x in rest ==> r * qf[x] <= sum * (cents[x] + 1)
    ensures cents[id] * sum <= r * qf[id] + (|rest| - 1) * sum
  {
    hide Total;
    var others := rest - {id};
    var more := map x | x in others :: cents[x] + 1;
    TotalRemove(rest, cents, id);
    TotalRemove(rest, qf, id);
    TotalOneMore(others, cents, more);
    TotalCompare(others, r, qf, sum, more);
    assert |others| == |rest| - 1;
    SpreadShort(r, sum, qf[id], cents[id], |others|, Total(others, qf), Total(others, more));
  }

  /** Whoever is capped has the cap and would get more at the final rate; nobody else would. */
  lemma CappedExactly(all: set<Id>, qf: Weights, pool: int, cap: Option<nat>, capped: set<Id>)
    requires AtRate(all, qf, pool, cap, capped) && forall id :: id in all ==> qf[id] > 0
    ensures var rest, limit := all - capped, if cap.Some? then cap.value else 0;
            var remaining, sum := pool - limit * |capped|, Total(rest, qf);
            && (forall id :: id in capped ==> remaining * qf[id] > limit * sum)
            && (cap.Some? ==> forall id :: id in rest ==> remaining * qf[id] <= limit * sum)
  {
    hide Total;
    var rest, limit := all - capped, if cap.Some? then cap.value else 0;
    TotalEmpty(rest, qf);
    if rest == {} {
      forall id | id in capped ensures (pool - limit * |capped|) * qf[id] > limit * Total(rest, qf) {
        MulStrict(0, pool - limit * |capped|, qf[id]);
      }
    }
  }

  lemma NotShort(rest: set<Id>, qf: Weights, remaining: int, sum: int, cap: Option<nat>, cents: map<Id, int>, id: Id)
    requires Queued(rest, qf, remaining, sum, cap, cents) && id in rest
    ensures remaining * qf[id] < (cents[id] + 1) * sum
  {
    hide FloorShare, Ahead;
    FloorShort(remaining, qf[id], sum);
    MulMonotone(FloorShare(remaining, qf[id], sum) + 1, cents[id] + 1, sum);
  }

  lemma SharedExactly(rest: set<Id>, qf: Weights, remaining: int, cap: Option<nat>, cents: map<Id, int>, id: Id)
    requires SharedOut(rest, qf, remaining, cap, cents) && id in rest
    ensures remaining * qf[id] < (cents[id] + 1) * Total(rest, qf)
    ensures cents[id] * Total(rest, qf) <= remaining * qf[id] + (|rest| - 1) * Total(rest, qf)
  {
    hide Total, Queued;
    var sum := Total(rest, qf);
    forall x | x in rest ensures remaining * qf[x] < (cents[x] + 1) * sum {
      NotShort(rest, qf, remaining, sum, cap, cents, x);
    }
    forall x | x in rest ensures remaining * qf[x] <= sum * (cents[x] + 1) { Commutes(sum, cents[x] + 1); }
    NobodyFarAhead(rest, qf, remaining, sum, cents, id);
  }

  /**
   The shares, from the weights alone. Whoever is capped has the cap, and would get more at the final rate; nobody else
   would. Everybody else has the exact share `remaining * qf / sum` to less than a cent below, and above it at
   most the fractions of cents that the others lack.
   */
  lemma ExactShares(ids: set<Id>, qf: Weights, pool: int, cap: Option<nat>, capped: set<Id>, cents: map<Id, int>,
                    unallocated: nat)
    returns (rest: set<Id>, limit: nat, remaining: int, sum: int)
    requires Waterfill(ids, qf, pool, cap, capped, cents, unallocated) && pool > 0 && ids <= qf.Keys
    ensures capped <= ids && forall id :: id in capped ==> qf[id] > 0
    ensures rest == (set id | id in ids && qf[id] > 0) - capped && limit == (if cap.Some? then cap.value else 0)
    ensures remaining == pool - limit * |capped| && sum == Total(rest, qf) && rest <= cents.Keys
    ensures forall id :: id in capped ==> cap.Some? && cents[id] == limit && remaining * qf[id] > limit * sum
    ensures cap.Some? ==> forall id :: id in rest ==> remaining * qf[id] <= limit * sum
    ensures forall id :: id in rest ==> remaining * qf[id] < (cents[id] + 1) * sum
    ensures forall id :: id in rest ==> cents[id] * sum <= remaining * qf[id] + (|rest| - 1) * sum
  {
    hide Total, SharedOut, AtRate;
    var all := set id | id in ids && qf[id] > 0;
    assert all == Positive(ids, qf);
    CappedWithin(all, qf, pool, cap, capped);
    CappedExactly(all, qf, pool, cap, capped);
    rest, limit := all - capped, if cap.Some? then cap.value else 0;
    remaining, sum := pool - limit * |capped|, Total(rest, qf);
    forall id | id in rest
      ensures remaining * qf[id] < (cents[id] + 1) * sum
      ensures cents[id] * sum <= remaining * qf[id] + (|rest| - 1) * sum
    {
      SharedExactly(rest, qf, remaining, cap, cents, id);
    }
  }

  // ----- the loop -----

  /** What the loop keeps: the proposals that are still active, and a rate at which every capped one exceeds the cap. */
  ghost predicate LoopState(all: set<Id>, qf: Weights, pool: int, cap: Option<nat>, capped: set<Id>, active: seq<Id>,
                            remaining: int)
  {
    && all <= qf.Keys
    && capped <= all && NoRepeats(active) && Elements(active) == all - capped
    && (cap.None? ==> capped == {})
    && var limit := if cap.Some? then cap.value else 0;
       && remaining == pool - limit * |capped|
       && (pool > 0 ==> remaining > 0)
       && (pool <= 0 ==> capped == {})
       && forall id :: id in capped ==> remaining * qf[id] > limit * Weight(all - capped, qf)
  }

  /** The cents already fixed: the cap for capped proposals, nothing yet for the others. */
  ghost predicate Fixed(ids: set<Id>, cap: Option<nat>, capped: set<Id>, out: map<Id, int>) {
    out.Keys == ids && forall id :: id in ids ==> out[id] == if id in capped && cap.Some? then cap.value else 0
  }

  lemma Regrouped(a: int, b: int, c: int)
    ensures a * (b * c) == (b * a) * c
  {
  }

  lemma PositiveFactor(r: int, s: int)
    ensures s > 0 && r * s > 0 ==> r > 0
  {
  }

  lemma RateAfter(r: int, s: int, q: int, spent: int)
    requires r > 0 && s > 0 && q <= s && r * q > spent * s
    ensures r - spent > 0 && (r - spent) * s > r * (s - q)
  {
    assert (r - spent) * s == r * s - spent * s;
    assert r * (s - q) == r * s - r * q;
    assert r * (s - q) >= 0;
    PositiveFactor(r - spent, s);
  }

  /**
   Capping everyone above the cap leaves money over, and the rate paid to the rest never falls:
   `remaining' / sum' > remaining / sum`.
   */
  lemma RateNeverFalls(over: set<Id>, qf: Weights, remaining: int, sum: int, limit: nat)
    requires over <= qf.Keys && over != {} && remaining > 0 && sum > 0 && Weight(over, qf) <= sum
    requires forall id :: id in over ==> remaining * qf[id] > limit * sum
    ensures var remaining', sum' := remaining - limit * |over|, sum - Weight(over, qf);
            remaining' > 0 && remaining' * sum > remaining * sum'
  {
    hide Total;
    var n, q := |over|, Weight(over, qf);
    TotalAtLeast(over, remaining, qf, limit * sum + 1);
    Distributes(n, limit * sum, 1);
    assert remaining * q > n * (limit * sum);
    Regrouped(n, limit, sum);
    RateAfter(remaining, sum, q, limit * n);
  }

  /** Whoever exceeds the cap at some rate exceeds it at every higher one. */
  lemma StillOver(r: int, s: int, r': int, s': int, limit: nat, q: int)
    requires r > 0 && s > 0 && s' >= 0 && r' > 0 && q > 0
    requires r' * s > r * s' && r * q > limit * s
    ensures r' * q > limit * s'
  {
    if s' == 0 {
      assert r' * q > 0;
    } else {
      assert r' * s * q >= r * s' * q by { MulMonotone(r * s', r' * s, q); }
      assert r * q * s' > limit * s * s' by { MulStrict(limit * s, r * q, s'); }
      assert r' * s * q == (r' * q) * s && limit * s * s' == (limit * s') * s && r * s' * q == r * q * s';
      FactorOrder(s, limit * s', r' * q);
    }
  }

  function OverCap(active: seq<Id>, qf: Weights, remaining: int, sum: int, cap: nat): (over: seq<Id>)
    ensures forall id :: id in over <==> id in active && remaining * WeightOf(qf, id) > cap * sum
    ensures NoRepeats(active) ==> NoRepeats(over)
  {
    if active == [] then []
    else
      var rest := OverCap(active[1..], qf, remaining, sum, cap);
      if remaining * WeightOf(qf, active[0]) > cap * sum then [active[0]] + rest else rest
  }

  function Without(active: seq<Id>, over: seq<Id>): (left: seq<Id>)
    ensures forall id :: id in left <==> id in active && id !in over
    ensures NoRepeats(active) ==> NoRepeats(left)
    ensures |left| <= |active|
    ensures (exists id :: id in active && id in over) ==> |left| < |active|
  {
    if active == [] then []
    else if active[0] in over then Without(active[1..], over)
    else [active[0]] + Without(active[1..], over)
  }

  function PositiveIds(ids: seq<Id>, qf: Weights): (active: seq<Id>)
    ensures forall id :: id in active <==> id in ids && WeightOf(qf, id) > 0
    ensures NoRepeats(ids) ==> NoRepeats(active)
  {
    if ids == [] then []
    else if WeightOf(qf, ids[0]) > 0 then [ids[0]] + PositiveIds(ids[1..], qf)
    else PositiveIds(ids[1..], qf)
  }

  lemma {:induction false} ElementsSize(s: seq<Id>)
    requires NoRepeats(s)
    ensures |Elements(s)| == |s|
  {
    if s != [] {
      ElementsSize(s[1..]);
      assert Elements(s) == Elements(s[1..]) + {s[0]};
    }
  }

  lemma ElementsPrefix(s: seq<Id>, i: nat)
    requires NoRepeats(s) && i < |s|
    ensures Elements(s[..i + 1]) == Elements(s[..i]) + {s[i]} && s[i] !in Elements(s[..i])
  {
  }

  method SumWeights(active: seq<Id>, qf: Weights) returns (sum: nat)
    requires NoRepeats(active) && forall id :: id in active ==> id in qf
    ensures Elements(active) <= qf.Keys && sum == Weight(Elements(active), qf)
  {
    hide Total;
    sum := 0;
    TotalEmpty({}, qf);
    assert Elements(active[..0]) == {};
    for i := 0 to |active|
      invariant Elements(active[..i]) <= qf.Keys && sum == Weight(Elements(active[..i]), qf)
    {
      ElementsPrefix(active, i);
      TotalInsert(Elements(active[..i]), qf, active[i]);
      sum := sum + qf[active[i]];
    }
    assert active[..|active|] == active;
  }

  method CapAll(over: seq<Id>, cap: nat, out: map<Id, int>, remaining: int)
    returns (out': map<Id, int>, remaining': int)
    requires NoRepeats(over) && forall id :: id in over ==> id in out && out[id] == 0
    ensures out'.Keys == out.Keys
    ensures forall id :: id in out ==> out'[id] == if id in over then cap else out[id]
    ensures remaining' == remaining - cap * |over|
  {
    out', remaining' := out, remaining;
    for i := 0 to |over|
      invariant out'.Keys == out.Keys
      invariant forall id :: id in out ==> out'[id] == if id in over[..i] then cap else out[id]
      invariant remaining' == remaining - cap * i
    {
      assert over[i] !in over[..i];
      remaining' := remaining' - (cap - out'[over[i]]);
      out' := out'[over[i] := cap];
      assert over[..i + 1] == over[..i] + [over[i]];
      Distributes(cap, i, 1);
    }
    assert over[..|over|] == over;
  }

  lemma OverIsActive(active: seq<Id>, rest: set<Id>, qf: Weights, remaining: int, sum: int, cap: nat, over: seq<Id>)
    requires rest <= qf.Keys && NoRepeats(active) && Elements(active) == rest
    requires over == OverCap(active, qf, remaining, sum, cap) && over != []
    ensures Elements(over) <= rest && Elements(over) != {} && |Elements(over)| == |over|
    ensures forall id :: id in Elements(over) ==> remaining * qf[id] > cap * sum
    ensures NoRepeats(Without(active, over)) && Elements(Without(active, over)) == rest - Elements(over)
  {
    hide OverCap, Without;
    ElementsSize(over);
    assert over[0] in Elements(over);
    forall id | id in over ensures id in rest {
      assert id in active;
    }
  }

  lemma WeightParts(rest: set<Id>, more: set<Id>, qf: Weights)
    requires more <= rest <= qf.Keys && more != {} && forall id :: id in rest ==> qf[id] > 0
    ensures Weight(rest, qf) == Weight(more, qf) + Weight(rest - more, qf)
    ensures Weight(rest, qf) > 0 && Weight(rest - more, qf) >= 0
  {
    hide Total;
    TwoParts(rest, more);
    TotalUnion(more, rest - more, qf);
    TotalPositive(rest - more, qf);
    TotalPositive(rest, qf);
  }

  /** One pass that caps someone keeps the loop's state, with a rate that is higher than before. */
  lemma CapPass(all: set<Id>, qf: Weights, pool: int, cap: nat, capped: set<Id>, active: seq<Id>, remaining: int,
                over: seq<Id>)
    requires all <= qf.Keys && forall id :: id in all ==> qf[id] > 0
    requires LoopState(all, qf, pool, Some(cap), capped, active, remaining) && remaining > 0
    requires over == OverCap(active, qf, remaining, Weight(all - capped, qf), cap) && over != []
    ensures LoopState(all, qf, pool, Some(cap), capped + Elements(over), Without(active, over),
                      remaining - cap * |over|)
  {
    hide Total, OverCap, Without, Weight, Elements, NoRepeats;
    var more, rest := Elements(over), all - capped;
    var sum, left := Weight(rest, qf), Weight(rest - more, qf);
    OverIsActive(active, rest, qf, remaining, sum, cap, over);
    WeightParts(rest, more, qf);
    assert all - (capped + more) == rest - more;
    RateNeverFalls(more, qf, remaining, sum, cap);
    assert |capped + more| == |capped| + |more|;
    Distributes(cap, |capped|, |more|);
    forall id | id in capped + more ensures (remaining - cap * |over|) * qf[id] > cap * left {
      StillOver(remaining, sum, remaining - cap * |over|, left, cap, qf[id]);
    }
  }

  // ----- the last pass -----

  method PlaceFloors(active: seq<Id>, qf: Weights, remaining: nat, sum: nat, out: map<Id, int>)
    returns (out': map<Id, int>, placed: int)
    requires NoRepeats(active) && sum > 0
    requires forall id :: id in active ==> id in qf && id in out && out[id] == 0
    ensures out'.Keys == out.Keys
    ensures forall id ::
              id in out ==> out'[id] == if id in active then FloorShare(remaining, WeightOf(qf, id), sum) else out[id]
    ensures Elements(active) <= out'.Keys && placed == Total(Elements(active), out')
  {
    hide Total, FloorShare;
    out', placed := out, 0;
    TotalEmpty({}, out');
    assert Elements(active[..0]) == {};
    for i := 0 to |active|
      invariant out'.Keys == out.Keys && Elements(active[..i]) <= out'.Keys
      invariant forall id ::
                  id in out ==>
                    out'[id] == if id in active[..i] then FloorShare(remaining, WeightOf(qf, id), sum) else out[id]
      invariant placed == Total(Elements(active[..i]), out')
    {
      ElementsPrefix(active, i);
      ghost var done, before := Elements(active[..i]), out';
      var c := FloorShare(remaining, WeightOf(qf, active[i]), sum);
      out' := out'[active[i] := out'[active[i]] + c];
      placed := placed + c;
      TotalSame(done, before, out');
      TotalInsert(done, out', active[i]);
    }
    assert active[..|active|] == active;
  }

  function Queue(qf: Weights): (Id, Id) -> bool {
    (a: Id, b: Id) =>
      a == b || WeightOf(qf, a) > WeightOf(qf, b) || (WeightOf(qf, a) == WeightOf(qf, b) && Before(a, b))
  }

  lemma QueueIsTotal(qf: Weights)
    ensures Sorting.TotalOrder(Queue(qf))
    ensures forall a, b :: Queue(qf)(a, b) && a != b <==> Ahead(qf, a, b)
  {
    forall a, b, c
      ensures Queue(qf)(a, b) || Queue(qf)(b, a)
      ensures Queue(qf)(a, b) && a != b <==> Ahead(qf, a, b)
      ensures Ahead(qf, a, b) && Ahead(qf, b, a) ==> a == b
      ensures Queue(qf)(a, b) && Queue(qf)(b, c) ==> Queue(qf)(a, c)
    {
      AheadOrder(qf, a, b, c);
      AheadOrder(qf, a, b, a);
    }
  }

  lemma {:induction false} NoRepeatsCount<T>(s: seq<T>)
    ensures NoRepeats(s) <==> forall x :: multiset(s)[x] <= 1
  {
    if s != [] {
      NoRepeatsCount(s[1..]);
      assert s == [s[0]] + s[1..];
      assert forall x :: multiset(s)[x] == multiset(s[1..])[x] + if x == s[0] then 1 else 0;
      assert s[0] in s[1..] <==> multiset(s[1..])[s[0]] > 0;
      assert NoRepeats(s) <==> NoRepeats(s[1..]) && s[0] !in s[1..];
      if forall x :: multiset(s)[x] <= 1 {
        assert multiset(s)[s[0]] <= 1;
        forall x ensures multiset(s[1..])[x] <= 1 { assert multiset(s)[x] <= 1; }
      }
    }
  }

  /** The active proposals in the order of the queue. */
  lemma QueueOrder(active: seq<Id>, qf: Weights)
    requires NoRepeats(active)
    ensures var order := Sorting.Sort(active, Queue(qf));
            && NoRepeats(order) && Elements(order) == Elements(active)
            && forall i, j :: 0 <= i < j < |order| ==> Ahead(qf, order[i], order[j])
  {
    hide Ahead;
    var order := Sorting.Sort(active, Queue(qf));
    QueueIsTotal(qf);
    Sorting.SortPermutes(active, Queue(qf));
    Sorting.SortSorts(active, Queue(qf));
    NoRepeatsCount(active);
    NoRepeatsCount(order);
    forall x ensures x in order <==> x in active {
      assert x in multiset(order) <==> x in multiset(active);
    }
  }

  /** The later of two gets something only when the earlier is full. */
  ghost predicate InTurn(a: Id, b: Id, cap: Option<nat>, before: map<Id, int>, after: map<Id, int>)
    requires a in after.Keys && b in after.Keys && b in before.Keys
  {
    after[b] > before[b] ==> cap.Some? && after[a] == cap.value
  }

  /** Handing out along the queue has turned `before` into `after` and left `left` over; no one is beyond the cap. */
  ghost predicate HandedOut(order: seq<Id>, cap: Option<nat>, before: map<Id, int>, after: map<Id, int>, left: int)
    requires Elements(order) <= before.Keys == after.Keys
  {
    && (forall id :: id in order ==> before[id] <= after[id])
    && (cap.Some? ==> forall id :: id in order ==> after[id] <= cap.value)
    && (forall i, j :: 0 <= i < j < |order| ==> InTurn(order[i], order[j], cap, before, after))
    && (left > 0 ==> forall id :: id in order ==> cap.Some? && after[id] == cap.value)
  }

  lemma NothingHanded(order: seq<Id>, cap: Option<nat>, out: map<Id, int>, left: nat)
    requires Elements(order) <= out.Keys
    ensures HandedOut(order[..0], cap, out, out, left)
  {
  }

  lemma GiveOne(s: set<Id>, m: map<Id, int>, id: Id, give: int)
    requires s <= m.Keys && id in s
    ensures Total(s, m[id := m[id] + give]) == Total(s, m) + give
  {
    hide Total;
    var m' := m[id := m[id] + give];
    TotalRemove(s, m, id);
    TotalRemove(s, m', id);
    TotalSame(s - {id}, m, m');
  }

  lemma HandOneMore(order: seq<Id>, i: nat, cap: Option<nat>, before: map<Id, int>, now: map<Id, int>, left: nat,
                    give: nat)
    requires NoRepeats(order) && i < |order| && Elements(order) <= before.Keys == now.Keys && left > 0
    requires HandedOut(order[..i], cap, before, now, left) && now[order[i]] == before[order[i]]
    requires cap.Some? ==> before[order[i]] <= cap.value
    requires cap.None? ==> give == left
    requires cap.Some? ==> give == if left <= cap.value - now[order[i]] then left else cap.value - now[order[i]]
    ensures HandedOut(order[..i + 1], cap, before, now[order[i] := now[order[i]] + give], left - give)
  {
    var next := now[order[i] := now[order[i]] + give];
    var done := order[..i + 1];
    assert done == order[..i] + [order[i]];
    forall id | id in done
      ensures before[id] <= next[id] && (cap.Some? ==> next[id] <= cap.value)
      ensures left - give > 0 ==> cap.Some? && next[id] == cap.value
    {
      if id != order[i] { assert id in order[..i]; }
    }
    forall a, b | 0 <= a < b < |done| ensures InTurn(done[a], done[b], cap, before, next) {
      assert done[a] in order[..i] && done[a] != order[i];
      if b < i {
        assert InTurn(order[..i][a], order[..i][b], cap, before, now);
        assert done[b] != order[i];
      }
    }
  }

  lemma ExtendIdle(order: seq<Id>, i: nat, cap: Option<nat>, before: map<Id, int>, after: map<Id, int>)
    requires NoRepeats(order) && i <= |order| && Elements(order) <= before.Keys == after.Keys
    requires HandedOut(order[..i], cap, before, after, 0)
    requires forall id :: id in before.Keys && id !in order[..i] ==> after[id] == before[id]
    requires cap.Some? ==> forall id :: id in order ==> before[id] <= cap.value
    ensures HandedOut(order, cap, before, after, 0)
  {
    forall id | id in order ensures before[id] <= after[id] && (cap.Some? ==> after[id] <= cap.value) {
      assert id in Elements(order);
      if id !in order[..i] { assert after[id] == before[id]; }
    }
    forall a, b | 0 <= a < b < |order| ensures InTurn(order[a], order[b], cap, before, after) {
      assert order[b] in Elements(order);
      if order[b] in order[..i] {
        var k :| 0 <= k < i && order[..i][k] == order[b];
        assert k == b;
        assert InTurn(order[..i][a], order[..i][b], cap, before, after);
      }
    }
  }

  method PlaceRemainder(order: seq<Id>, cap: Option<nat>, out: map<Id, int>, leftover: nat)
    returns (out': map<Id, int>, left: nat)
    requires NoRepeats(order) && Elements(order) <= out.Keys
    requires cap.Some? ==> forall id :: id in order ==> out[id] <= cap.value
    ensures out'.Keys == out.Keys && forall id :: id in out.Keys && id !in order ==> out'[id] == out[id]
    ensures Total(Elements(order), out') + left == Total(Elements(order), out) + leftover
    ensures HandedOut(order, cap, out, out', left)
  {
    hide Total, HandedOut;
    out', left := out, leftover;
    NothingHanded(order, cap, out, left);
    var i := 0;
    while i < |order|
      invariant 0 <= i <= |order| && out'.Keys == out.Keys
      invariant forall id :: id in out.Keys && id !in order[..i] ==> out'[id] == out[id]
      invariant Total(Elements(order), out') + left == Total(Elements(order), out) + leftover
      invariant HandedOut(order[..i], cap, out, out', left)
    {
      if left <= 0 { break; }
      var id := order[i];
      ElementsPrefix(order, i);
      assert id !in order[..i];
      var room: nat := if cap.None? then left else if cap.value > out'[id] then cap.value - out'[id] else 0;
      var give := if left <= room then left else room;
      GiveOne(Elements(order), out', id, give);
      HandOneMore(order, i, cap, out, out', left, give);
      out' := out'[id := out'[id] + give];
      left := left - give;
      i := i + 1;
    }
    if i == |order| {
      assert order[..i] == order;
    } else {
      ExtendIdle(order, i, cap, out, out');
    }
  }

  lemma FactorCancel(l: int, s: int)
    requires s > 0
    ensures l * s / s == l
  {
    var q := l * s / s;
    assert q * s <= l * s < (q + 1) * s;
    FactorOrder(s, q, l + 1);
    FactorOrder(s, l, q + 1);
  }

  lemma FloorWithin(r: int, w: int, s: int, limit: int)
    requires s > 0 && r * w <= limit * s
    ensures FloorShare(r, w, s) <= limit
  {
    DivisionMonotone(r * w, limit * s, s);
    assert limit * s / s == limit by { FactorCancel(limit, s); }
  }

  lemma FloorBelow(r: int, w: int, s: int)
    requires s > 0
    ensures s * FloorShare(r, w, s) <= r * w
  {
  }

  lemma FactorAtMost(s: int, p: int, q: int)
    ensures s > 0 && s * p <= q * s ==> p <= q
  {
  }

  /** The floors never give out more than there is. */
  lemma FloorsFit(rest: set<Id>, qf: Weights, r: nat, floors: map<Id, int>)
    requires rest <= qf.Keys && rest <= floors.Keys && Weight(rest, qf) > 0
    requires forall id :: id in rest ==> floors[id] == FloorShare(r, qf[id], Weight(rest, qf))
    ensures Total(rest, floors) <= r
  {
    hide Total;
    var s := Weight(rest, qf);
    forall id | id in rest ensures s * floors[id] <= r * qf[id] {
      FloorBelow(r, qf[id], s);
    }
    TotalCompare(rest, s, floors, r, qf);
    assert s * Total(rest, floors) <= r * s;
    FactorAtMost(s, Total(rest, floors), r);
  }

  /** When nobody is over the cap at this rate, the floors and the remainder share everything out. */
  lemma LastPass(rest: set<Id>, qf: Weights, r: nat, cap: Option<nat>, order: seq<Id>, floors: map<Id, int>,
                 cents: map<Id, int>, left: nat)
    requires rest <= qf.Keys && rest <= floors.Keys == cents.Keys && Weight(rest, qf) > 0 && rest != {}
    requires forall id :: id in rest ==> qf[id] > 0 && floors[id] == FloorShare(r, qf[id], Weight(rest, qf))
    requires cap.Some? ==> forall id :: id in rest ==> r * qf[id] <= cap.value * Weight(rest, qf)
    requires Elements(order) == rest && forall i, j :: 0 <= i < j < |order| ==> Ahead(qf, order[i], order[j])
    requires HandedOut(order, cap, floors, cents, left) && Total(rest, cents) + left == r
    ensures left == 0 && SharedOut(rest, qf, r, cap, cents)
  {
    hide Total, FloorShare, Ahead;
    var s := Weight(rest, qf);
    assert forall id :: id in rest ==> id in order;
    if left > 0 {
      assert order[0] in order;
      AllCappedTooSoon(rest, qf, r, s, cap.value);
      TotalConstant(rest, cents, cap.value);
    }
    forall a, b | a in rest && b in rest && Ahead(qf, a, b) && cents[b] > FloorShare(r, qf[b], s)
      ensures cap.Some? && cents[a] == cap.value
    {
      var i :| 0 <= i < |order| && order[i] == a;
      var j :| 0 <= j < |order| && order[j] == b;
      AheadOrder(qf, a, b, a);
      AheadOrder(qf, a, a, a);
      assert InTurn(order[i], order[j], cap, floors, cents);
    }
  }

  lemma ElementsMembers(s: seq<Id>)
    ensures forall x :: x in s <==> x in Elements(s)
    ensures s == [] <==> Elements(s) == {}
  {
    if s != [] { assert s[0] in Elements(s); }
  }

  lemma ActiveAtStart(ids: seq<Id>, qf: Weights, pool: int, cap: Option<nat>, active: seq<Id>)
    requires NoRepeats(ids) && active == PositiveIds(ids, qf)
    ensures LoopState(Positive(Elements(ids), qf), qf, pool, cap, {}, active, pool)
  {
    hide Total, PositiveIds;
  }

  lemma LoopFacts(all: set<Id>, qf: Weights, pool: int, cap: Option<nat>, capped: set<Id>, active: seq<Id>,
                  remaining: int)
    requires all <= qf.Keys && LoopState(all, qf, pool, cap, capped, active, remaining)
    ensures capped <= all && NoRepeats(active) && Elements(active) == all - capped
    ensures remaining > 0 ==> pool > 0
    ensures active != [] ==> all - capped != {}
  {
    ElementsMembers(active);
    if remaining > 0 && cap.Some? { assert cap.value * |capped| >= 0; }
  }

  /** Whoever is over the cap had nothing fixed yet. */
  lemma FixMore(ids: set<Id>, qf: Weights, cap: nat, capped: set<Id>, active: seq<Id>, rest: set<Id>, remaining: int,
                sum: int, over: seq<Id>)
    requires rest <= qf.Keys && rest <= ids && rest !! capped && NoRepeats(active) && Elements(active) == rest
    requires over == OverCap(active, qf, remaining, sum, cap) && over != []
    ensures NoRepeats(over)
    ensures forall id :: id in over ==> id in ids && id !in capped
    ensures forall id :: id in capped + Elements(over) <==> id in capped || id in over
  {
    ElementsMembers(active);
    ElementsMembers(over);
  }

  /** One pass of the loop that caps the proposals in `over`. */
  method CapOver(ghost ids: set<Id>, qf: Weights, ghost pool: int, cap: nat, ghost capped: set<Id>, active: seq<Id>,
                 remaining: int, sum: int, over: seq<Id>, out: map<Id, int>)
    returns (out': map<Id, int>, remaining': int, active': seq<Id>, ghost capped': set<Id>)
    requires LoopState(Positive(ids, qf), qf, pool, Some(cap), capped, active, remaining) && remaining > 0
    requires sum == Weight(Positive(ids, qf) - capped, qf) && Fixed(ids, Some(cap), capped, out)
    requires over == OverCap(active, qf, remaining, sum, cap) && over != []
    ensures LoopState(Positive(ids, qf), qf, pool, Some(cap), capped', active', remaining')
    ensures Fixed(ids, Some(cap), capped', out') && |active'| < |active|
  {
    hide Total, Elements, NoRepeats, LoopState, OverCap, Without;
    ghost var all := Positive(ids, qf);
    LoopFacts(all, qf, pool, Some(cap), capped, active, remaining);
    assert over[0] in active;
    CapPass(all, qf, pool, cap, capped, active, remaining, over);
    FixMore(ids, qf, cap, capped, active, all - capped, remaining, sum, over);
    out', remaining' := CapAll(over, cap, out, remaining);
    active', capped' := Without(active, over), capped + Elements(over);
  }

  /** The final pass of the loop. */
  method ShareOut(active: seq<Id>, qf: Weights, remaining: nat, sum: nat, cap: Option<nat>, out: map<Id, int>,
                  ghost rest: set<Id>)
    returns (cents: map<Id, int>)
    requires NoRepeats(active) && Elements(active) == rest && rest != {} && rest <= qf.Keys && rest <= out.Keys
    requires sum == Weight(rest, qf) && sum > 0
    requires forall id :: id in rest ==> qf[id] > 0 && out[id] == 0
    requires cap.Some? ==> forall id :: id in active ==> remaining * WeightOf(qf, id) <= cap.value * sum
    ensures cents.Keys == out.Keys && forall id :: id in out.Keys - rest ==> cents[id] == out[id]
    ensures SharedOut(rest, qf, remaining, cap, cents)
  {
    hide Total, Elements, NoRepeats, Ahead, FloorShare, Queued;
    ElementsMembers(active);
    var floors, placed := PlaceFloors(active, qf, remaining, sum, out);
    FloorsFit(rest, qf, remaining, floors);
    var order := Sorting.Sort(active, Queue(qf));
    QueueOrder(active, qf);
    ElementsMembers(order);
    if cap.Some? {
      forall id | id in order ensures floors[id] <= cap.value {
        FloorWithin(remaining, qf[id], sum, cap.value);
      }
    }
    var left;
    cents, left := PlaceRemainder(order, cap, floors, remaining - placed);
    LastPass(rest, qf, remaining, cap, order, floors, cents, left);
  }

  /** The loop ends by sharing out. */
  lemma ShareCompletes(ids: set<Id>, qf: Weights, pool: int, cap: Option<nat>, capped: set<Id>, active: seq<Id>,
                       remaining: int, out: map<Id, int>, cents: map<Id, int>)
    requires var all := Positive(ids, qf);
             && LoopState(all, qf, pool, cap, capped, active, remaining) && remaining > 0 && pool > 0
             && Weight(all - capped, qf) > 0 && all - capped != {}
             && (cap.Some? ==>
                   forall id :: id in all - capped ==> remaining * qf[id] <= cap.value * Weight(all - capped, qf))
             && Fixed(ids, cap, capped, out)
             && cents.Keys == out.Keys && (forall id :: id in out.Keys - (all - capped) ==> cents[id] == out[id])
             && SharedOut(all - capped, qf, remaining, cap, cents)
    ensures Waterfill(ids, qf, pool, cap, capped, cents, 0)
  {
    hide Total, Elements, SharedOut;
    var all := Positive(ids, qf);
    forall id | id in capped ensures cap.Some? && cents[id] == cap.value {
      assert id in out.Keys - (all - capped);
    }
    forall id | id in ids - all ensures cents[id] == 0 {
      assert id in out.Keys - (all - capped);
    }
  }

  /** The loop ends with nobody active (or nothing to give): what the caps did not absorb stays unallocated. */
  lemma LoopCompletes(ids: set<Id>, qf: Weights, pool: int, cap: Option<nat>, capped: set<Id>, active: seq<Id>,
                      remaining: int, out: map<Id, int>)
    requires var all := Positive(ids, qf); LoopState(all, qf, pool, cap, capped, active, remaining)
    requires Fixed(ids, cap, capped, out) && !(remaining > 0 && active != [])
    ensures Waterfill(ids, qf, pool, cap, capped, out, if remaining > 0 then remaining else 0)
  {
    hide Total, Elements;
    ElementsMembers(active);
    var all := Positive(ids, qf);
    if pool > 0 {
      assert all - capped == {};
      forall id | id in all ensures id in capped {
        assert id !in all - capped;
      }
      assert all == capped;
    }
  }

  /**
   The pool is split by weight; whoever exceeds the cap gets the cap and the rest is split again, until
   nobody does. Then everyone left has the floor of their share and the remainder follows the queue.
   */
  method Allocate(ids: seq<Id>, qf: Weights, pool: int, cap: Option<nat>)
    returns (cents: map<Id, int>, unallocated: nat)
    requires NoRepeats(ids)
    ensures IsAllocation(Elements(ids), qf, pool, cap, cents, unallocated)
  {
    hide Total, Elements, NoRepeats, LoopState, Waterfill, OverCap, Without, PositiveIds;
    ghost var idset := Elements(ids);
    ghost var all := Positive(idset, qf);
    ghost var capped: set<Id> := {};
    var out: map<Id, int> := map id | id in ids :: 0;
    assert out.Keys == idset by { ElementsMembers(ids); }
    var remaining := pool;
    var active := PositiveIds(ids, qf);
    ActiveAtStart(ids, qf, pool, cap, active);
    while remaining > 0 && active != []
      invariant LoopState(all, qf, pool, cap, capped, active, remaining)
      invariant Fixed(idset, cap, capped, out)
      decreases |active|
    {
      LoopFacts(all, qf, pool, cap, capped, active, remaining);
      ElementsMembers(active);
      var sum := SumWeights(active, qf);
      TotalPositive(all - capped, qf);
      var over := if cap.None? then [] else OverCap(active, qf, remaining, sum, cap.value);
      if over != [] {
        out, remaining, active, capped :=
          CapOver(idset, qf, pool, cap.value, capped, active, remaining, sum, over, out);
        assert cap == Some(cap.value);
        continue;
      }
      cents := ShareOut(active, qf, remaining, sum, cap, out, all - capped);
      unallocated := 0;
      ShareCompletes(idset, qf, pool, cap, capped, active, remaining, out, cents);
      return;
    }
    cents := out;
    unallocated := if remaining > 0 then remaining else 0;
    LoopCompletes(idset, qf, pool, cap, capped, active, remaining, out);
  }
}
