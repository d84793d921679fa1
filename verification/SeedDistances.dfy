/**
 Breadth-first distances from the seed set over the endorsement links. The queue and the distance
 map grow in one loop; the outcome is the length of a shortest chain of endorsements from some seed.
 */
module SeedDistances {
  type Did = string
  /** Who each person endorsed, in the order the links are visited. */
  type Links = map<Did, seq<Did>>

  function Endorsed(links: Links, from: Did): seq<Did> { if from in links then links[from] else [] }

  // ----- what the distances mean -----

  /** Each person on the chain endorsed the next. */
  ghost predicate Chain(links: Links, p: seq<Did>) {
    p != [] && forall i :: 0 <= i < |p| - 1 ==> p[i + 1] in Endorsed(links, p[i])
  }

  ghost predicate ChainTo(links: Links, seeds: seq<Did>, p: seq<Did>, d: Did) {
    Chain(links, p) && p[0] in seeds && p[|p| - 1] == d
  }

  ghost predicate Reachable(links: Links, seeds: seq<Did>, d: Did) {
    exists p :: ChainTo(links, seeds, p, d)
  }

  /** `n` links lead from some seed to `d`, and no fewer do. */
  ghost predicate IsDistance(links: Links, seeds: seq<Did>, d: Did, n: nat) {
    && (exists p :: ChainTo(links, seeds, p, d) && |p| == n + 1)
    && (forall p :: ChainTo(links, seeds, p, d) ==> |p| >= n + 1)
  }

  // ----- the search -----

  ghost predicate Witnessed(links: Links, seeds: seq<Did>, d: Did, n: nat) {
    exists p :: ChainTo(links, seeds, p, d) && |p| == n + 1
  }

  /** Everyone recorded is in the queue once, in order of distance, and that far along some chain from a seed. */
  ghost predicate Recorded(links: Links, seeds: seq<Did>, dist: map<Did, nat>, queue: seq<Did>) {
    && (forall d :: d in dist <==> d in queue)
    && (forall i, j :: 0 <= i < j < |queue| ==> queue[i] != queue[j])
    && (forall i, j :: 0 <= i < j < |queue| ==> dist[queue[i]] <= dist[queue[j]])
    && (forall d :: d in dist ==> Witnessed(links, seeds, d, dist[d]))
  }

  ghost predicate SeedsAtZero(seeds: seq<Did>, dist: map<Did, nat>) {
    forall s :: s in seeds ==> s in dist && dist[s] == 0
  }

  /** The search has been passed on to the first `n` people that `from` endorsed. */
  ghost predicate PassedOn(links: Links, dist: map<Did, nat>, from: Did, n: nat)
    requires from in dist && n <= |Endorsed(links, from)|
  {
    forall to :: to in Endorsed(links, from)[..n] ==> to in dist && dist[to] <= dist[from] + 1
  }

  ghost predicate VisitedUpTo(links: Links, dist: map<Did, nat>, queue: seq<Did>, i: nat)
    requires i <= |queue| && forall d :: d in queue ==> d in dist
  {
    forall k :: 0 <= k < i ==> PassedOn(links, dist, queue[k], |Endorsed(links, queue[k])|)
  }

  /** No one is recorded beyond `bound`. */
  ghost predicate Within(dist: map<Did, nat>, bound: nat) { forall d :: d in dist ==> dist[d] <= bound }

  ghost function Everyone(links: Links, seeds: seq<Did>): set<Did> {
    (set s | s in seeds) + (set from, to | from in links && to in links[from] :: to)
  }

  lemma NothingRecorded(links: Links, seeds: seq<Did>)
    ensures Recorded(links, seeds, map[], []) && Within(map[], 0)
  {
  }

  lemma SeedsAreKnown(links: Links, seeds: seq<Did>)
    ensures forall s :: s in seeds ==> s in Everyone(links, seeds)
  {
  }

  lemma SeedWitnessed(links: Links, seeds: seq<Did>, seed: Did)
    requires seed in seeds
    ensures Witnessed(links, seeds, seed, 0)
  {
    assert ChainTo(links, seeds, [seed], seed);
  }

  /** Nobody recorded so far is further away: a new person goes to the end of the queue. */
  lemma AtTheEnd(links: Links, seeds: seq<Did>, dist: map<Did, nat>, queue: seq<Did>, to: Did, n: nat)
    requires Recorded(links, seeds, dist, queue) && to !in dist && Within(dist, n) && Witnessed(links, seeds, to, n)
    ensures Recorded(links, seeds, dist[to := n], queue + [to]) && Within(dist[to := n], n)
  {
    hide Witnessed;
    var dist', queue' := dist[to := n], queue + [to];
    forall d ensures d in dist' <==> d in queue' {
      assert d in queue' <==> d in queue || d == to;
    }
    forall i, j | 0 <= i < j < |queue'| ensures queue'[i] != queue'[j] && dist'[queue'[i]] <= dist'[queue'[j]] {
      assert queue'[i] == queue[i] && queue[i] in queue;
    }
    forall d | d in dist' ensures Witnessed(links, seeds, d, dist'[d]) {
      if d != to { assert Witnessed(links, seeds, d, dist[d]); }
    }
  }

  lemma SeedsFirst(dist: map<Did, nat>, queue: seq<Did>)
    requires Within(dist, 0)
    ensures |queue| > 0 && queue[0] in dist ==> Within(dist, dist[queue[0]] + 1)
  {
  }

  method EnqueueSeeds(links: Links, seeds: seq<Did>) returns (dist: map<Did, nat>, queue: seq<Did>)
    ensures Recorded(links, seeds, dist, queue) && SeedsAtZero(seeds, dist) && Within(dist, 0)
    ensures dist.Keys <= Everyone(links, seeds)
  {
    hide Everyone;
    dist, queue := map[], [];
    NothingRecorded(links, seeds);
    for k := 0 to |seeds|
      invariant Recorded(links, seeds, dist, queue) && SeedsAtZero(seeds[..k], dist) && Within(dist, 0)
      invariant forall d :: d in dist ==> d in seeds
    {
      hide Recorded, Within;
      var seed := seeds[k];
      if seed !in dist {
        SeedWitnessed(links, seeds, seed);
        AtTheEnd(links, seeds, dist, queue, seed, 0);
        dist := dist[seed := 0];
        queue := queue + [seed];
      }
      assert seeds[..k + 1] == seeds[..k] + [seed];
    }
    assert seeds[..|seeds|] == seeds;
    SeedsAreKnown(links, seeds);
  }

  ghost predicate Extends(dist: map<Did, nat>, dist': map<Did, nat>) {
    forall d :: d in dist ==> d in dist' && dist'[d] == dist[d]
  }

  lemma RecordedFacts(links: Links, seeds: seq<Did>, dist: map<Did, nat>, queue: seq<Did>)
    requires Recorded(links, seeds, dist, queue)
    ensures forall d :: d in queue ==> d in dist
    ensures forall i, j :: 0 <= i < j < |queue| ==> dist[queue[i]] <= dist[queue[j]]
  {
    hide Witnessed;
  }

  lemma FromWitnessed(links: Links, seeds: seq<Did>, dist: map<Did, nat>, queue: seq<Did>, from: Did)
    requires Recorded(links, seeds, dist, queue) && from in dist
    ensures Witnessed(links, seeds, from, dist[from])
  {
    hide Witnessed;
  }

  /** A new person goes to the end of the queue, one link beyond `from`. */
  lemma Discover(links: Links, seeds: seq<Did>, dist: map<Did, nat>, queue: seq<Did>, from: Did, to: Did)
    requires Recorded(links, seeds, dist, queue) && from in dist && to !in dist && to in Endorsed(links, from)
    requires Within(dist, dist[from] + 1)
    ensures Recorded(links, seeds, dist[to := dist[from] + 1], queue + [to])
    ensures to in Everyone(links, seeds)
  {
    hide Recorded;
    var n := dist[from] + 1;
    FromWitnessed(links, seeds, dist, queue, from);
    var p :| ChainTo(links, seeds, p, from) && |p| == n;
    assert ChainTo(links, seeds, p + [to], to);
    AtTheEnd(links, seeds, dist, queue, to, n);
  }

  /** One turn of the outer loop: everyone that `queue[i]` endorsed and nobody has recorded yet is one link further. */
  method Visit(links: Links, ghost seeds: seq<Did>, dist: map<Did, nat>, queue: seq<Did>, i: nat)
    returns (dist': map<Did, nat>, queue': seq<Did>)
    requires i < |queue| && Recorded(links, seeds, dist, queue) && SeedsAtZero(seeds, dist)
    requires dist.Keys <= Everyone(links, seeds)
    requires VisitedUpTo(links, dist, queue, i) && Within(dist, dist[queue[i]] + 1)
    ensures |queue'| > i && Recorded(links, seeds, dist', queue') && SeedsAtZero(seeds, dist')
    ensures dist'.Keys <= Everyone(links, seeds)
    ensures VisitedUpTo(links, dist', queue', i + 1)
    ensures i + 1 < |queue'| ==> Within(dist', dist'[queue'[i + 1]] + 1)
  {
    hide Recorded, Everyone;
    dist', queue' := dist, queue;
    var from := queue[i];
    RecordedFacts(links, seeds, dist, queue);
    var d := dist[from];
    var targets := Endorsed(links, from);
    for k := 0 to |targets|
      invariant queue <= queue' && Extends(dist, dist')
      invariant Recorded(links, seeds, dist', queue') && dist'.Keys <= Everyone(links, seeds)
      invariant Within(dist', d + 1) && PassedOn(links, dist', from, k)
    {
      var to := targets[k];
      assert targets[..k + 1] == targets[..k] + [to];
      if to !in dist' {
        Discover(links, seeds, dist', queue', from, to);
        dist' := dist'[to := d + 1];
        queue' := queue' + [to];
      }
    }
    RecordedFacts(links, seeds, dist', queue');
    forall k | 0 <= k < i + 1 ensures PassedOn(links, dist', queue'[k], |Endorsed(links, queue'[k])|) {
      if k < i {
        assert PassedOn(links, dist, queue[k], |Endorsed(links, queue[k])|);
      }
    }
  }

  lemma {:induction false} QueueFits(queue: seq<Did>, everyone: set<Did>)
    requires forall i, j :: 0 <= i < j < |queue| ==> queue[i] != queue[j]
    requires forall d :: d in queue ==> d in everyone
    ensures |queue| <= |everyone|
  {
    if queue != [] {
      QueueFits(queue[1..], everyone - {queue[0]});
    }
  }

  lemma RecordedFit(links: Links, seeds: seq<Did>, dist: map<Did, nat>, queue: seq<Did>, everyone: set<Did>)
    requires Recorded(links, seeds, dist, queue) && dist.Keys <= everyone
    ensures |queue| <= |everyone| && forall d :: d in queue ==> d in dist
  {
    hide Witnessed;
    QueueFits(queue, everyone);
  }

  /** When everyone in the queue has been visited, no chain reaches anybody sooner than recorded. */
  lemma {:induction false} NoShorterChain(links: Links, seeds: seq<Did>, dist: map<Did, nat>, queue: seq<Did>,
          p: seq<Did>, d: Did)
    requires Recorded(links, seeds, dist, queue) && SeedsAtZero(seeds, dist) && VisitedUpTo(links, dist, queue, |queue|)
    requires ChainTo(links, seeds, p, d)
    ensures d in dist && dist[d] + 1 <= |p|
    decreases |p|
  {
    if |p| > 1 {
      var init := p[..|p| - 1];
      var from := init[|init| - 1];
      assert ChainTo(links, seeds, init, from);
      NoShorterChain(links, seeds, dist, queue, init, from);
      var k :| 0 <= k < |queue| && queue[k] == from;
      assert PassedOn(links, dist, from, |Endorsed(links, from)|);
      assert p[|p| - 2 + 1] in Endorsed(links, p[|p| - 2]);
      assert Endorsed(links, from)[..|Endorsed(links, from)|] == Endorsed(links, from);
    }
  }

  lemma DistancesAreExact(links: Links, seeds: seq<Did>, dist: map<Did, nat>, queue: seq<Did>, d: Did)
    requires Recorded(links, seeds, dist, queue) && SeedsAtZero(seeds, dist) && VisitedUpTo(links, dist, queue, |queue|)
    ensures d in dist <==> Reachable(links, seeds, d)
    ensures d in dist ==> IsDistance(links, seeds, d, dist[d])
  {
    forall p | ChainTo(links, seeds, p, d) ensures d in dist && dist[d] + 1 <= |p| {
      NoShorterChain(links, seeds, dist, queue, p, d);
    }
    if d in dist {
      assert Witnessed(links, seeds, d, dist[d]);
    }
  }

  /** Somebody one link nearer has endorsed whoever is not a seed. */
  ghost predicate EndorsedFrom(links: Links, dist: map<Did, nat>, d: Did, n: nat) {
    exists from :: from in dist && from in links && d in links[from] && dist[from] + 1 == n
  }

  /** When everyone in the queue has been visited, whoever is recorded has passed the search on. */
  lemma LinkOnward(links: Links, seeds: seq<Did>, dist: map<Did, nat>, queue: seq<Did>, d: Did)
    requires Recorded(links, seeds, dist, queue) && VisitedUpTo(links, dist, queue, |queue|) && d in dist
    ensures d in links ==> forall to :: to in links[d] ==> to in dist && dist[to] <= dist[d] + 1
  {
    hide Witnessed;
    var k :| 0 <= k < |queue| && queue[k] == d;
    assert PassedOn(links, dist, d, |Endorsed(links, d)|);
    assert Endorsed(links, d)[..|Endorsed(links, d)|] == Endorsed(links, d);
  }

  lemma LastLink(links: Links, seeds: seq<Did>, p: seq<Did>, d: Did) returns (init: seq<Did>, from: Did)
    requires ChainTo(links, seeds, p, d) && |p| > 1
    ensures ChainTo(links, seeds, init, from) && |init| == |p| - 1 && from in links && d in links[from]
  {
    init := p[..|p| - 1];
    from := init[|init| - 1];
    assert p[|p| - 2 + 1] in Endorsed(links, p[|p| - 2]);
  }

  /** And whoever is recorded is a seed or has been passed on to. */
  lemma LinkBack(links: Links, seeds: seq<Did>, dist: map<Did, nat>, queue: seq<Did>, d: Did)
    requires Recorded(links, seeds, dist, queue) && SeedsAtZero(seeds, dist) && VisitedUpTo(links, dist, queue, |queue|)
    requires d in dist
    ensures dist[d] == 0 <==> d in seeds
    ensures dist[d] > 0 ==> EndorsedFrom(links, dist, d, dist[d])
  {
    assert Witnessed(links, seeds, d, dist[d]);
    var p :| ChainTo(links, seeds, p, d) && |p| == dist[d] + 1;
    if |p| > 1 {
      var init, from := LastLink(links, seeds, p, d);
      hide ChainTo, VisitedUpTo, Recorded;
      NoShorterChain(links, seeds, dist, queue, init, from);
      LinkOnward(links, seeds, dist, queue, from);
    }
  }

  method SeedDistances(links: Links, seeds: seq<Did>) returns (dist: map<Did, nat>)
    ensures forall d :: d in dist <==> Reachable(links, seeds, d)
    ensures forall d :: d in dist ==> IsDistance(links, seeds, d, dist[d])
    ensures forall d :: d in seeds ==> d in dist
    ensures forall d :: d in dist ==> (dist[d] == 0 <==> d in seeds)
    ensures forall from, to :: from in dist && from in links && to in links[from] ==>
              to in dist && dist[to] <= dist[from] + 1
    ensures forall d :: d in dist && dist[d] > 0 ==>
              exists from :: from in dist && from in links && d in links[from] && dist[from] + 1 == dist[d]
  {
    hide Recorded, Everyone, Within, PassedOn, Reachable, IsDistance;
    var queue: seq<Did>;
    dist, queue := EnqueueSeeds(links, seeds);
    ghost var everyone := Everyone(links, seeds);
    RecordedFit(links, seeds, dist, queue, everyone);
    SeedsFirst(dist, queue);
    var i := 0;
    while i < |queue|
      invariant 0 <= i <= |queue| <= |everyone| && forall d :: d in queue ==> d in dist
      invariant Recorded(links, seeds, dist, queue) && SeedsAtZero(seeds, dist) && dist.Keys <= everyone
      invariant VisitedUpTo(links, dist, queue, i)
      invariant i < |queue| ==> Within(dist, dist[queue[i]] + 1)
      decreases |everyone| - i
    {
      dist, queue := Visit(links, seeds, dist, queue, i);
      RecordedFit(links, seeds, dist, queue, everyone);
      i := i + 1;
    }
    forall d | d in dist
      ensures dist[d] == 0 <==> d in seeds
      ensures dist[d] > 0 ==> EndorsedFrom(links, dist, d, dist[d])
      ensures d in links ==> forall to :: to in links[d] ==> to in dist && dist[to] <= dist[d] + 1
    {
      LinkOnward(links, seeds, dist, queue, d);
      LinkBack(links, seeds, dist, queue, d);
    }
    forall d ensures d in dist <==> Reachable(links, seeds, d) {
      DistancesAreExact(links, seeds, dist, queue, d);
    }
    forall d | d in dist ensures IsDistance(links, seeds, d, dist[d]) {
      DistancesAreExact(links, seeds, dist, queue, d);
    }
  }
}
