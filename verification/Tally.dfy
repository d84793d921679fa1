/**
 The quadratic tally of a round. Money is in whole cents. The floating-point parts (adding
 contributions, the square root and the rounding of weights) are arbitrary functions, so nothing here
 relies on addition being associative: results are reproducible because the order is fixed by sorting.
 */
module Tally {
  import opened Wrappers
  import opened Strings
  import opened Allocation
  import opened Totals
  import Sorting

  // ----- ballots -----

  datatype SignedBallot = SignedBallot(round: string, voterKey: string, issuer: string, allocations: map<Id, int>,
                                       createdAt: string, nonce: string, proof: string)

  /** A signed ballot with the two annotations that the service adds. */
  datatype PublishedBallot = PublishedBallot(signed: SignedBallot, tier: string, onBehalfOf: Option<string>)

  datatype Adjustment = Adjustment(proposalId: Id, delta: int, reason: string, steward: string, createdAt: int)

  /**
   The parts of the computation that are taken as given: the canonical form of a ballot, the
   contribution of a vote count at a tier, how contributions are added and how a sum becomes a weight.
   */
  datatype Arithmetic = Arithmetic(canonical: PublishedBallot -> string, contribution: (string, int) -> real,
                                   add: (real, real) -> real, weight: real -> nat)
  {
    /** Different ballots have different canonical forms. */
    ghost predicate Valid() { forall a, b :: canonical(a) == canonical(b) ==> a == b }
  }

  /** A digest that only equal sequences of ballots share. */
  datatype Digest = DigestOf(ballots: seq<PublishedBallot>)

  function BallotOrder(arith: Arithmetic): (PublishedBallot, PublishedBallot) -> bool {
    (a: PublishedBallot, b: PublishedBallot) =>
      Before(a.signed.voterKey, b.signed.voterKey)
      || (a.signed.voterKey == b.signed.voterKey && AtMost(arith.canonical(a), arith.canonical(b)))
  }

  lemma AtMostIsTotal(a: string, b: string, c: string)
    ensures AtMost(a, b) || AtMost(b, a)
    ensures AtMost(a, b) && AtMost(b, a) ==> a == b
    ensures AtMost(a, b) && AtMost(b, c) ==> AtMost(a, c)
    ensures Before(a, b) ==> !AtMost(b, a)
    ensures Before(a, b) && Before(b, c) ==> Before(a, c)
  {
    BeforeTotal(a, b);
    BeforeIrreflexive(a);
    if Before(a, b) && Before(b, a) { BeforeTransitive(a, b, a); }
    if Before(a, b) && Before(b, c) { BeforeTransitive(a, b, c); }
  }

  lemma BallotOrderLaws(arith: Arithmetic, a: PublishedBallot, b: PublishedBallot, c: PublishedBallot)
    requires arith.Valid()
    ensures BallotOrder(arith)(a, b) || BallotOrder(arith)(b, a)
    ensures BallotOrder(arith)(a, b) && BallotOrder(arith)(b, a) ==> a == b
    ensures BallotOrder(arith)(a, b) && BallotOrder(arith)(b, c) ==> BallotOrder(arith)(a, c)
  {
    hide Before;
    AtMostIsTotal(a.signed.voterKey, b.signed.voterKey, c.signed.voterKey);
    AtMostIsTotal(arith.canonical(a), arith.canonical(b), arith.canonical(c));
  }

  lemma BallotOrderIsTotal(arith: Arithmetic)
    requires arith.Valid()
    ensures Sorting.TotalOrder(BallotOrder(arith))
  {
    hide Before, AtMost;
    forall a, b, c
      ensures BallotOrder(arith)(a, b) || BallotOrder(arith)(b, a)
      ensures BallotOrder(arith)(a, b) && BallotOrder(arith)(b, a) ==> a == b
      ensures BallotOrder(arith)(a, b) && BallotOrder(arith)(b, c) ==> BallotOrder(arith)(a, c)
    {
      BallotOrderLaws(arith, a, b, c);
    }
  }

  function SortBallots(arith: Arithmetic, ballots: seq<PublishedBallot>): seq<PublishedBallot> {
    Sorting.Sort(ballots, BallotOrder(arith))
  }

  /** Ballots are counted and hashed in the order of their voting keys, and those of one key by their canonical form. */
  lemma CountedByKey(arith: Arithmetic, ballots: seq<PublishedBallot>, i: nat, j: nat)
    requires arith.Valid() && i < j < |SortBallots(arith, ballots)|
    ensures var a, b := SortBallots(arith, ballots)[i], SortBallots(arith, ballots)[j];
            || Before(a.signed.voterKey, b.signed.voterKey)
            || (a.signed.voterKey == b.signed.voterKey && AtMost(arith.canonical(a), arith.canonical(b)))
  {
    hide Before, AtMost;
    BallotOrderIsTotal(arith);
    Sorting.SortSorts(ballots, BallotOrder(arith));
  }

  function BallotsHash(arith: Arithmetic, ballots: seq<PublishedBallot>): Digest {
    DigestOf(SortBallots(arith, ballots))
  }

  /** The digest identifies the ballots up to their order, and nothing less. */
  lemma HashIdentifiesBallots(arith: Arithmetic, a: seq<PublishedBallot>, b: seq<PublishedBallot>)
    requires arith.Valid()
    ensures BallotsHash(arith, a) == BallotsHash(arith, b) <==> multiset(a) == multiset(b)
  {
    BallotOrderIsTotal(arith);
    if multiset(a) == multiset(b) {
      Sorting.SortForgetsOrder(a, b, BallotOrder(arith));
    }
    Sorting.SortPermutes(a, BallotOrder(arith));
    Sorting.SortPermutes(b, BallotOrder(arith));
  }

  // ----- identifiers in order -----

  function SortIds(ids: seq<Id>): seq<Id> { Sorting.Sort(ids, AtMost) }

  lemma AtMostOrder()
    ensures Sorting.TotalOrder(AtMost)
  {
    hide AtMost;
    forall a, b, c
      ensures AtMost(a, b) || AtMost(b, a)
      ensures AtMost(a, b) && AtMost(b, a) ==> a == b
      ensures AtMost(a, b) && AtMost(b, c) ==> AtMost(a, c)
    {
      AtMostIsTotal(a, b, c);
    }
  }

  lemma {:induction false} SameElementsSameContents(a: seq<Id>, b: seq<Id>)
    requires NoRepeats(a) && NoRepeats(b) && Elements(a) == Elements(b)
    ensures multiset(a) == multiset(b)
  {
    NoRepeatsCount(a);
    NoRepeatsCount(b);
    forall x ensures multiset(a)[x] == multiset(b)[x] {
      assert multiset(a)[x] > 0 <==> x in a;
      assert multiset(b)[x] > 0 <==> x in b;
      assert x in Elements(a) <==> x in Elements(b);
    }
  }

  lemma SortedIds(ids: seq<Id>)
    requires NoRepeats(ids)
    ensures NoRepeats(SortIds(ids)) && Elements(SortIds(ids)) == Elements(ids)
  {
    Sorting.SortPermutes(ids, AtMost);
    NoRepeatsCount(ids);
    NoRepeatsCount(SortIds(ids));
    forall x ensures x in SortIds(ids) <==> x in ids {
      assert x in multiset(SortIds(ids)) <==> x in multiset(ids);
    }
  }

  ghost predicate IsOrdering(s: set<Id>, ids: seq<Id>) {
    NoRepeats(ids) && Elements(ids) == s && Sorting.SortedBy(ids, AtMost)
  }

  lemma SortedIsOrdering(ids: seq<Id>)
    requires NoRepeats(ids)
    ensures IsOrdering(Elements(ids), SortIds(ids))
  {
    AtMostOrder();
    SortedIds(ids);
    Sorting.SortSorts(ids, AtMost);
  }

  lemma {:induction false} Enumerated(s: set<Id>) returns (ids: seq<Id>)
    ensures NoRepeats(ids) && Elements(ids) == s
  {
    if s == {} {
      ids := [];
    } else {
      var x :| x in s;
      var rest := Enumerated(s - {x});
      ids := [x] + rest;
      assert Elements(ids) == {x} + Elements(rest);
    }
  }

  lemma OrderingExists(s: set<Id>)
    ensures exists ids :: IsOrdering(s, ids)
  {
    var ids := Enumerated(s);
    SortedIsOrdering(ids);
  }

  /** The elements of a set in increasing order. */
  ghost function InOrder(s: set<Id>): (ids: seq<Id>)
    ensures IsOrdering(s, ids)
  {
    OrderingExists(s);
    var ids :| IsOrdering(s, ids);
    ids
  }

  lemma SortedIsInOrder(ids: seq<Id>)
    requires NoRepeats(ids)
    ensures SortIds(ids) == InOrder(Elements(ids))
  {
    hide Sorting.Sort, InOrder, AtMost, Sorting.SortedBy;
    AtMostOrder();
    SortedIsOrdering(ids);
    SameElementsSameContents(SortIds(ids), InOrder(Elements(ids)));
    Sorting.SortedUnique(SortIds(ids), InOrder(Elements(ids)), AtMost);
  }

  // ----- what a tally is -----

  datatype Sums = Sums(rawVotes: int, voters: nat, voiceSum: real)

  datatype Entry = Entry(id: Id, rawVotes: int, voters: nat, voiceSum: real, qf: nat, share: real, matching: int,
                         adjustment: int)

  datatype Tally = Tally(proposals: seq<Entry>, pool: int, matchingCap: Option<nat>, ballotCount: nat,
                         ballotsHash: Digest, totalMatching: int, unallocated: nat, computedAt: int,
                         adjustments: seq<Adjustment>)

  datatype TallyError = UnknownProposal(voterKey: string, proposal: Id)
    | InvalidVoteCount(voterKey: string, proposal: Id) | UnknownAdjusted(proposal: Id)

  function VotesFor(b: PublishedBallot, id: Id): int {
    if id in b.signed.allocations then b.signed.allocations[id] else 0
  }

  /** The sums of one proposal after one more ballot has been counted. */
  function Counted(arith: Arithmetic, s: Sums, b: PublishedBallot, id: Id): Sums {
    var votes := VotesFor(b, id);
    if votes == 0 then s
    else Sums(s.rawVotes + votes, s.voters + 1, arith.add(s.voiceSum, arith.contribution(b.tier, votes)))
  }

  /** The sums of one proposal over all the ballots, in that order. */
  function SumsFor(arith: Arithmetic, ballots: seq<PublishedBallot>, id: Id): Sums {
    if ballots == [] then Sums(0, 0, 0.0)
    else Counted(arith, SumsFor(arith, ballots[..|ballots| - 1], id), ballots[|ballots| - 1], id)
  }

  /** The ballots that give a proposal any votes. */
  ghost function VotedFor(ballots: seq<PublishedBallot>, id: Id): set<int> {
    set i | 0 <= i < |ballots| && id in ballots[i].signed.allocations && ballots[i].signed.allocations[id] != 0
  }

  ghost function VotesIn(ballots: seq<PublishedBallot>, id: Id): map<int, int> {
    map i | i in VotedFor(ballots, id) :: ballots[i].signed.allocations[id]
  }

  lemma VotedForAppended(ballots: seq<PublishedBallot>, b: PublishedBallot, id: Id)
    ensures var votes := if id in b.signed.allocations then b.signed.allocations[id] else 0;
            var was, now := VotedFor(ballots, id), VotedFor(ballots + [b], id);
            && |ballots| !in was && now == (if votes != 0 then was + {|ballots|} else was)
            && Total(now, VotesIn(ballots + [b], id)) == Total(was, VotesIn(ballots, id)) + votes
  {
    hide Total;
    var votes := if id in b.signed.allocations then b.signed.allocations[id] else 0;
    var was, now := VotedFor(ballots, id), VotedFor(ballots + [b], id);
    var m, m' := VotesIn(ballots, id), VotesIn(ballots + [b], id);
    assert forall i :: 0 <= i < |ballots| ==> (ballots + [b])[i] == ballots[i];
    if votes == 0 {
      assert now == was;
      TotalSame(was, m, m');
    } else {
      assert now == was + {|ballots|};
      TotalSame(was, m, m');
      TotalInsert(was, m', |ballots|);
    }
  }

  /** The votes of a proposal are the total of what the ballots give it; its voters are the ballots that give any. */
  lemma {:induction false} SumsAreTotals(arith: Arithmetic, ballots: seq<PublishedBallot>, id: Id)
    ensures SumsFor(arith, ballots, id).rawVotes == Total(VotedFor(ballots, id), VotesIn(ballots, id))
    ensures SumsFor(arith, ballots, id).voters == |VotedFor(ballots, id)|
    decreases |ballots|
  {
    hide Total;
    if ballots == [] {
      TotalEmpty(VotedFor(ballots, id), VotesIn(ballots, id));
    } else {
      var n := |ballots| - 1;
      assert ballots == ballots[..n] + [ballots[n]];
      SumsAreTotals(arith, ballots[..n], id);
      VotedForAppended(ballots[..n], ballots[n], id);
    }
  }

  /**
   The voice of a proposal: each vote counts by the ballot's tier and is added in turn; a ballot without votes for it
   adds nothing.
   */
  lemma VoiceAppended(arith: Arithmetic, ballots: seq<PublishedBallot>, b: PublishedBallot, id: Id)
    ensures SumsFor(arith, [], id).voiceSum == 0.0
    ensures SumsFor(arith, ballots + [b], id).voiceSum ==
              if id in b.signed.allocations && b.signed.allocations[id] != 0
              then arith.add(SumsFor(arith, ballots, id).voiceSum,
                             arith.contribution(b.tier, b.signed.allocations[id]))
              else SumsFor(arith, ballots, id).voiceSum
  {
    assert (ballots + [b])[..|ballots|] == ballots;
  }

  ghost predicate NamesOnly(ids: set<Id>, ballots: seq<PublishedBallot>) {
    forall b :: b in ballots ==> b.signed.allocations.Keys <= ids
  }

  lemma KeysInOrder(s: set<Id>)
    ensures NoRepeats(InOrder(s)) && Elements(InOrder(s)) == s
    ensures forall k :: k in InOrder(s) <==> k in s
  {
    ElementsMembers(InOrder(s));
  }

  /** The ballots and adjustments that a tally accepts. */
  ghost predicate WellFormed(ids: set<Id>, ballots: seq<PublishedBallot>, adjustments: seq<Adjustment>) {
    && NamesOnly(ids, ballots)
    && (forall b, k :: b in ballots && k in b.signed.allocations ==> b.signed.allocations[k] >= 0)
    && (forall a :: a in adjustments ==> a.proposalId in ids)
  }

  function AdjustmentOf(adjustments: seq<Adjustment>, id: Id): int {
    if adjustments == [] then 0
    else
      var last := adjustments[|adjustments| - 1];
      AdjustmentOf(adjustments[..|adjustments| - 1], id) + if last.proposalId == id then last.delta else 0
  }

  /** The weight of every proposal, from the ballots in their canonical order. */
  ghost function WeightsOf(arith: Arithmetic, ids: set<Id>, ballots: seq<PublishedBallot>): (qf: Weights)
    ensures qf.Keys == ids
  {
    map id | id in ids :: arith.weight(SumsFor(arith, SortBallots(arith, ballots), id).voiceSum)
  }

  function EntryOf(id: Id, sums: Sums, qf: nat, totalQf: int, cents: int, adjustment: int): Entry {
    Entry(id, sums.rawVotes, sums.voters, sums.voiceSum, qf,
          if totalQf > 0 then qf as real / totalQf as real else 0.0, cents + adjustment, adjustment)
  }

  ghost function Matched(cents: map<Id, int>, adjustments: seq<Adjustment>): (m: map<Id, int>)
    ensures m.Keys == cents.Keys
  {
    map id | id in cents :: cents[id] + AdjustmentOf(adjustments, id)
  }

  ghost function EntriesFor(arith: Arithmetic, order: seq<Id>, ballots: seq<PublishedBallot>, qf: Weights,
                            totalQf: int, cents: map<Id, int>, adjustments: seq<Adjustment>): seq<Entry>
    requires forall id :: id in order ==> id in qf && id in cents
  {
    seq(|order|, i requires 0 <= i < |order| =>
      EntryOf(order[i], SumsFor(arith, ballots, order[i]), qf[order[i]], totalQf, cents[order[i]],
              AdjustmentOf(adjustments, order[i])))
  }

  ghost function TotalMatched(ids: set<Id>, m: map<Id, int>): int
    requires ids <= m.Keys
  {
    Total(ids, m)
  }

  /** `t` reports the allocation `cents`, adjusted, of the pool among the proposals `ids`. */
  ghost predicate Reports(arith: Arithmetic, ids: set<Id>, ballots: seq<PublishedBallot>, pool: int, cap: Option<nat>,
                          adjustments: seq<Adjustment>, computedAt: int, cents: map<Id, int>, unallocated: nat,
                          t: Tally)
  {
    cents.Keys == ids &&
    var qf := WeightsOf(arith, ids, ballots);
    KeysInOrder(ids);
    t == Tally(EntriesFor(arith, InOrder(ids), SortBallots(arith, ballots), qf, Weight(ids, qf), cents, adjustments),
               pool, cap, |ballots|, BallotsHash(arith, ballots), TotalMatched(ids, Matched(cents, adjustments)),
               unallocated, computedAt, adjustments)
  }

  /** `t` is the tally of the ballots, in any order, for the proposals `ids`. */
  ghost predicate IsTally(arith: Arithmetic, ids: set<Id>, ballots: seq<PublishedBallot>, pool: int, cap: Option<nat>,
                          adjustments: seq<Adjustment>, computedAt: int, t: Tally)
  {
    && WellFormed(ids, ballots, adjustments)
    && exists capped, cents, unallocated ::
         && Waterfill(ids, WeightsOf(arith, ids, ballots), pool, cap, capped, cents, unallocated)
         && Reports(arith, ids, ballots, pool, cap, adjustments, computedAt, cents, unallocated, t)
  }

  // ----- consequences -----

  lemma SameBallotsSameOrder(arith: Arithmetic, a: seq<PublishedBallot>, b: seq<PublishedBallot>)
    requires arith.Valid() && multiset(a) == multiset(b)
    ensures SortBallots(arith, a) == SortBallots(arith, b) && |a| == |b|
  {
    BallotOrderIsTotal(arith);
    Sorting.SortForgetsOrder(a, b, BallotOrder(arith));
    assert |multiset(a)| == |a| && |multiset(b)| == |b|;
  }

  /** The tally is a function of the contents of the ballot box: the order of the ballots changes nothing. */
  lemma TallyIgnoresOrder(arith: Arithmetic, ids: set<Id>, a: seq<PublishedBallot>, b: seq<PublishedBallot>, pool: int,
                          cap: Option<nat>, adjustments: seq<Adjustment>, computedAt: int, t: Tally, t': Tally)
    requires arith.Valid() && multiset(a) == multiset(b)
    requires IsTally(arith, ids, a, pool, cap, adjustments, computedAt, t)
    requires IsTally(arith, ids, b, pool, cap, adjustments, computedAt, t')
    ensures t == t'
  {
    hide Waterfill, EntriesFor, WellFormed, NamesOnly;
    SameBallotsSameOrder(arith, a, b);
    var qf := WeightsOf(arith, ids, a);
    var c, x, u :| && Waterfill(ids, qf, pool, cap, c, x, u)
                   && Reports(arith, ids, a, pool, cap, adjustments, computedAt, x, u, t);
    var c', x', u' :| && Waterfill(ids, qf, pool, cap, c', x', u')
                      && Reports(arith, ids, b, pool, cap, adjustments, computedAt, x', u', t');
    WaterfillUnique(ids, qf, pool, cap, c, x, u, c', x', u');
  }

  lemma WaterfillCovers(ids: set<Id>, qf: Weights, pool: int, cap: Option<nat>, capped: set<Id>, cents: map<Id, int>,
                        unallocated: nat)
    ensures Waterfill(ids, qf, pool, cap, capped, cents, unallocated) ==> cents.Keys == ids
  {
  }

  lemma TallyUnpacked(arith: Arithmetic, ids: set<Id>, ballots: seq<PublishedBallot>, pool: int, cap: Option<nat>,
                      adjustments: seq<Adjustment>, computedAt: int, t: Tally)
    returns (qf: Weights, capped: set<Id>, cents: map<Id, int>, unallocated: nat)
    requires IsTally(arith, ids, ballots, pool, cap, adjustments, computedAt, t)
    ensures qf.Keys == cents.Keys == ids
    ensures qf == WeightsOf(arith, ids, ballots)
    ensures Waterfill(ids, qf, pool, cap, capped, cents, unallocated)
    ensures Reports(arith, ids, ballots, pool, cap, adjustments, computedAt, cents, unallocated, t)
  {
    hide Waterfill, Reports, WellFormed;
    qf := WeightsOf(arith, ids, ballots);
    capped, cents, unallocated :| Waterfill(ids, qf, pool, cap, capped, cents, unallocated)
                                  && Reports(arith, ids, ballots, pool, cap, adjustments, computedAt, cents,
                                             unallocated, t);
    WaterfillCovers(ids, qf, pool, cap, capped, cents, unallocated);
  }

  /** Every proposal has exactly its own entry, in order, and the entry's matching is its cents and adjustments. */
  lemma EntriesCoverProposals(arith: Arithmetic, ids: set<Id>, ballots: seq<PublishedBallot>, pool: int,
                              cap: Option<nat>, adjustments: seq<Adjustment>, computedAt: int, t: Tally, cents: map<Id,
                              int>, unallocated: nat)
    requires Reports(arith, ids, ballots, pool, cap, adjustments, computedAt, cents, unallocated, t)
    ensures |t.proposals| == |InOrder(ids)| && cents.Keys == ids
    ensures forall i :: 0 <= i < |t.proposals| ==>
              var id := InOrder(ids)[i];
              && id in ids && t.proposals[i].id == id
              && t.proposals[i].matching == cents[id] + AdjustmentOf(adjustments, id)
    ensures t.pool == pool && t.ballotCount == |ballots| && t.unallocated == unallocated
    ensures t.totalMatching == TotalMatched(ids, Matched(cents, adjustments))
  {
    hide AdjustmentOf, InOrder, TotalMatched, SumsFor, Total;
    KeysInOrder(ids);
  }

  /** What an entry says of its proposal: the sums of the ballots, the weight they give and its share of all weights. */
  lemma EntriesCount(arith: Arithmetic, ids: set<Id>, ballots: seq<PublishedBallot>, pool: int, cap: Option<nat>,
                     adjustments: seq<Adjustment>, computedAt: int, t: Tally, cents: map<Id, int>, unallocated: nat)
    requires Reports(arith, ids, ballots, pool, cap, adjustments, computedAt, cents, unallocated, t)
    ensures var sorted, total := SortBallots(arith, ballots), Total(ids, WeightsOf(arith, ids, ballots));
            forall e :: e in t.proposals ==>
              && Sums(e.rawVotes, e.voters, e.voiceSum) == SumsFor(arith, sorted, e.id)
              && e.qf == arith.weight(e.voiceSum)
              && e.share == (if total > 0 then e.qf as real / total as real else 0.0)
              && e.adjustment == AdjustmentOf(adjustments, e.id)
  {
    hide AdjustmentOf, InOrder, TotalMatched, SumsFor, Total;
  }

  /** Every matching is non-negative and together they fit the pool. */
  ghost predicate WithinPool(t: Tally) {
    (forall i :: 0 <= i < |t.proposals| ==> t.proposals[i].matching >= 0) && t.totalMatching <= t.pool
  }

  /** Before any adjustment, matching is non-negative and fits the pool. */
  lemma UnadjustedTallyIsSound(arith: Arithmetic, ids: set<Id>, ballots: seq<PublishedBallot>, pool: nat,
                               cap: Option<nat>, computedAt: int, t: Tally)
    requires IsTally(arith, ids, ballots, pool, cap, [], computedAt, t)
    ensures WithinPool(t)
    ensures (forall e :: e in t.proposals ==> e.matching >= 0) && t.totalMatching <= pool
  {
    hide Waterfill, IsTally, EntriesFor, Total;
    var qf, capped, cents, unallocated := TallyUnpacked(arith, ids, ballots, pool, cap, [], computedAt, t);
    EntriesCoverProposals(arith, ids, ballots, pool, cap, [], computedAt, t, cents, unallocated);
    forall id | id in ids ensures cents[id] >= 0 {
      SharesWithinBounds(ids, qf, pool, cap, capped, cents, unallocated, id);
    }
    CentsConserved(ids, qf, pool, cap, capped, cents, unallocated);
    TotalSame(ids, Matched(cents, []), cents);
  }

  lemma AdjustmentAppended(adjustments: seq<Adjustment>, a: Adjustment, id: Id)
    ensures AdjustmentOf(adjustments + [a], id)
              == AdjustmentOf(adjustments, id) + if a.proposalId == id then a.delta else 0
  {
    assert (adjustments + [a])[..|adjustments|] == adjustments;
  }

  lemma NamesInTally(arith: Arithmetic, ids: set<Id>, ballots: seq<PublishedBallot>, pool: int, cap: Option<nat>,
                     adjustments: seq<Adjustment>, at: int, t: Tally)
    requires IsTally(arith, ids, ballots, pool, cap, adjustments, at, t)
    ensures WellFormed(ids, ballots, adjustments)
    ensures t.pool == pool && t.matchingCap == cap && t.adjustments == adjustments && t.computedAt == at
  {
  }

  lemma MatchedMoves(ids: set<Id>, cents: map<Id, int>, adjustments: seq<Adjustment>, a: Adjustment)
    requires cents.Keys == ids && a.proposalId in ids
    ensures TotalMatched(ids, Matched(cents, adjustments + [a]))
              == TotalMatched(ids, Matched(cents, adjustments)) + a.delta
  {
    hide Total, AdjustmentOf;
    var m, m' := Matched(cents, adjustments), Matched(cents, adjustments + [a]);
    forall id ensures AdjustmentOf(adjustments + [a], id)
                      == AdjustmentOf(adjustments, id) + if a.proposalId == id then a.delta else 0
    {
      AdjustmentAppended(adjustments, a, id);
    }
    TotalRemove(ids, m, a.proposalId);
    TotalRemove(ids, m', a.proposalId);
    TotalSame(ids - {a.proposalId}, m, m');
  }

  /** One more adjustment moves the matching of its own proposal and nothing else. */
  lemma AdjustmentIsLocal(arith: Arithmetic, ids: set<Id>, ballots: seq<PublishedBallot>, pool: int, cap: Option<nat>,
                          adjustments: seq<Adjustment>, a: Adjustment, at: int, at': int, t: Tally, t': Tally)
    requires IsTally(arith, ids, ballots, pool, cap, adjustments, at, t)
    requires IsTally(arith, ids, ballots, pool, cap, adjustments + [a], at', t')
    requires a.proposalId in ids
    ensures |t'.proposals| == |t.proposals|
    ensures forall i :: 0 <= i < |t.proposals| ==>
              && t'.proposals[i].id == t.proposals[i].id
              && t'.proposals[i].matching == t.proposals[i].matching
                                               + (if t.proposals[i].id == a.proposalId then a.delta else 0)
    ensures t'.totalMatching == t.totalMatching + a.delta
  {
    hide Waterfill, IsTally, Reports, Total, AdjustmentOf, InOrder, NamesOnly, WeightsOf;
    var qf, c, x, u := TallyUnpacked(arith, ids, ballots, pool, cap, adjustments, at, t);
    var qf', c', x', u' := TallyUnpacked(arith, ids, ballots, pool, cap, adjustments + [a], at', t');
    WaterfillUnique(ids, qf, pool, cap, c, x, u, c', x', u');
    NamesInTally(arith, ids, ballots, pool, cap, adjustments, at, t);
    EntriesCoverProposals(arith, ids, ballots, pool, cap, adjustments, at, t, x, u);
    EntriesCoverProposals(arith, ids, ballots, pool, cap, adjustments + [a], at', t', x, u);
    forall id
      ensures AdjustmentOf(adjustments + [a], id)
                == AdjustmentOf(adjustments, id) + if a.proposalId == id then a.delta else 0
    {
      AdjustmentAppended(adjustments, a, id);
    }
    MatchedMoves(ids, x, adjustments, a);
  }

  // ----- the computation -----

  lemma TotalNonNegative(s: set<Id>, m: map<Id, int>)
    requires s <= m.Keys && forall x :: x in s ==> m[x] >= 0
    ensures Total(s, m) >= 0
  {
    TotalAtLeast(s, 1, m, 0);
  }

  /** The voice credits that votes spend: the sum of their squares. */
  ghost function Credits(votes: map<Id, int>): nat {
    var squares := map id | id in votes :: votes[id] * votes[id];
    TotalNonNegative(squares.Keys, squares);
    Total(squares.Keys, squares)
  }

  lemma NoCredits()
    ensures Credits(map[]) == 0
  {
  }

  /** Votes cost their square: no votes cost nothing, and `n` votes for one more proposal cost `n * n` more. */
  lemma VotesCostTheirSquare(votes: map<Id, int>, id: Id, n: int)
    requires id !in votes
    ensures Credits(map[]) == 0
    ensures Credits(votes[id := n]) == Credits(votes) + n * n
  {
    NoCredits();
    hide Total;
    var before := map k | k in votes :: votes[k] * votes[k];
    var longer := votes[id := n];
    var after := map k | k in longer :: longer[k] * longer[k];
    TotalRemove(after.Keys, after, id);
    assert after.Keys - {id} == before.Keys;
    TotalSame(before.Keys, before, after);
  }

  method VoiceCost(votes: map<Id, int>) returns (cost: nat)
    ensures cost == Credits(votes)
  {
    hide Total;
    ghost var squares: map<Id, int> := map id | id in votes :: votes[id] * votes[id];
    var sum, left := 0, votes.Keys;
    TotalEmpty(votes.Keys - left, squares);
    while left != {}
      invariant left <= votes.Keys && sum == Total(votes.Keys - left, squares)
      decreases |left|
    {
      var id: Id :| id in left;
      TotalInsert(votes.Keys - left, squares, id);
      assert votes.Keys - (left - {id}) == (votes.Keys - left) + {id};
      sum, left := sum + votes[id] * votes[id], left - {id};
    }
    assert squares.Keys == votes.Keys - left;
    TotalNonNegative(squares.Keys, squares);
    assert sum == Credits(votes);
    cost := sum;
  }

  method SortedKeys(s: set<Id>) returns (keys: seq<Id>)
    ensures keys == InOrder(s)
  {
    var left := s;
    keys := [];
    while left != {}
      invariant left <= s && NoRepeats(keys) && Elements(keys) == s - left
      decreases |left|
    {
      var id :| id in left;
      ElementsMembers(keys);
      assert Elements(keys + [id]) == Elements(keys) + {id};
      keys, left := keys + [id], left - {id};
    }
    assert s - left == s;
    SortedIsInOrder(keys);
    keys := SortIds(keys);
  }

  ghost predicate BallotFits(ids: set<Id>, b: PublishedBallot) {
    b.signed.allocations.Keys <= ids && forall k :: k in b.signed.allocations ==> b.signed.allocations[k] >= 0
  }

  ghost predicate Blames(ids: set<Id>, b: PublishedBallot, e: TallyError) {
    match e
    case UnknownProposal(key, id) => key == b.signed.voterKey && id in b.signed.allocations && id !in ids
    case InvalidVoteCount(key, id) =>
      key == b.signed.voterKey && id in b.signed.allocations && id in ids && b.signed.allocations[id] < 0
    case UnknownAdjusted(_) => false
  }

  method CountBallot(arith: Arithmetic, acc: map<Id, Sums>, b: PublishedBallot)
    returns (r: Result<map<Id, Sums>, TallyError>)
    ensures r.Success? <==> BallotFits(acc.Keys, b)
    ensures r.Success? ==>
              r.value.Keys == acc.Keys && forall id :: id in acc ==> r.value[id] == Counted(arith, acc[id], b, id)
    ensures r.Failure? ==> Blames(acc.Keys, b, r.error)
  {
    hide InOrder, IsOrdering, Sorting.SortedBy;
    var keys := SortedKeys(b.signed.allocations.Keys);
    KeysInOrder(b.signed.allocations.Keys);
    var now := acc;
    for i := 0 to |keys|
      invariant now.Keys == acc.Keys
      invariant forall k :: k in keys[..i] ==> k in acc && b.signed.allocations[k] >= 0
      invariant forall id ::
                  id in acc ==> now[id] == if id in keys[..i] then Counted(arith, acc[id], b, id) else acc[id]
    {
      var id := keys[i];
      var votes := b.signed.allocations[id];
      if id !in acc { return Failure(UnknownProposal(b.signed.voterKey, id)); }
      if votes < 0 { return Failure(InvalidVoteCount(b.signed.voterKey, id)); }
      assert keys[..i + 1] == keys[..i] + [id];
      assert id !in keys[..i];
      if votes != 0 {
        var a := now[id];
        now :=
            now[id := Sums(a.rawVotes + votes, a.voters + 1, arith.add(a.voiceSum, arith.contribution(b.tier, votes)))];
      }
    }
    assert keys[..|keys|] == keys;
    r := Success(now);
  }

  method CountBallots(arith: Arithmetic, ids: set<Id>, sorted: seq<PublishedBallot>)
    returns (r: Result<map<Id, Sums>, TallyError>)
    ensures r.Success? <==> forall b :: b in sorted ==> BallotFits(ids, b)
    ensures r.Success? ==> r.value.Keys == ids && forall id :: id in ids ==> r.value[id] == SumsFor(arith, sorted, id)
    ensures r.Failure? ==> exists b :: b in sorted && Blames(ids, b, r.error)
  {
    hide BallotFits, Blames, Counted;
    var acc := map id | id in ids :: Sums(0, 0, 0.0);
    for i := 0 to |sorted|
      invariant acc.Keys == ids && forall b :: b in sorted[..i] ==> BallotFits(ids, b)
      invariant forall id :: id in ids ==> acc[id] == SumsFor(arith, sorted[..i], id)
    {
      var counted := CountBallot(arith, acc, sorted[i]);
      if counted.Failure? { return counted; }
      assert sorted[..i + 1] == sorted[..i] + [sorted[i]];
      assert sorted[..i + 1][..i] == sorted[..i];
      acc := counted.value;
    }
    assert sorted[..|sorted|] == sorted;
    r := Success(acc);
  }

  method Weigh(arith: Arithmetic, order: seq<Id>, acc: map<Id, Sums>) returns (qf: Weights)
    requires acc.Keys == Elements(order)
    ensures qf == map id | id in acc :: arith.weight(acc[id].voiceSum)
  {
    ElementsMembers(order);
    qf := map[];
    for i := 0 to |order|
      invariant forall id :: id in qf <==> id in order[..i]
      invariant forall id :: id in qf ==> id in acc && qf[id] == arith.weight(acc[id].voiceSum)
    {
      qf := qf[order[i] := arith.weight(acc[order[i]].voiceSum)];
    }
  }

  method SumAdjustments(ids: set<Id>, adjustments: seq<Adjustment>) returns (r: Result<map<Id, int>, TallyError>)
    ensures r.Success? <==> forall a :: a in adjustments ==> a.proposalId in ids
    ensures r.Success? ==> r.value == map id | id in ids :: AdjustmentOf(adjustments, id)
    ensures r.Failure? ==>
              exists a :: a in adjustments && a.proposalId !in ids && r.error == UnknownAdjusted(a.proposalId)
  {
    var sums: map<Id, int> := map id | id in ids :: 0;
    for i := 0 to |adjustments|
      invariant sums.Keys == ids && forall a :: a in adjustments[..i] ==> a.proposalId in ids
      invariant forall id :: id in ids ==> sums[id] == AdjustmentOf(adjustments[..i], id)
    {
      var a := adjustments[i];
      if a.proposalId !in ids { return Failure(UnknownAdjusted(a.proposalId)); }
      assert adjustments[..i + 1] == adjustments[..i] + [a];
      assert adjustments[..i + 1][..i] == adjustments[..i];
      sums := sums[a.proposalId := sums[a.proposalId] + a.delta];
    }
    assert adjustments[..|adjustments|] == adjustments;
    r := Success(sums);
  }

  lemma NoneYet(order: seq<Id>, m: map<Id, int>)
    ensures Elements(order[..0]) == {} && Total(Elements(order[..0]), m) == 0
  {
  }

  method Entries(arith: Arithmetic, order: seq<Id>, ballots: seq<PublishedBallot>, acc: map<Id, Sums>, qf: Weights,
                 totalQf: nat, cents: map<Id, int>, adjustments: seq<Adjustment>, sums: map<Id, int>)
    returns (entries: seq<Entry>, total: int)
    requires NoRepeats(order) && acc.Keys == qf.Keys == cents.Keys == sums.Keys == Elements(order)
    requires forall id ::
               id in acc ==> acc[id] == SumsFor(arith, ballots, id) && sums[id] == AdjustmentOf(adjustments, id)
    requires forall id :: id in order ==> id in qf && id in cents
    ensures entries == EntriesFor(arith, order, ballots, qf, totalQf, cents, adjustments)
    ensures total == TotalMatched(Elements(order), Matched(cents, adjustments))
  {
    ghost var matched := Matched(cents, adjustments);
    NoneYet(order, matched);
    hide Total, AdjustmentOf, SumsFor, Elements, NoRepeats, EntryOf;
    ElementsMembers(order);
    entries, total := [], 0;
    for i := 0 to |order|
      invariant |entries| == i && Elements(order[..i]) <= matched.Keys && total == Total(Elements(order[..i]), matched)
      invariant forall j ::
                  0 <= j < i ==>
                    entries[j] == EntryOf(order[j], SumsFor(arith, ballots, order[j]), qf[order[j]], totalQf,
                                          cents[order[j]], AdjustmentOf(adjustments, order[j]))
    {
      var id := order[i];
      ElementsPrefix(order, i);
      TotalInsert(Elements(order[..i]), matched, id);
      entries := entries + [EntryOf(id, acc[id], qf[id], totalQf, cents[id], sums[id])];
      total := total + cents[id] + sums[id];
    }
    assert order[..|order|] == order;
  }

  lemma FitIgnoresOrder(arith: Arithmetic, ids: set<Id>, ballots: seq<PublishedBallot>, adjustments: seq<Adjustment>)
    ensures forall b :: b in SortBallots(arith, ballots) <==> b in ballots
    ensures && (forall b :: b in SortBallots(arith, ballots) ==> BallotFits(ids, b))
            && (forall a :: a in adjustments ==> a.proposalId in ids)
            <==> WellFormed(ids, ballots, adjustments)
    ensures |SortBallots(arith, ballots)| == |ballots|
  {
    Sorting.SortPermutes(ballots, BallotOrder(arith));
    forall b ensures b in SortBallots(arith, ballots) <==> b in ballots {
      assert b in multiset(SortBallots(arith, ballots)) <==> b in multiset(ballots);
    }
    assert |multiset(SortBallots(arith, ballots))| == |multiset(ballots)|;
  }

  /** What a refusal to tally says is wrong is wrong. */
  ghost predicate Justifies(ids: set<Id>, ballots: seq<PublishedBallot>, adjustments: seq<Adjustment>, e: TallyError) {
    || (exists b :: b in ballots && Blames(ids, b, e))
    || (exists a :: a in adjustments && a.proposalId !in ids && e == UnknownAdjusted(a.proposalId))
  }

  lemma TallyReports(arith: Arithmetic, ids: set<Id>, ballots: seq<PublishedBallot>, pool: int, cap: Option<nat>,
                     adjustments: seq<Adjustment>, computedAt: int, qf: Weights, cents: map<Id, int>, unallocated: nat,
                     t: Tally)
    requires qf == WeightsOf(arith, ids, ballots) && cents.Keys == ids
    requires forall id :: id in InOrder(ids) ==> id in qf && id in cents
    requires var sorted := SortBallots(arith, ballots);
             var entries := EntriesFor(arith, InOrder(ids), sorted, qf, Weight(ids, qf), cents, adjustments);
             var total := TotalMatched(ids, Matched(cents, adjustments));
             t == Tally(entries, pool, cap, |ballots|, BallotsHash(arith, ballots), total, unallocated, computedAt,
                        adjustments)
    ensures Reports(arith, ids, ballots, pool, cap, adjustments, computedAt, cents, unallocated, t)
  {
    hide EntriesFor, Total, WeightsOf, Matched;
  }

  lemma WellFormedMeans(proposals: seq<Id>, ballots: seq<PublishedBallot>, adjustments: seq<Adjustment>)
    ensures WellFormed(Elements(proposals), ballots, adjustments) <==>
              && (forall b, k | b in ballots && k in b.signed.allocations ::
                    k in proposals && b.signed.allocations[k] >= 0)
              && (forall a :: a in adjustments ==> a.proposalId in proposals)
  {
    ElementsMembers(proposals);
    hide Elements;
  }

  method ComputeTally(arith: Arithmetic, ballots: seq<PublishedBallot>, proposals: seq<Id>, pool: int, cap: Option<nat>,
                      adjustments: seq<Adjustment>, computedAt: int) returns (r: Result<Tally, TallyError>)
    requires arith.Valid() && NoRepeats(proposals)
    ensures r.Success? <==> WellFormed(Elements(proposals), ballots, adjustments)
    ensures r.Success? <==>
              && (forall b, k | b in ballots && k in b.signed.allocations ::
                    k in proposals && b.signed.allocations[k] >= 0)
              && (forall a :: a in adjustments ==> a.proposalId in proposals)
    ensures r.Success? ==> IsTally(arith, Elements(proposals), ballots, pool, cap, adjustments, computedAt, r.value)
    ensures r.Failure? ==> Justifies(Elements(proposals), ballots, adjustments, r.error)
  {
    hide WellFormed, Total, Waterfill, Elements, NoRepeats, BallotFits, Blames, SumsFor, AdjustmentOf;
    hide EntriesFor, Reports, InOrder;
    var order := SortIds(proposals);
    SortedIds(proposals);
    SortedIsInOrder(proposals);
    ElementsMembers(proposals);
    ElementsMembers(order);
    ghost var ids := Elements(proposals);
    var known := set id | id in order;
    assert known == ids;
    var sorted := SortBallots(arith, ballots);
    FitIgnoresOrder(arith, ids, ballots, adjustments);
    WellFormedMeans(proposals, ballots, adjustments);
    var counted := CountBallots(arith, known, sorted);
    if counted.Failure? { return Failure(counted.error); }
    var acc := counted.value;
    var qf := Weigh(arith, order, acc);
    assert qf == WeightsOf(arith, ids, ballots);
    var totalQf := SumWeights(order, qf);
    var cents, unallocated := Allocate(order, qf, pool, cap);
    ghost var capped :| Waterfill(ids, qf, pool, cap, capped, cents, unallocated);
    WaterfillCovers(ids, qf, pool, cap, capped, cents, unallocated);
    var summed := SumAdjustments(known, adjustments);
    if summed.Failure? { return Failure(summed.error); }
    var entries, total := Entries(arith, order, sorted, acc, qf, totalQf, cents, adjustments, summed.value);
    HashIdentifiesBallots(arith, sorted, ballots);
    Sorting.SortPermutes(ballots, BallotOrder(arith));
    var t := Tally(entries, pool, cap, |sorted|, BallotsHash(arith, sorted), total, unallocated, computedAt,
                   adjustments);
    TallyReports(arith, ids, ballots, pool, cap, adjustments, computedAt, qf, cents, unallocated, t);
    r := Success(t);
  }
}
