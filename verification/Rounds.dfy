/**
 Grants rounds: draft, open, tallying, published. The tables of the pod are the fields of `Pod`; every
 handler is one atomic step. `Pod.Valid` is kept by all of them and says, among other things, that the
 ballot box holds exactly the last accepted ballot of every voter and that a stored tally is the tally of
 what is stored.
 */
module Rounds {
  import opened Wrappers
  import opened Allocation
  import opened Tally
  import opened BallotBox
  import opened Tiers
  import opened Strings
  import Sorting

  // ----- the checker -----

  datatype Problem = KeyTwice(key: string) | OtherRound(key: string) | BadSignature(key: string)
    | OverBudget(key: string)
    | NotTallied(why: TallyError) | TallyDiffers | PoolDiffers | CapDiffers | LogDiffers

  /** What an outside checker establishes from the published ballots alone. */
  ghost predicate Checks(arith: Arithmetic, signs: SignedBallot -> bool, ballots: seq<PublishedBallot>, ids: set<Id>,
                         stored: Tally, budget: nat, round: string)
  {
    && DistinctKeys(ballots)
    && (forall b ::
          b in ballots ==> b.signed.round == round && signs(b.signed) && Credits(b.signed.allocations) <= budget)
    && IsTally(arith, ids, ballots, stored.pool, stored.matchingCap, stored.adjustments, stored.computedAt, stored)
  }

  lemma DistinctSoFar(ballots: seq<PublishedBallot>, i: nat, keys: set<string>)
    requires i < |ballots| && keys == set j | 0 <= j < i :: ballots[j].signed.voterKey
    ensures DistinctKeys(ballots[..i + 1]) <==> DistinctKeys(ballots[..i]) && ballots[i].signed.voterKey !in keys
  {
    var s, t := ballots[..i + 1], ballots[..i];
    if DistinctKeys(s) {
      forall a, b | 0 <= a < b < |t| ensures t[a].signed.voterKey != t[b].signed.voterKey {
        assert s[a] == t[a] && s[b] == t[b];
      }
      forall j | 0 <= j < i ensures ballots[j].signed.voterKey != ballots[i].signed.voterKey {
        assert s[j] == ballots[j] && s[i] == ballots[i];
      }
    }
    if DistinctKeys(t) && ballots[i].signed.voterKey !in keys {
      forall a, b | 0 <= a < b < |s| ensures s[a].signed.voterKey != s[b].signed.voterKey {
        if b < i { assert t[a] == s[a] && t[b] == s[b]; } else { assert ballots[a].signed.voterKey in keys; }
      }
    }
  }

  method CheckBallots(signs: SignedBallot -> bool, ballots: seq<PublishedBallot>, budget: nat, round: string)
    returns (problems: seq<Problem>)
    ensures problems == [] <==>
            && DistinctKeys(ballots)
            && forall b ::
                 b in ballots ==> b.signed.round == round && signs(b.signed) && Credits(b.signed.allocations) <= budget
  {
    hide Credits;
    problems := [];
    var keys: set<string> := {};
    for i := 0 to |ballots|
      invariant keys == set j | 0 <= j < i :: ballots[j].signed.voterKey
      invariant problems == [] <==> DistinctKeys(ballots[..i])
                                    && forall j ::
                                         0 <= j < i ==>
                                           && ballots[j].signed.round == round && signs(ballots[j].signed)
                                           && Credits(ballots[j].signed.allocations) <= budget
    {
      var b := ballots[i];
      DistinctSoFar(ballots, i, keys);
      if b.signed.voterKey in keys { problems := problems + [KeyTwice(b.signed.voterKey)]; }
      keys := keys + {b.signed.voterKey};
      if b.signed.round != round { problems := problems + [OtherRound(b.signed.voterKey)]; }
      if !signs(b.signed) { problems := problems + [BadSignature(b.signed.voterKey)]; }
      var cost := VoiceCost(b.signed.allocations);
      if cost > budget { problems := problems + [OverBudget(b.signed.voterKey)]; }
    }
    assert ballots[..|ballots|] == ballots;
  }

  lemma OnlyTally(arith: Arithmetic, ids: set<Id>, ballots: seq<PublishedBallot>, stored: Tally, r: Result<Tally,
                  TallyError>)
    requires arith.Valid()
    requires r.Success? <==> WellFormed(ids, ballots, stored.adjustments)
    requires r.Success? ==>
               IsTally(arith, ids, ballots, stored.pool, stored.matchingCap, stored.adjustments, stored.computedAt,
                       r.value)
    ensures r == Success(stored) <==>
              IsTally(arith, ids, ballots, stored.pool, stored.matchingCap, stored.adjustments, stored.computedAt,
                      stored)
  {
    hide WellFormed, IsTally, Arithmetic.Valid;
    if IsTally(arith, ids, ballots, stored.pool, stored.matchingCap, stored.adjustments, stored.computedAt, stored) {
      NamesInTally(arith, ids, ballots, stored.pool, stored.matchingCap, stored.adjustments, stored.computedAt, stored);
      TallyIgnoresOrder(arith, ids, ballots, ballots, stored.pool, stored.matchingCap, stored.adjustments,
                        stored.computedAt, stored, r.value);
    }
  }

  /** The checker reports no problem exactly when everything it is meant to establish holds. */
  method VerifyTally(arith: Arithmetic, signs: SignedBallot -> bool, ballots: seq<PublishedBallot>, proposals: seq<Id>,
                     stored: Tally, budget: nat, round: string) returns (problems: seq<Problem>)
    requires arith.Valid() && NoRepeats(proposals)
    ensures problems == [] <==> Checks(arith, signs, ballots, Elements(proposals), stored, budget, round)
  {
    hide DistinctKeys, Credits, IsTally, WellFormed, Elements, NoRepeats;
    problems := CheckBallots(signs, ballots, budget, round);
    var recomputed := ComputeTally(arith, ballots, proposals, stored.pool, stored.matchingCap, stored.adjustments,
                                   stored.computedAt);
    OnlyTally(arith, Elements(proposals), ballots, stored, recomputed);
    if recomputed.Failure? {
      problems := problems + [NotTallied(recomputed.error)];
    } else if recomputed.value != stored {
      problems := problems + [TallyDiffers];
    }
  }

  // ----- the tables together -----

  /** The tables that the invariant of the lifecycle is about. */
  datatype Tables = Tables(rounds: map<string, RoundRow>, proposals: map<Id, ProposalRow>, ballots: map<string,
                           BallotRow>, log: seq<Logged>)

  ghost predicate Sound(arith: Arithmetic, signs: SignedBallot -> bool, t: Tables) {
    && Anchored(t.rounds, t.proposals, t.log)
    && (forall b :: b in t.ballots ==> RowSound(signs, t.rounds, t.proposals, t.ballots[b]))
    && (forall r ::
          r in t.rounds ==>
            RoundSound(arith, t.rounds[r], ProposalIds(t.proposals, r), BoxOf(t.ballots, r), AdjustmentsOf(t.log, r)))
  }

  lemma RowInRound(signs: SignedBallot -> bool, rounds: map<string, RoundRow>, proposals: map<Id, ProposalRow>,
                   b: BallotRow)
    requires RowSound(signs, rounds, proposals, b)
    ensures b.round in rounds && rounds[b.round].status != Draft
  {
  }

  lemma RowStays(signs: SignedBallot -> bool, rounds: map<string, RoundRow>, proposals: map<Id, ProposalRow>,
                 b: BallotRow, id: string, row: RoundRow)
    requires RowSound(signs, rounds, proposals, b)
    requires b.round == id ==>
               row.voiceBudget == rounds[id].voiceBudget && row.voteTier == rounds[id].voteTier && row.status != Draft
    ensures RowSound(signs, rounds[id := row], proposals, b)
  {
    hide ProposalIds, Credits, VotesNonNegative, TierOk;
  }

  lemma RoundAdded(arith: Arithmetic, signs: SignedBallot -> bool, t: Tables, id: string, row: RoundRow)
    requires Sound(arith, signs, t) && id !in t.rounds && row.status == Draft && row.tally == None
    ensures Sound(arith, signs, t.(rounds := t.rounds[id := row]))
  {
    hide BoxOf, AdjustmentsOf, IsTally, WithinPool, ProposalIds, RowSound;
    forall b | b in t.ballots ensures RowSound(signs, t.rounds[id := row], t.proposals, t.ballots[b]) {
      assert RowSound(signs, t.rounds, t.proposals, t.ballots[b]);
      RowInRound(signs, t.rounds, t.proposals, t.ballots[b]);
      RowStays(signs, t.rounds, t.proposals, t.ballots[b], id, row);
    }
    NoAdjustments(t.log, id);
  }

  /** A round moves on: its row is replaced, and perhaps one adjustment of it is logged. */
  lemma RoundMoved(arith: Arithmetic, signs: SignedBallot -> bool, t: Tables, id: string, row: RoundRow,
                   more: seq<Logged>)
    requires Sound(arith, signs, t) && id in t.rounds
    requires row.voiceBudget == t.rounds[id].voiceBudget && row.voteTier == t.rounds[id].voteTier
    requires (t.rounds[id].status != Draft ==> row.status != Draft)
    requires more == [] || (|more| == 1 && more[0].round == id)
    requires RoundSound(arith, row, ProposalIds(t.proposals, id), BoxOf(t.ballots, id), AdjustmentsOf(t.log + more, id))
    ensures Sound(arith, signs, t.(rounds := t.rounds[id := row], log := t.log + more))
  {
    hide BoxOf, AdjustmentsOf, RoundSound, ProposalIds, RowSound;
    forall b | b in t.ballots ensures RowSound(signs, t.rounds[id := row], t.proposals, t.ballots[b]) {
      assert RowSound(signs, t.rounds, t.proposals, t.ballots[b]);
      RowInRound(signs, t.rounds, t.proposals, t.ballots[b]);
      RowStays(signs, t.rounds, t.proposals, t.ballots[b], id, row);
    }
    forall r | r in t.rounds && r != id ensures AdjustmentsOf(t.log + more, r) == AdjustmentsOf(t.log, r) {
      if more == [] { assert t.log + more == t.log; } else {
        AdjustmentLogged(t.log, more[0], r);
        assert t.log + more == t.log + [more[0]];
      }
    }
  }

  lemma ProposalAdded(arith: Arithmetic, signs: SignedBallot -> bool, t: Tables, id: Id, row: ProposalRow)
    requires Sound(arith, signs, t) && id !in t.proposals && row.round in t.rounds
    requires t.rounds[row.round].status == Draft || t.rounds[row.round].status == Open
    ensures Sound(arith, signs, t.(proposals := t.proposals[id := row]))
  {
    hide BoxOf, AdjustmentsOf, IsTally, WithinPool, Credits, TierOk, VotesNonNegative;
    forall r ensures ProposalIds(t.proposals, r) <= ProposalIds(t.proposals[id := row], r) {
    }
    forall r | r != row.round ensures ProposalIds(t.proposals, r) == ProposalIds(t.proposals[id := row], r) {
    }
    hide ProposalIds;
  }

  lemma ProposalsRewritten(arith: Arithmetic, signs: SignedBallot -> bool, t: Tables, proposals: map<Id, ProposalRow>)
    requires Sound(arith, signs, t) && proposals.Keys == t.proposals.Keys
    requires forall p :: p in proposals ==> proposals[p].round == t.proposals[p].round
    ensures Sound(arith, signs, t.(proposals := proposals))
  {
    hide BoxOf, AdjustmentsOf, RoundSound, Credits;
    forall r ensures ProposalIds(proposals, r) == ProposalIds(t.proposals, r) {
    }
    hide ProposalIds;
  }

  lemma OtherBoxesUntouched(ballots: map<string, BallotRow>, voters: map<VoterId, string>, owner: map<string, string>,
                            v: VoterId, id: string, row: BallotRow, r: string)
    requires BoxSound(ballots, voters, owner) && v.0 == row.round && r != row.round
    requires id !in ballots - Previous(voters, v)
    ensures BoxOf(BallotsAfter(ballots, voters, v, id, row), r) == BoxOf(ballots, r)
  {
    hide VoterHash, BoxOf;
    var ballots' := BallotsAfter(ballots, voters, v, id, row);
    assert v in voters ==> ballots[voters[v]].round == row.round;
    assert BallotIds(ballots, r) == BallotIds(ballots', r);
    BoxIsLocal(ballots, ballots', r);
  }

  lemma BallotStored(arith: Arithmetic, signs: SignedBallot -> bool, t: Tables, voters: map<VoterId, string>,
                     owner: map<string, string>, v: VoterId, id: string, row: BallotRow)
    requires Sound(arith, signs, t) && BoxSound(t.ballots, voters, owner)
    requires RowSound(signs, t.rounds, t.proposals, row) && t.rounds[row.round].status == Open && v.0 == row.round
    requires id !in t.ballots - Previous(voters, v)
    ensures Sound(arith, signs, t.(ballots := BallotsAfter(t.ballots, voters, v, id, row)))
  {
    hide AdjustmentsOf, ProposalIds, BoxSound, IsTally, WithinPool, BoxOf, Credits, VotesNonNegative;
    forall r | r in t.rounds && r != row.round
      ensures BoxOf(BallotsAfter(t.ballots, voters, v, id, row), r) == BoxOf(t.ballots, r)
    {
      OtherBoxesUntouched(t.ballots, voters, owner, v, id, row, r);
    }
  }

  // ----- entries -----

  function FindEntry(entries: seq<Entry>, id: Id): (r: Option<Entry>)
    ensures r.Some? ==> r.value in entries && r.value.id == id
    ensures r.None? ==> forall e :: e in entries ==> e.id != id
  {
    if entries == [] then None
    else if entries[0].id == id then Some(entries[0])
    else FindEntry(entries[1..], id)
  }

  predicate HasEntry(t: Tally, id: Id) { FindEntry(t.proposals, id).Some? }

  /** A tally has exactly one entry for each proposal. */
  lemma EntryFound(arith: Arithmetic, ids: set<Id>, ballots: seq<PublishedBallot>, pool: int, cap: Option<nat>,
                   adjustments: seq<Adjustment>, at: int, t: Tally, id: Id) returns (i: nat)
    requires IsTally(arith, ids, ballots, pool, cap, adjustments, at, t) && id in ids
    ensures i < |t.proposals| && i < |InOrder(ids)| && InOrder(ids)[i] == id
    ensures FindEntry(t.proposals, id) == Some(t.proposals[i])
  {
    hide Waterfill, IsTally, Reports, InOrder, FindEntry;
    var qf, capped, cents, unallocated := TallyUnpacked(arith, ids, ballots, pool, cap, adjustments, at, t);
    EntriesCoverProposals(arith, ids, ballots, pool, cap, adjustments, at, t, cents, unallocated);
    KeysInOrder(ids);
    i :| 0 <= i < |InOrder(ids)| && InOrder(ids)[i] == id;
    assert t.proposals[i].id == id;
    assert t.proposals[i] in t.proposals;
    forall j | 0 <= j < |t.proposals| && t.proposals[j].id == id ensures j == i {
      assert InOrder(ids)[j] == id;
    }
  }

  lemma KeysDiffer(arith: Arithmetic, ids: set<Id>, ballots: seq<PublishedBallot>, pool: int, cap: Option<nat>,
                   adjustments: seq<Adjustment>, at: int, t: Tally, i: nat)
    requires IsTally(arith, ids, ballots, pool, cap, adjustments, at, t) && i < |t.proposals|
    ensures forall j :: 0 <= j < |t.proposals| && j != i ==> t.proposals[j].id != t.proposals[i].id
  {
    hide Waterfill, IsTally, Reports, InOrder;
    var qf, capped, cents, unallocated := TallyUnpacked(arith, ids, ballots, pool, cap, adjustments, at, t);
    EntriesCoverProposals(arith, ids, ballots, pool, cap, adjustments, at, t, cents, unallocated);
    KeysInOrder(ids);
  }

  /** An adjustment moves one matching; the result is within the pool exactly when the moved figures are. */
  lemma AdjustmentMoves(arith: Arithmetic, ids: set<Id>, ballots: seq<PublishedBallot>, pool: int, cap: Option<nat>,
                        adjustments: seq<Adjustment>, a: Adjustment, at: int, at': int, t: Tally, t': Tally)
    requires IsTally(arith, ids, ballots, pool, cap, adjustments, at, t) && WithinPool(t)
    requires IsTally(arith, ids, ballots, pool, cap, adjustments + [a], at', t')
    requires a.proposalId in ids
    ensures FindEntry(t.proposals, a.proposalId).Some? && FindEntry(t'.proposals, a.proposalId).Some?
    ensures FindEntry(t'.proposals, a.proposalId).value.matching
              == FindEntry(t.proposals, a.proposalId).value.matching + a.delta
    ensures t'.totalMatching == t.totalMatching + a.delta && t'.pool == t.pool == pool
    ensures WithinPool(t') <==> FindEntry(t'.proposals, a.proposalId).value.matching >= 0 && t'.totalMatching <= t'.pool
  {
    hide IsTally, InOrder, FindEntry, WellFormed;
    var i := EntryFound(arith, ids, ballots, pool, cap, adjustments, at, t, a.proposalId);
    var j := EntryFound(arith, ids, ballots, pool, cap, adjustments + [a], at', t', a.proposalId);
    AdjustmentIsLocal(arith, ids, ballots, pool, cap, adjustments, a, at, at', t, t');
    KeysInOrder(ids);
    assert i == j;
    NamesInTally(arith, ids, ballots, pool, cap, adjustments, at, t);
    NamesInTally(arith, ids, ballots, pool, cap, adjustments + [a], at', t');
    KeysDiffer(arith, ids, ballots, pool, cap, adjustments, at, t, i);
  }

  // ----- requests -----

  datatype Session = Session(pod: string, subject: string, tier: Option<string>, authorities: set<string>,
                             delegatedFor: Option<string>)

  /** What checking the presentation of a group vote came to. */
  datatype GroupCheck = Unreadable | Refused(code: string) | Verified(subject: string, delegatedFor: Option<string>)

  datatype RoundInput = RoundInput(pool: int, opensAt: int, closesAt: int, proposeTier: Option<string>,
                                   voteTier: Option<string>, voiceBudget: Option<int>, matchingCap: Option<int>)

  datatype Refusal = RoundNotFound | WrongStatus | BadRequest | TierTooLow | IdInUse
    | PodMismatch | MissingAuthority | DelegatedSession | RoundNotOpen | BadBallot | WrongRound | NamesUnknownProposal
    | SpendsTooMuch | BadProof
    | PresentationRefused(code: string) | HolderMismatch | NotAGroupVote | VoterKeyInUse
    | NotAProposal | ReasonRequired | NegativeMatching | OverPool | NoTally | StaleTally | TallyNotReady
    | CannotTally(why: TallyError)

  datatype Voter = Voter(principal: string, tier: string, onBehalfOf: Option<string>)

  datatype BallotResult = BallotResult(id: string, voterKey: string, cost: nat, voiceBudget: nat, replaced: bool,
                                       onBehalfOf: Option<string>)

  const MAX_CENTS := 100_000_000_000_000

  predicate VotingTier(tier: Option<string>) { tier.Some? ==> Rank(tier.value) >= 1 }

  /** The settings that a round may be created with. */
  predicate Settings(input: RoundInput) {
    && 0 <= input.pool <= MAX_CENTS && input.opensAt < input.closesAt
    && VotingTier(input.proposeTier) && VotingTier(input.voteTier)
    && (input.voiceBudget.Some? ==> 1 <= input.voiceBudget.value <= 1_000_000)
    && (input.matchingCap.Some? ==> 0 < input.matchingCap.value)
  }

  function RowFor(input: RoundInput): RoundRow
    requires Settings(input)
  {
    RoundRow(input.pool, Some(input.opensAt), Some(input.closesAt), input.proposeTier.UnwrapOr("T2"),
             input.voteTier.UnwrapOr("T2"), input.voiceBudget.UnwrapOr(100), input.matchingCap, Draft, None, None)
  }

  predicate WithinWindow(r: RoundRow, now: int) {
    (r.opensAt.Some? ==> r.opensAt.value <= now) && (r.closesAt.Some? ==> now <= r.closesAt.value)
  }

  ghost predicate IsBallotFor(b: SignedBallot, round: string) {
    && b.round == round && "did:key:" <= b.voterKey && b.issuer == b.voterKey && 8 <= |b.nonce| <= 200
    && VotesNonNegative(b.allocations)
  }

  function ParseBallot(body: Option<SignedBallot>, round: string): (r: Result<SignedBallot, Refusal>)
    ensures r.Success? <==> body.Some? && IsBallotFor(body.value, round)
    ensures r.Success? ==> r.value == body.value
    ensures r.Failure? ==> r.error == if body.Some? && body.value.round != round then WrongRound else BadBallot
  {
    if body.None? then Failure(BadBallot)
    else
      var b := body.value;
      if b.round != round then Failure(WrongRound)
      else if !("did:key:" <= b.voterKey) || b.issuer != b.voterKey || |b.nonce| < 8 || |b.nonce| > 200
      then Failure(BadBallot)
      else if exists k :: k in b.allocations && b.allocations[k] < 0 then Failure(BadBallot)
      else Success(b)
  }

  /** Who a ballot counts for: the member, or for a group vote the one group that the member shows a delegation from. */
  function WhoVotes(session: Session, group: Option<GroupCheck>, voteTier: string): (r: Result<Voter, Refusal>)
    ensures r.Success? ==> TierOk(Some(r.value.tier), voteTier)
    ensures r.Success? && r.value.onBehalfOf.None? ==>
              group.None? && r.value.principal == session.subject && Some(r.value.tier) == session.tier
    ensures r.Success? && r.value.onBehalfOf.Some? ==>
              && group == Some(Verified(session.subject, r.value.onBehalfOf))
              && r.value.onBehalfOf == Some(r.value.principal) && r.value.tier == "T2"
    ensures group.None? ==> (r.Success? <==> TierOk(session.tier, voteTier))
    ensures group.Some? ==> (r.Success? <==>
                               && group.value.Verified? && group.value.subject == session.subject
                               && group.value.delegatedFor.Some? && TierOk(Some("T2"), voteTier))
  {
    match group
    case None =>
      if TierOk(session.tier, voteTier) then Success(Voter(session.subject, session.tier.value, None))
      else Failure(TierTooLow)
    case Some(Unreadable) => Failure(BadRequest)
    case Some(Refused(code)) => Failure(PresentationRefused(code))
    case Some(Verified(subject, delegatedFor)) =>
      if subject != session.subject then Failure(HolderMismatch)
      else if delegatedFor.None? then Failure(NotAGroupVote)
      else if !TierOk(Some(GROUP_TIER), voteTier) then Failure(TierTooLow)
      else Success(Voter(delegatedFor.value, GROUP_TIER, delegatedFor))
  }

  lemma ReadyRow(signs: SignedBallot -> bool, rounds: map<string, RoundRow>, proposals: map<Id, ProposalRow>,
                 row: BallotRow)
    requires row.round in rounds && rounds[row.round].status == Open
    requires IsBallotFor(row.ballot.signed, row.round) && row.voterKey == row.ballot.signed.voterKey
    requires signs(row.ballot.signed)
    requires row.ballot.signed.allocations.Keys <= ProposalIds(proposals, row.round)
    requires Credits(row.ballot.signed.allocations) <= rounds[row.round].voiceBudget
    requires TierOk(Some(row.ballot.tier), rounds[row.round].voteTier)
    ensures RowSound(signs, rounds, proposals, row)
  {
  }

  lemma InRound(proposals: map<Id, ProposalRow>, round: string)
    ensures forall p :: p in ProposalIds(proposals, round) <==> p in proposals && proposals[p].round == round
  {
  }

  // ----- the pod -----

  function Shortened(reason: string): string { if |reason| > 2000 then reason[..2000] else reason }

  lemma AdjustmentsKnown(arith: Arithmetic, ids: set<Id>, box: seq<PublishedBallot>, row: RoundRow,
                         before: seq<Adjustment>, a: Adjustment)
    requires RoundSound(arith, row, ids, box, before) && row.status == Tallying && a.proposalId in ids
    ensures forall x :: x in before + [a] ==> x.proposalId in ids
  {
    NamesInTally(arith, ids, box, row.pool, row.matchingCap, before, row.tally.value.computedAt, row.tally.value);
  }

  /** The published form of a proposal: funded exactly when it is matched, with its entry of the tally. */
  function Announced(p: ProposalRow, e: Entry): ProposalRow { p.(funded := e.matching > 0, result := Some(e)) }

  ghost predicate IsPublished(before: map<Id, ProposalRow>, after: map<Id, ProposalRow>, ids: set<Id>, t: Tally) {
    && after.Keys == before.Keys
    && (forall p :: p in before && p !in ids ==> after[p] == before[p])
    && (forall p ::
          p in before && p in ids ==>
            HasEntry(t, p) && after[p] == Announced(before[p], FindEntry(t.proposals, p).value))
  }

  lemma EveryProposalHasEntry(arith: Arithmetic, row: RoundRow, ids: set<Id>, box: seq<PublishedBallot>,
                              adjustments: seq<Adjustment>)
    requires RoundSound(arith, row, ids, box, adjustments) && (row.status == Tallying || row.status == Published)
    ensures row.tally.Some? && forall p :: p in ids ==> HasEntry(row.tally.value, p)
  {
    hide IsTally, FindEntry, WithinPool;
    var t := row.tally.value;
    forall p | p in ids ensures HasEntry(t, p) {
      var i := EntryFound(arith, ids, box, row.pool, row.matchingCap, adjustments, t.computedAt, t, p);
    }
  }

  /** The new rows of the proposals, or nothing if the tally leaves one of them out. */
  method AnnounceAll(before: map<Id, ProposalRow>, ids: seq<Id>, t: Tally) returns (r: Option<map<Id, ProposalRow>>)
    requires forall p :: p in ids ==> p in before
    requires NoRepeats(ids)
    ensures r.Some? <==> forall p :: p in ids ==> HasEntry(t, p)
    ensures r.Some? ==> IsPublished(before, r.value, Elements(ids), t)
  {
    hide FindEntry;
    var rows := before;
    for i := 0 to |ids|
      invariant rows.Keys == before.Keys
      invariant forall p ::
                  p in ids[..i] ==> HasEntry(t, p) && rows[p] == Announced(before[p], FindEntry(t.proposals, p).value)
      invariant forall p :: p in rows && p !in ids[..i] ==> rows[p] == before[p]
    {
      var p := ids[i];
      var entry := FindEntry(t.proposals, p);
      assert HasEntry(t, p) <==> entry.Some?;
      assert p in ids;
      if entry.None? { return None; }
      assert p !in ids[..i];
      assert ids[..i + 1] == ids[..i] + [p];
      rows := rows[p := Announced(rows[p], entry.value)];
    }
    assert ids[..|ids|] == ids;
    r := Some(rows);
  }

  lemma StillInRound(before: map<Id, ProposalRow>, after: map<Id, ProposalRow>, ids: set<Id>, t: Tally)
    requires IsPublished(before, after, ids, t)
    ensures after.Keys == before.Keys && forall p :: p in after ==> after[p].round == before[p].round
  {
    hide FindEntry;
    forall p | p in after ensures after[p].round == before[p].round {
      if p in ids { assert after[p] == Announced(before[p], FindEntry(t.proposals, p).value); }
    }
  }

  /** Each proposal of the round gets its own entry of the tally and is funded if that has a matching. */
  lemma PublishedShows(before: map<Id, ProposalRow>, after: map<Id, ProposalRow>, round: string, t: Tally)
    requires IsPublished(before, after, ProposalIds(before, round), t)
    ensures after.Keys == before.Keys
    ensures forall p :: p in after ==> var row := after[p];
              if before[p].round != round then row == before[p]
              else
                && row.round == round && row.lead == before[p].lead
                && row.result.Some? && row.result.value.id == p && row.result.value in t.proposals
                && (row.funded <==> row.result.value.matching > 0)
  {
    hide FindEntry;
  }

  /** In a sound pod the tally of a closed round passes every check. */
  lemma SoundRoundChecks(arith: Arithmetic, signs: SignedBallot -> bool, t: Tables, voters: map<VoterId, string>,
                         owner: map<string, string>, id: string)
    requires Sound(arith, signs, t) && BoxSound(t.ballots, voters, owner)
    requires id in t.rounds && (t.rounds[id].status == Tallying || t.rounds[id].status == Published)
    ensures t.rounds[id].tally.Some?
    ensures var stored := t.rounds[id].tally.value;
            && Checks(arith, signs, BoxOf(t.ballots, id), ProposalIds(t.proposals, id), stored,
                      t.rounds[id].voiceBudget, id)
            && stored.pool == t.rounds[id].pool && stored.matchingCap == t.rounds[id].matchingCap
            && stored.adjustments == AdjustmentsOf(t.log, id)
  {
    hide BoxOf, IsTally, AdjustmentsOf, WithinPool, Anchored, BoxSound, ProposalIds, Credits, DistinctKeys;
    var row := t.rounds[id];
    NamesInTally(arith, ProposalIds(t.proposals, id), BoxOf(t.ballots, id), row.pool, row.matchingCap,
                 AdjustmentsOf(t.log, id), row.tally.value.computedAt, row.tally.value);
    BoxKeysDistinct(t.ballots, voters, owner, id);
    forall b | b in BoxOf(t.ballots, id)
      ensures b.signed.round == id && signs(b.signed) && Credits(b.signed.allocations) <= row.voiceBudget
    {
      var at := FromBox(t.ballots, id, b);
      assert RowSound(signs, t.rounds, t.proposals, t.ballots[at]);
    }
  }

  method VerifyAgainst(arith: Arithmetic, signs: SignedBallot -> bool, ballots: seq<PublishedBallot>, ids: seq<Id>,
                       stored: Tally, row: RoundRow, adjustments: seq<Adjustment>, round: string)
    returns (problems: seq<Problem>)
    requires arith.Valid() && NoRepeats(ids)
    ensures problems == [] <==>
            && Checks(arith, signs, ballots, Elements(ids), stored, row.voiceBudget, round)
            && stored.pool == row.pool && stored.matchingCap == row.matchingCap && stored.adjustments == adjustments
  {
    hide Checks, Arithmetic.Valid, NoRepeats, Elements;
    problems := VerifyTally(arith, signs, ballots, ids, stored, row.voiceBudget, round);
    if stored.pool != row.pool { problems := problems + [PoolDiffers]; }
    if stored.matchingCap != row.matchingCap { problems := problems + [CapDiffers]; }
    if stored.adjustments != adjustments { problems := problems + [LogDiffers]; }
  }

  class Pod {
    const did: string
    const arith: Arithmetic
    const signs: SignedBallot -> bool

    var rounds: map<string, RoundRow>
    var proposals: map<Id, ProposalRow>
    var ballots: map<string, BallotRow>
    var voters: map<VoterId, string>
    var log: seq<Logged>

    ghost var owner: map<string, string>
    ghost var history: seq<Submission>

    ghost function Rows(): Tables
      reads this
    {
      Tables(rounds, proposals, ballots, log)
    }

    ghost predicate Valid()
      reads this
    {
      && arith.Valid()
      && BoxSound(ballots, voters, owner)
      && Remembers(history, ballots, voters)
      && Sound(arith, signs, Rows())
    }

    constructor (did: string, arith: Arithmetic, signs: SignedBallot -> bool)
      requires arith.Valid()
      ensures Valid() && rounds == map[] && history == []
    {
      this.did, this.arith, this.signs := did, arith, signs;
      rounds, proposals, ballots, voters, log := map[], map[], map[], map[], [];
      owner, history := map[], [];
    }

    method CreateRound(input: RoundInput, id: string) returns (r: Result<RoundRow, Refusal>)
      requires Valid()
      modifies this`rounds
      ensures Valid()
      ensures r == if !Settings(input) then Failure(BadRequest)
                   else if id in old(rounds) then Failure(IdInUse) else Success(RowFor(input))
      ensures rounds == if r.Success? then old(rounds)[id := r.value] else old(rounds)
      ensures r.Success? <==>
                && id !in old(rounds) && 0 <= input.pool <= 100_000_000_000_000 && input.opensAt < input.closesAt
                && input.proposeTier.UnwrapOr("T1") in {"T1", "T2", "T3", "T4"}
                && input.voteTier.UnwrapOr("T1") in {"T1", "T2", "T3", "T4"}
                && 1 <= input.voiceBudget.UnwrapOr(1) <= 1_000_000 && 0 < input.matchingCap.UnwrapOr(1)
      ensures r.Success? ==>
                && r.value == RoundRow(input.pool, Some(input.opensAt), Some(input.closesAt), r.value.proposeTier,
                                       r.value.voteTier, r.value.voiceBudget, r.value.matchingCap, Draft, None, None)
                && r.value.proposeTier == input.proposeTier.UnwrapOr("T2")
                && r.value.voteTier == input.voteTier.UnwrapOr("T2")
                && r.value.voiceBudget == input.voiceBudget.UnwrapOr(100)
                && (r.value.matchingCap.Some? <==> input.matchingCap.Some?)
                && (input.matchingCap.Some? ==> r.value.matchingCap.value == input.matchingCap.value)
    {
      hide Sound, BoxSound, Remembers;
      if !Settings(input) { return Failure(BadRequest); }
      if id in rounds { return Failure(IdInUse); }
      RoundAdded(arith, signs, Rows(), id, RowFor(input));
      rounds := rounds[id := RowFor(input)];
      r := Success(RowFor(input));
    }

    method OpenRound(id: string) returns (r: Result<RoundRow, Refusal>)
      requires Valid()
      modifies this`rounds
      ensures Valid()
      ensures r.Success? <==> id in old(rounds) && old(rounds)[id].status == Draft
      ensures r.Success? ==> r.value == old(rounds)[id].(status := Open) && rounds == old(rounds)[id := r.value]
      ensures r.Failure? ==> rounds == old(rounds) && r.error == if id in rounds then WrongStatus else RoundNotFound
    {
      hide BoxSound, Remembers, RowSound, BoxOf, AdjustmentsOf, ProposalIds;
      if id !in rounds { return Failure(RoundNotFound); }
      if rounds[id].status != Draft { return Failure(WrongStatus); }
      var row := rounds[id].(status := Open);
      assert log + [] == log;
      RoundMoved(arith, signs, Rows(), id, row, []);
      rounds := rounds[id := row];
      r := Success(row);
    }

    method CreateProposal(session: Session, round: string, budget: int, id: Id)
      returns (r: Result<ProposalRow, Refusal>)
      requires Valid()
      modifies this`proposals
      ensures Valid()
      ensures r.Success? <==>
                && round in rounds && id !in old(proposals) && 0 < budget <= 100_000_000_000_000
                && (|| rounds[round].status == Open
                    || (rounds[round].status == Draft && "pep:review" in session.authorities))
                && TierOk(session.tier, rounds[round].proposeTier)
      ensures r.Success? ==>
                && r.value == ProposalRow(round, session.subject, false, None)
                && proposals == old(proposals)[id := r.value]
      ensures r.Failure? ==> proposals == old(proposals)
    {
      hide BoxSound, Remembers, Sound;
      if round !in rounds { return Failure(RoundNotFound); }
      var row := rounds[round];
      if !(row.status == Open || (row.status == Draft && "pep:review" in session.authorities)) {
        return Failure(WrongStatus);
      }
      if !TierOk(session.tier, row.proposeTier) { return Failure(TierTooLow); }
      if budget <= 0 || budget > MAX_CENTS { return Failure(BadRequest); }
      if id in proposals { return Failure(IdInUse); }
      var p := ProposalRow(round, session.subject, false, None);
      ProposalAdded(arith, signs, Rows(), id, p);
      proposals := proposals[id := p];
      r := Success(p);
    }

    ghost predicate Ready(session: Session, round: string, body: Option<SignedBallot>, group: Option<GroupCheck>,
                          now: int)
      reads this
    {
      && session.pod == did && (group.None? ==> "round:vote" in session.authorities && session.delegatedFor.None?)
      && round in rounds && rounds[round].status == Open
      && rounds[round].opensAt.UnwrapOr(now) <= now <= rounds[round].closesAt.UnwrapOr(now)
      && body.Some? && var ballot := body.value;
      && ballot.round == round && "did:key:" <= ballot.voterKey && ballot.issuer == ballot.voterKey
      && 8 <= |ballot.nonce| <= 200
      && (forall k :: k in ballot.allocations ==>
            ballot.allocations[k] >= 0 && k in proposals && proposals[k].round == round)
      && Credits(ballot.allocations) <= rounds[round].voiceBudget && signs(ballot)
    }

    lemma ReadyParts(session: Session, round: string, body: Option<SignedBallot>, group: Option<GroupCheck>, now: int)
      ensures Ready(session, round, body, group, now) <==>
                && session.pod == did
                && (group.None? ==> "round:vote" in session.authorities && session.delegatedFor.None?)
                && round in rounds && rounds[round].status == Open && WithinWindow(rounds[round], now)
                && body.Some? && IsBallotFor(body.value, round)
                && body.value.allocations.Keys <= ProposalIds(proposals, round)
                && Credits(body.value.allocations) <= rounds[round].voiceBudget && signs(body.value)
    {
      hide Credits;
      InRound(proposals, round);
      hide ProposalIds;
      if body.Some? {
        assert body.value.allocations.Keys <= ProposalIds(proposals, round) <==>
               forall k :: k in body.value.allocations ==> k in ProposalIds(proposals, round);
      }
    }

    /** A refusal of a ballot gives a reason that is true. */
    ghost predicate Excuses(session: Session, round: string, body: Option<SignedBallot>, group: Option<GroupCheck>,
                            now: int, e: Refusal)
      reads this
    {
      match e
      case PodMismatch => session.pod != did
      case MissingAuthority => group.None? && "round:vote" !in session.authorities
      case DelegatedSession => group.None? && session.delegatedFor.Some?
      case RoundNotFound => round !in rounds
      case RoundNotOpen => round in rounds && (rounds[round].status != Open || !WithinWindow(rounds[round], now))
      case WrongRound => body.Some? && body.value.round != round
      case BadBallot => body.Some? ==> !IsBallotFor(body.value, round)
      case NamesUnknownProposal => body.Some? && !(body.value.allocations.Keys <= ProposalIds(proposals, round))
      case SpendsTooMuch => body.Some? && round in rounds && Credits(body.value.allocations) > rounds[round].voiceBudget
      case BadProof => body.Some? && !signs(body.value)
      case _ => false
    }

    /** The checks that a ballot passes before the voter is looked at. */
    method CheckBallot(session: Session, round: string, body: Option<SignedBallot>, group: Option<GroupCheck>, now: int)
      returns (r: Result<(SignedBallot, nat), Refusal>)
      ensures r.Success? <==> Ready(session, round, body, group, now)
      ensures r.Success? ==> r.value == (body.value, Credits(body.value.allocations))
      ensures r.Failure? ==> Excuses(session, round, body, group, now, r.error)
    {
      hide Credits, IsBallotFor, ProposalIds, TierOk, Ready;
      ReadyParts(session, round, body, group, now);
      if session.pod != did { return Failure(PodMismatch); }
      if group.None? {
        if "round:vote" !in session.authorities { return Failure(MissingAuthority); }
        if session.delegatedFor.Some? { return Failure(DelegatedSession); }
      }
      if round !in rounds { return Failure(RoundNotFound); }
      if rounds[round].status != Open || !WithinWindow(rounds[round], now) { return Failure(RoundNotOpen); }
      var parsed := ParseBallot(body, round);
      if parsed.Failure? { return Failure(parsed.error); }
      var ballot := parsed.value;
      if !(ballot.allocations.Keys <= ProposalIds(proposals, round)) { return Failure(NamesUnknownProposal); }
      var cost := VoiceCost(ballot.allocations);
      if cost > rounds[round].voiceBudget { return Failure(SpendsTooMuch); }
      if !signs(ballot) { return Failure(BadProof); }
      r := Success((ballot, cost));
    }

    /**
     Records a ballot. The voter's earlier ballot, if any, goes; the new one is the last accepted. The
     unique index on voting keys is never violated: `Valid` includes it and holds again afterwards.
     */
    method SubmitBallot(session: Session, round: string, body: Option<SignedBallot>, group: Option<GroupCheck>,
                        now: int, id: string)
      returns (r: Result<BallotResult, Refusal>)
      requires Valid()
      modifies this`ballots, this`voters, this`owner, this`history
      ensures Valid()
      ensures r.Success? ==>
                && old(Ready(session, round, body, group, now))
                && WhoVotes(session, group, rounds[round].voteTier).Success?
      ensures && old(Ready(session, round, body, group, now))
              && WhoVotes(session, group, rounds[round].voteTier).Success? ==>
                var voter := WhoVotes(session, group, rounds[round].voteTier).value;
                var v := (round, VoterHash(round, voter.principal));
                (r.Success? <==>
                   && !KeyTaken(old(ballots), old(voters), round, body.value.voterKey, v.1)
                   && id !in old(ballots) - Previous(old(voters), v))
      ensures r.Success? ==>
                var voter := WhoVotes(session, group, rounds[round].voteTier).value;
                var v := (round, VoterHash(round, voter.principal));
                var published := PublishedBallot(body.value, voter.tier, voter.onBehalfOf);
                && history == old(history) + [Submission(round, voter.principal, published)]
                && voters == old(voters)[v := id]
                && ballots == BallotsAfter(old(ballots), old(voters), v, id,
                                           BallotRow(round, body.value.voterKey, published, now))
                && r.value == BallotResult(id, body.value.voterKey, Credits(body.value.allocations),
                                           rounds[round].voiceBudget, v in old(voters), voter.onBehalfOf)
      ensures r.Failure? ==>
                ballots == old(ballots) && voters == old(voters) && owner == old(owner) && history == old(history)
      ensures r.Failure? ==>
                || old(Excuses(session, round, body, group, now, r.error))
                || (round in rounds && WhoVotes(session, group, rounds[round].voteTier) == Failure(r.error))
                || r.error == VoterKeyInUse || r.error == IdInUse
    {
      hide BoxSound, Remembers, Credits, IsBallotFor, KeyTaken, VoterHash, Sound, WhoVotes, Previous, BallotsAfter,
           Excuses, Ready;
      var checked := CheckBallot(session, round, body, group, now);
      if checked.Failure? { return Failure(checked.error); }
      ReadyParts(session, round, body, group, now);
      var ballot, cost := checked.value.0, checked.value.1;
      var who := WhoVotes(session, group, rounds[round].voteTier);
      if who.Failure? { return Failure(who.error); }
      var voter := who.value;
      var v := (round, VoterHash(round, voter.principal));
      if KeyTaken(ballots, voters, round, ballot.voterKey, v.1) { return Failure(VoterKeyInUse); }
      var replaced := v in voters;
      var kept := ballots - Previous(voters, v);
      if id in kept { return Failure(IdInUse); }
      var row := BallotRow(round, ballot.voterKey, PublishedBallot(ballot, voter.tier, voter.onBehalfOf), now);
      ReadyRow(signs, rounds, proposals, row);
      BoxAfterBallot(ballots, voters, owner, voter.principal, id, row);
      RemembersAfterBallot(history, ballots, voters, owner, voter.principal, id, row);
      BallotStored(arith, signs, Rows(), voters, owner, v, id, row);
      owner := (owner - Previous(voters, v))[id := voter.principal];
      history := history + [Submission(round, voter.principal, row.ballot)];
      ballots := BallotsAfter(ballots, voters, v, id, row);
      voters := voters[v := id];
      r := Success(BallotResult(id, ballot.voterKey, cost, rounds[round].voiceBudget, replaced, voter.onBehalfOf));
    }

    /** The ballots of a round, ordered by voting key. */
    method PublishedBallots(round: string) returns (list: seq<PublishedBallot>)
      ensures list == BoxOf(ballots, round)
      ensures forall i, j :: 0 <= i < j < |list| ==> AtMost(list[i].signed.voterKey, list[j].signed.voterKey)
    {
      hide InOrder, AtMost;
      BoxInOrder(ballots, round);
      KeysInOrder(BallotIds(ballots, round));
      var ids := SortedKeys(BallotIds(ballots, round));
      list := Sorting.Sort(Listed(ballots, ids), ByVoterKey());
    }

    /** What is counted: every ballot is of the tier to vote in the round, and no group has two. */
    lemma CountedFairly(round: string)
      requires Valid() && round in rounds
      ensures forall b :: b in BoxOf(ballots, round) ==> TierOk(Some(b.tier), rounds[round].voteTier)
      ensures var box := BoxOf(ballots, round);
              forall i, j :: 0 <= i < j < |box| && box[i].onBehalfOf.Some? ==> box[i].onBehalfOf != box[j].onBehalfOf
      ensures forall b :: b in BoxOf(ballots, round) && b.onBehalfOf.Some? ==> b.tier == "T2"
    {
      hide BoxOf, RoundSound, TierOk, Credits, VotesNonNegative, ProposalIds, BoxSound, Remembers;
      forall b | b in ballots ensures ballots[b].ballot.signed.voterKey == ballots[b].voterKey {
        assert RowSound(signs, rounds, proposals, ballots[b]);
      }
      GroupVotesOnce(ballots, voters, owner, round);
      forall b | b in BoxOf(ballots, round) ensures TierOk(Some(b.tier), rounds[round].voteTier) {
        var id := FromBox(ballots, round, b);
        assert RowSound(signs, rounds, proposals, ballots[id]);
      }
    }

    method ListProposals(round: string) returns (ids: seq<Id>)
      ensures NoRepeats(ids) && Elements(ids) == ProposalIds(proposals, round)
    {
      hide InOrder, ProposalIds;
      ids := SortedKeys(ProposalIds(proposals, round));
      KeysInOrder(ProposalIds(proposals, round));
    }

    /** Tallies what is stored. In a valid pod this never fails for adjustments that name proposals of the round. */
    method TallyRound(round: string, adjustments: seq<Adjustment>, now: int) returns (r: Result<Tally, TallyError>)
      requires Valid() && round in rounds
      ensures (forall a :: a in adjustments ==> a.proposalId in ProposalIds(proposals, round)) ==> r.Success?
      ensures r.Success? ==>
                IsTally(arith, ProposalIds(proposals, round), BoxOf(ballots, round), rounds[round].pool,
                        rounds[round].matchingCap, adjustments, now, r.value)
    {
      hide BoxSound, Remembers, BoxOf, WellFormed, IsTally, ProposalIds, Elements, NoRepeats, RoundSound, RowSound,
           Justifies;
      var box := PublishedBallots(round);
      var ids := ListProposals(round);
      if forall a :: a in adjustments ==> a.proposalId in ProposalIds(proposals, round) {
        BoxFits(signs, rounds, proposals, ballots, round, adjustments);
      }
      r := ComputeTally(arith, box, ids, rounds[round].pool, rounds[round].matchingCap, adjustments, now);
    }

    /** Closes an open round. Tallying cannot fail, so every open round can be closed. */
    method CloseRound(id: string, now: int) returns (r: Result<Tally, Refusal>)
      requires Valid()
      modifies this`rounds
      ensures Valid()
      ensures r.Success? <==> id in old(rounds) && old(rounds)[id].status == Open
      ensures r.Success? ==> rounds == old(rounds)[id := old(rounds)[id].(status := Tallying, tally := Some(r.value))]
      ensures r.Success? ==>
                IsTally(arith, ProposalIds(proposals, id), BoxOf(ballots, id), old(rounds)[id].pool,
                        old(rounds)[id].matchingCap, [], now, r.value)
      ensures r.Failure? ==> rounds == old(rounds) && r.error == if id in rounds then WrongStatus else RoundNotFound
    {
      hide BoxSound, Remembers, BoxOf, IsTally, ProposalIds, RowSound, AdjustmentsOf, WithinPool;
      if id !in rounds { return Failure(RoundNotFound); }
      var row := rounds[id];
      if row.status != Open { return Failure(WrongStatus); }
      var t := TallyRound(id, [], now);
      UnadjustedTallyIsSound(arith, ProposalIds(proposals, id), BoxOf(ballots, id), row.pool, row.matchingCap, now,
                             t.value);
      NamesInTally(arith, ProposalIds(proposals, id), BoxOf(ballots, id), row.pool, row.matchingCap, [], now, t.value);
      var row' := row.(status := Tallying, tally := Some(t.value));
      assert log + [] == log;
      RoundMoved(arith, signs, Rows(), id, row', []);
      rounds := rounds[id := row'];
      r := Success(t.value);
    }

    /** The matching of a proposal in the stored tally of a round. */
    ghost function MatchingOf(round: string, id: Id): int
      reads this
      requires round in rounds && rounds[round].tally.Some?
    {
      var e := FindEntry(rounds[round].tally.value.proposals, id);
      if e.Some? then e.value.matching else 0
    }

    ghost predicate Adjustable(id: string, proposalId: Id, delta: int, reason: string)
      reads this
    {
      && id in rounds && rounds[id].status == Tallying
      && proposalId in proposals && proposals[proposalId].round == id
      && delta != 0 && -100_000_000_000_000 <= delta <= 100_000_000_000_000 && |reason| >= 3
    }

    /**
     Logs an adjustment and tallies again. It is taken exactly when it leaves the proposal's matching
     non-negative and the total within the pool, judged by the tally before it.
     */
    method AddAdjustment(steward: string, id: string, proposalId: Id, delta: int, reason: string, now: int)
      returns (r: Result<Tally, Refusal>)
      requires Valid()
      modifies this`rounds, this`log
      ensures Valid()
      ensures old(Adjustable(id, proposalId, delta, reason)) ==> old(rounds)[id].tally.Some?
      ensures r.Success? <==>
                && old(Adjustable(id, proposalId, delta, reason))
                && old(MatchingOf(id, proposalId)) + delta >= 0
                && old(rounds)[id].tally.value.totalMatching + delta <= old(rounds)[id].pool
      ensures r.Success? ==>
                && log == old(log) + [Logged(id, Adjustment(proposalId, delta, Shortened(reason), steward, now))]
                && var kept := log[|log| - 1].adjustment.reason;
                && kept <= reason && |kept| == (if |reason| <= 2000 then |reason| else 2000)
                && rounds == old(rounds)[id := old(rounds)[id].(tally := Some(r.value))]
                && MatchingOf(id, proposalId) == old(MatchingOf(id, proposalId)) + delta
                && r.value.totalMatching == old(rounds)[id].tally.value.totalMatching + delta
      ensures r.Failure? ==> rounds == old(rounds) && log == old(log)
      ensures r == Failure(NegativeMatching) ==>
                old(Adjustable(id, proposalId, delta, reason)) && MatchingOf(id, proposalId) + delta < 0
      ensures r == Failure(OverPool) ==>
                && old(Adjustable(id, proposalId, delta, reason))
                && rounds[id].tally.value.totalMatching + delta > rounds[id].pool
    {
      hide BoxSound, Remembers, BoxOf, IsTally, ProposalIds, RowSound, AdjustmentsOf, WithinPool, FindEntry,
           WellFormed, Anchored;
      if id !in rounds { return Failure(RoundNotFound); }
      var row := rounds[id];
      InRound(proposals, id);
      if row.status != Tallying { return Failure(WrongStatus); }
      if proposalId !in ProposalIds(proposals, id) { return Failure(NotAProposal); }
      if delta == 0 || delta > MAX_CENTS || -delta > MAX_CENTS { return Failure(BadRequest); }
      if |reason| < 3 { return Failure(ReasonRequired); }
      var a := Adjustment(proposalId, delta, Shortened(reason), steward, now);
      var before := AdjustmentsOf(log, id);
      ghost var ids, box := ProposalIds(proposals, id), BoxOf(ballots, id);
      ghost var was := row.tally.value;
      AdjustmentsKnown(arith, ids, box, row, before, a);
      var t := TallyRound(id, before + [a], now);
      NamesInTally(arith, ids, box, row.pool, row.matchingCap, before + [a], now, t.value);
      AdjustmentMoves(arith, ids, box, row.pool, row.matchingCap, before, a, was.computedAt, now, was, t.value);
      var entry := FindEntry(t.value.proposals, proposalId);
      if entry.value.matching < 0 { return Failure(NegativeMatching); }
      if t.value.totalMatching > t.value.pool { return Failure(OverPool); }
      var row' := row.(tally := Some(t.value));
      AdjustmentLogged(log, Logged(id, a), id);
      RoundMoved(arith, signs, Rows(), id, row', [Logged(id, a)]);
      log := log + [Logged(id, a)];
      rounds := rounds[id := row'];
      r := Success(t.value);
    }

    /**
     Publishes a tallied round. Neither a missing nor a stale tally can occur: every tallied round can be
     published.
     */
    method PublishRound(id: string, now: int) returns (r: Result<RoundRow, Refusal>)
      requires Valid()
      modifies this`rounds, this`proposals
      ensures Valid()
      ensures r.Success? <==> id in old(rounds) && old(rounds)[id].status == Tallying
      ensures r.Success? ==>
                && old(rounds)[id].tally.Some?
                && r.value == old(rounds)[id].(status := Published, publishedAt := Some(now))
      ensures r.Success? ==> rounds == old(rounds)[id := r.value]
      ensures r.Success? ==>
                IsPublished(old(proposals), proposals, ProposalIds(old(proposals), id), old(rounds)[id].tally.value)
      ensures r.Success? ==>
                && proposals.Keys == old(proposals).Keys
                && forall p :: p in proposals ==> var row := proposals[p];
                     if old(proposals)[p].round != id then row == old(proposals)[p]
                     else
                       && row.round == id && row.lead == old(proposals)[p].lead
                       && row.result.Some? && row.result.value.id == p
                       && row.result.value in old(rounds)[id].tally.value.proposals
                       && (row.funded <==> row.result.value.matching > 0)
      ensures r.Failure? ==>
                && rounds == old(rounds) && proposals == old(proposals)
                && r.error == if id in rounds then WrongStatus else RoundNotFound
    {
      hide BoxSound, Remembers, BoxOf, IsTally, RowSound, AdjustmentsOf, WithinPool, FindEntry, WellFormed, Anchored,
           NoRepeats, Elements, IsPublished;
      if id !in rounds { return Failure(RoundNotFound); }
      var row := rounds[id];
      if row.status != Tallying { return Failure(WrongStatus); }
      if row.tally.None? { return Failure(NoTally); }
      var t := row.tally.value;
      var ids := ListProposals(id);
      ElementsMembers(ids);
      EveryProposalHasEntry(arith, row, ProposalIds(proposals, id), BoxOf(ballots, id), AdjustmentsOf(log, id));
      var rows := AnnounceAll(proposals, ids, t);
      if rows.None? { return Failure(StaleTally); }
      StillInRound(proposals, rows.value, ProposalIds(proposals, id), t);
      PublishedShows(proposals, rows.value, id, t);
      var row' := row.(status := Published, publishedAt := Some(now));
      assert log + [] == log;
      RoundMoved(arith, signs, Rows(), id, row', []);
      ProposalsRewritten(arith, signs, Rows().(rounds := rounds[id := row']), rows.value);
      rounds := rounds[id := row'];
      proposals := rows.value;
      r := Success(row');
    }

    /** Any round whose tally can be seen passes the independent check, whatever happened before. */
    method VerifyRound(id: string) returns (r: Result<seq<Problem>, Refusal>)
      requires Valid()
      ensures r.Success? <==> id in rounds && (rounds[id].status == Tallying || rounds[id].status == Published)
      ensures r.Success? ==> r.value == []
      ensures r.Failure? ==> r.error == if id in rounds then TallyNotReady else RoundNotFound
    {
      hide BoxOf, IsTally, AdjustmentsOf, WithinPool, WellFormed, Anchored, NoRepeats, Elements, Checks, BoxSound,
           Remembers, RowSound, ProposalIds, Arithmetic.Valid, RoundSound;
      if id !in rounds { return Failure(RoundNotFound); }
      var row := rounds[id];
      if row.status == Tallying || row.status == Published {
        SoundRoundChecks(arith, signs, Rows(), voters, owner, id);
      }
      if !(row.status == Tallying || row.status == Published) || row.tally.None? { return Failure(TallyNotReady); }
      var box := PublishedBallots(id);
      var ids := ListProposals(id);
      var problems := VerifyAgainst(arith, signs, box, ids, row.tally.value, row, AdjustmentsOf(log, id), id);
      r := Success(problems);
    }
  }
}
