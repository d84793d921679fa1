/**
 The rows of grants rounds and what holds of them: one ballot for each voter of a round, the last one
 accepted, bound to the voter by a digest that is never published.
 */
module BallotBox {
  import opened Wrappers
  import opened Strings
  import opened Allocation
  import opened Tally
  import opened Tiers
  import Sorting

  // ----- rows -----

  datatype Status = Draft | Open | Tallying | Published

  datatype RoundRow = RoundRow(pool: nat, opensAt: Option<int>, closesAt: Option<int>, proposeTier: string,
                               voteTier: string, voiceBudget: nat, matchingCap: Option<nat>, status: Status,
                               tally: Option<Tally>, publishedAt: Option<int>)

  datatype ProposalRow = ProposalRow(round: string, lead: string, funded: bool, result: Option<Entry>)

  datatype BallotRow = BallotRow(round: string, voterKey: string, ballot: PublishedBallot, createdAt: int)

  /** A digest of a text that no other text shares. */
  datatype Hash = HashOf(text: string)

  type VoterId = (string, Hash)

  datatype Logged = Logged(round: string, adjustment: Adjustment)

  /** An accepted submission, for the record of what happened. */
  datatype Submission = Submission(round: string, principal: string, ballot: PublishedBallot)

  const GROUP_TIER := "T2"

  // ----- voters -----

  /** The digest of the round and the voter, written one after the other. */
  function VoterHash(round: string, principal: string): Hash { HashOf(round + principal) }

  /**
   Within one round the digest identifies the voter, although nothing separates its two parts; and it does not give
   away who voted in another round.
   */
  lemma VoterHashIdentifies(round: string, p: string, q: string)
    ensures VoterHash(round, p) == VoterHash(round, q) <==> p == q
    ensures forall other, r :: VoterHash(round, p) == VoterHash(other, r) <==> round + p == other + r
  {
    assert (round + p)[|round|..] == p && (round + q)[|round|..] == q;
  }

  function ProposalIds(proposals: map<Id, ProposalRow>, round: string): set<Id> {
    set p | p in proposals && proposals[p].round == round
  }

  function BallotIds(ballots: map<string, BallotRow>, round: string): set<string> {
    set b | b in ballots && ballots[b].round == round
  }

  function Listed(ballots: map<string, BallotRow>, ids: seq<string>): seq<PublishedBallot>
    requires forall id :: id in ids ==> id in ballots
  {
    seq(|ids|, i requires 0 <= i < |ids| => ballots[ids[i]].ballot)
  }

  function ByVoterKey(): (PublishedBallot, PublishedBallot) -> bool {
    (a: PublishedBallot, b: PublishedBallot) => AtMost(a.signed.voterKey, b.signed.voterKey)
  }

  /** The ballots of a round, ordered by voting key. */
  ghost function BoxOf(ballots: map<string, BallotRow>, round: string): seq<PublishedBallot> {
    KeysInOrder(BallotIds(ballots, round));
    Sorting.Sort(Listed(ballots, InOrder(BallotIds(ballots, round))), ByVoterKey())
  }

  /** The published list is in the order of the voting keys. */
  lemma BoxInOrder(ballots: map<string, BallotRow>, round: string)
    ensures var box := BoxOf(ballots, round);
            forall i, j :: 0 <= i < j < |box| ==> AtMost(box[i].signed.voterKey, box[j].signed.voterKey)
  {
    hide Before;
    forall a: PublishedBallot, b: PublishedBallot ensures ByVoterKey()(a, b) || ByVoterKey()(b, a) {
      BeforeTotal(a.signed.voterKey, b.signed.voterKey);
    }
    forall a: PublishedBallot, b: PublishedBallot, c: PublishedBallot | ByVoterKey()(a, b) && ByVoterKey()(b, c)
      ensures ByVoterKey()(a, c)
    {
      if a.signed.voterKey != b.signed.voterKey && b.signed.voterKey != c.signed.voterKey {
        BeforeTransitive(a.signed.voterKey, b.signed.voterKey, c.signed.voterKey);
      }
    }
    KeysInOrder(BallotIds(ballots, round));
    Sorting.SortSorts(Listed(ballots, InOrder(BallotIds(ballots, round))), ByVoterKey());
    hide Sorting.Sort;
    var box := BoxOf(ballots, round);
    assert forall i, j :: 0 <= i < j < |box| ==> ByVoterKey()(box[i], box[j]);
  }

  function AdjustmentsOf(log: seq<Logged>, round: string): seq<Adjustment> {
    if log == [] then []
    else
      var last := log[|log| - 1];
      AdjustmentsOf(log[..|log| - 1], round) + if last.round == round then [last.adjustment] else []
  }

  /** The last ballot accepted from a voter in a round. */
  ghost function Last(history: seq<Submission>, round: string, principal: string): Option<PublishedBallot> {
    if history == [] then None
    else
      var s := history[|history| - 1];
      if s.round == round && s.principal == principal then Some(s.ballot)
      else Last(history[..|history| - 1], round, principal)
  }

  ghost function Stored(ballots: map<string, BallotRow>, voters: map<VoterId, string>, round: string, principal: string)
    : Option<PublishedBallot>
  {
    var v := (round, VoterHash(round, principal));
    if v in voters && voters[v] in ballots then Some(ballots[voters[v]].ballot) else None
  }

  // ----- invariants -----

  /** A ballot cast for a group is published under that group's name, and with the tier of groups. */
  predicate SpeaksFor(b: PublishedBallot, principal: string) {
    b.onBehalfOf.Some? ==> b.onBehalfOf.value == principal && b.tier == GROUP_TIER
  }

  /** Voter records and ballots are in bijection, and voting keys are distinct within a round. */
  ghost predicate BoxSound(ballots: map<string, BallotRow>, voters: map<VoterId, string>, owner: map<string, string>) {
    && owner.Keys == ballots.Keys
    && (forall b :: b in ballots ==> SpeaksFor(ballots[b].ballot, owner[b]))
    && (forall b :: b in ballots ==> (ballots[b].round, VoterHash(ballots[b].round, owner[b])) in voters
                                     && voters[(ballots[b].round, VoterHash(ballots[b].round, owner[b]))] == b)
    && (forall v ::
          v in voters ==>
            && voters[v] in ballots
            && v == (ballots[voters[v]].round, VoterHash(ballots[voters[v]].round, owner[voters[v]])))
    && (forall a, b |
          && a in ballots && b in ballots
          && ballots[a].round == ballots[b].round && ballots[a].voterKey == ballots[b].voterKey
          :: a == b)
  }

  ghost predicate Remembers(history: seq<Submission>, ballots: map<string, BallotRow>, voters: map<VoterId, string>) {
    forall round, principal :: Last(history, round, principal) == Stored(ballots, voters, round, principal)
  }

  ghost predicate VotesNonNegative(votes: map<Id, int>) { forall k :: k in votes ==> votes[k] >= 0 }

  /**
   A stored ballot is signed, is for its round, names only its proposals, is within its budget and of the tier
   to vote.
   */
  ghost predicate RowSound(signs: SignedBallot -> bool, rounds: map<string, RoundRow>, proposals: map<Id, ProposalRow>,
                           row: BallotRow)
  {
    && row.round in rounds && rounds[row.round].status != Draft
    && row.ballot.signed.round == row.round && row.ballot.signed.voterKey == row.voterKey
    && signs(row.ballot.signed)
    && VotesNonNegative(row.ballot.signed.allocations)
    && row.ballot.signed.allocations.Keys <= ProposalIds(proposals, row.round)
    && Credits(row.ballot.signed.allocations) <= rounds[row.round].voiceBudget
    && TierOk(Some(row.ballot.tier), rounds[row.round].voteTier)
  }

  /** A round has a tally exactly once it has been closed, and it is the tally of what is stored. */
  ghost predicate RoundSound(arith: Arithmetic, r: RoundRow, ids: set<Id>, box: seq<PublishedBallot>,
                             adjustments: seq<Adjustment>)
  {
    if r.status == Draft || r.status == Open then r.tally == None && adjustments == []
    else
      && r.tally.Some?
      && IsTally(arith, ids, box, r.pool, r.matchingCap, adjustments, r.tally.value.computedAt, r.tally.value)
      && WithinPool(r.tally.value)
  }

  ghost predicate Anchored(rounds: map<string, RoundRow>, proposals: map<Id, ProposalRow>, log: seq<Logged>) {
    && (forall p :: p in proposals ==> proposals[p].round in rounds)
    && (forall i :: 0 <= i < |log| ==> log[i].round in rounds)
  }

  // ----- facts about the tables -----

  lemma BoxPermutes(ballots: map<string, BallotRow>, round: string) returns (order: seq<string>)
    ensures forall id :: id in order <==> id in BallotIds(ballots, round)
    ensures NoRepeats(order)
    ensures multiset(BoxOf(ballots, round)) == multiset(Listed(ballots, order))
  {
    order := InOrder(BallotIds(ballots, round));
    KeysInOrder(BallotIds(ballots, round));
    Sorting.SortPermutes(Listed(ballots, order), ByVoterKey());
  }

  /** The box holds the ballot of every row of the round. */
  lemma IntoBox(ballots: map<string, BallotRow>, id: string)
    requires id in ballots
    ensures ballots[id].ballot in BoxOf(ballots, ballots[id].round)
  {
    hide BoxOf;
    var round := ballots[id].round;
    var order := BoxPermutes(ballots, round);
    assert id in BallotIds(ballots, round);
    var i :| 0 <= i < |order| && order[i] == id;
    var list := Listed(ballots, order);
    assert list[i] in multiset(list);
    assert ballots[id].ballot in multiset(BoxOf(ballots, round));
  }

  /** The box holds nothing else. */
  lemma FromBox(ballots: map<string, BallotRow>, round: string, b: PublishedBallot) returns (id: string)
    requires b in BoxOf(ballots, round)
    ensures id in ballots && ballots[id].round == round && ballots[id].ballot == b
  {
    hide BoxOf;
    var order := BoxPermutes(ballots, round);
    var list := Listed(ballots, order);
    assert b in multiset(BoxOf(ballots, round));
    assert b in multiset(list);
    var i :| 0 <= i < |list| && list[i] == b;
    id := order[i];
    assert id in order;
  }

  /** The box of a round depends on the rows of that round only. */
  lemma BoxIsLocal(ballots: map<string, BallotRow>, ballots': map<string, BallotRow>, round: string)
    requires BallotIds(ballots, round) == BallotIds(ballots', round)
    requires forall b :: b in BallotIds(ballots, round) ==> ballots[b] == ballots'[b]
    ensures BoxOf(ballots, round) == BoxOf(ballots', round)
  {
    hide InOrder, Sorting.Sort;
    KeysInOrder(BallotIds(ballots, round));
    assert Listed(ballots, InOrder(BallotIds(ballots, round))) == Listed(ballots', InOrder(BallotIds(ballots, round)));
  }

  lemma {:induction false} NoAdjustments(log: seq<Logged>, round: string)
    requires forall i :: 0 <= i < |log| ==> log[i].round != round
    ensures AdjustmentsOf(log, round) == []
  {
    if log != [] { NoAdjustments(log[..|log| - 1], round); }
  }

  lemma AdjustmentLogged(log: seq<Logged>, e: Logged, round: string)
    ensures AdjustmentsOf(log + [e], round) == AdjustmentsOf(log, round)
                                                 + if e.round == round then [e.adjustment] else []
  {
    assert (log + [e])[..|log|] == log;
  }

  lemma SubmissionRecorded(history: seq<Submission>, s: Submission, round: string, principal: string)
    ensures Last(history + [s], round, principal)
            == if s.round == round && s.principal == principal then Some(s.ballot) else Last(history, round, principal)
  {
    assert (history + [s])[..|history|] == history;
  }

  // ----- one more ballot -----

  /** Some other voter of any round has cast a ballot with this key in this round. */
  predicate KeyTaken(ballots: map<string, BallotRow>, voters: map<VoterId, string>, round: string, key: string,
                     hash: Hash)
  {
    exists v ::
      && v in voters && voters[v] in ballots && ballots[voters[v]].round == round && ballots[voters[v]].voterKey == key
      && v.1 != hash
  }

  /** In a sound box, a voter's key is taken exactly when somebody else has a ballot of the round with it. */
  lemma KeyTakenIff(ballots: map<string, BallotRow>, voters: map<VoterId, string>, owner: map<string, string>,
                    round: string, key: string, principal: string)
    requires BoxSound(ballots, voters, owner)
    ensures KeyTaken(ballots, voters, round, key, VoterHash(round, principal)) <==>
              exists b :: b in ballots && ballots[b].round == round && ballots[b].voterKey == key
                          && owner[b] != principal
  {
    if KeyTaken(ballots, voters, round, key, VoterHash(round, principal)) {
      var v :| v in voters && voters[v] in ballots && ballots[voters[v]].round == round
               && ballots[voters[v]].voterKey == key && v.1 != VoterHash(round, principal);
      assert voters[v] in ballots && owner[voters[v]] != principal;
    }
    if b :| b in ballots && ballots[b].round == round && ballots[b].voterKey == key && owner[b] != principal {
      VoterHashIdentifies(round, owner[b], principal);
      hide VoterHash;
      assert (round, VoterHash(round, owner[b])) in voters;
    }
  }

  function Previous(voters: map<VoterId, string>, v: VoterId): set<string> {
    if v in voters then {voters[v]} else {}
  }

  function BallotsAfter(ballots: map<string, BallotRow>, voters: map<VoterId, string>, v: VoterId, id: string,
                        row: BallotRow): map<string, BallotRow>
  {
    (ballots - Previous(voters, v))[id := row]
  }

  lemma OtherKey(ballots: map<string, BallotRow>, voters: map<VoterId, string>, owner: map<string, string>, v: VoterId,
                 key: string, b: string)
    requires BoxSound(ballots, voters, owner) && !KeyTaken(ballots, voters, v.0, key, v.1)
    requires b in ballots - Previous(voters, v)
    ensures ballots[b].round != v.0 || ballots[b].voterKey != key
  {
    hide VoterHash;
    var w := (ballots[b].round, VoterHash(ballots[b].round, owner[b]));
    assert w in voters && voters[w] == b;
  }

  lemma BoxAfterBallot(ballots: map<string, BallotRow>, voters: map<VoterId, string>, owner: map<string, string>,
                       principal: string, id: string, row: BallotRow)
    requires BoxSound(ballots, voters, owner) && SpeaksFor(row.ballot, principal)
    requires !KeyTaken(ballots, voters, row.round, row.voterKey, VoterHash(row.round, principal))
    requires id !in ballots - Previous(voters, (row.round, VoterHash(row.round, principal)))
    ensures var v := (row.round, VoterHash(row.round, principal));
            BoxSound(BallotsAfter(ballots, voters, v, id, row), voters[v := id],
                     (owner - Previous(voters, v))[id := principal])
  {
    var v := (row.round, VoterHash(row.round, principal));
    var ballots', voters', owner' :=
        BallotsAfter(ballots, voters, v, id, row), voters[v := id], (owner - Previous(voters, v))[id := principal];
    forall b | b in ballots' ensures SpeaksFor(ballots'[b].ballot, owner'[b]) {
      hide VoterHash, KeyTaken, SpeaksFor;
      if b != id { assert b in ballots; }
    }
    forall b | b in ballots'
      ensures (ballots'[b].round, VoterHash(ballots'[b].round, owner'[b])) in voters'
      ensures voters'[(ballots'[b].round, VoterHash(ballots'[b].round, owner'[b]))] == b
    {
      hide VoterHash, KeyTaken;
      if b != id {
        assert b in ballots && ballots'[b] == ballots[b] && owner'[b] == owner[b];
      }
    }
    forall w | w in voters'
      ensures voters'[w] in ballots'
      ensures w == (ballots'[voters'[w]].round, VoterHash(ballots'[voters'[w]].round, owner'[voters'[w]]))
    {
      hide VoterHash, KeyTaken;
      if w != v {
        assert w in voters && voters[w] in ballots;
        assert v in voters ==> voters[v] != voters[w];
      }
    }
    forall a, b | && a in ballots' && b in ballots' && ballots'[a].round == ballots'[b].round
                  && ballots'[a].voterKey == ballots'[b].voterKey
      ensures a == b
    {
      hide VoterHash;
      if a != id && b == id { OtherKey(ballots, voters, owner, v, row.voterKey, a); }
      if b != id && a == id { OtherKey(ballots, voters, owner, v, row.voterKey, b); }
    }
  }

  lemma RemembersAfterBallot(history: seq<Submission>, ballots: map<string, BallotRow>, voters: map<VoterId, string>,
                             owner: map<string, string>, principal: string, id: string, row: BallotRow)
    requires Remembers(history, ballots, voters) && BoxSound(ballots, voters, owner)
    requires id !in ballots - Previous(voters, (row.round, VoterHash(row.round, principal)))
    ensures var v := (row.round, VoterHash(row.round, principal));
            Remembers(history + [Submission(row.round, principal, row.ballot)],
                      BallotsAfter(ballots, voters, v, id, row), voters[v := id])
  {
    var s := Submission(row.round, principal, row.ballot);
    var v := (row.round, VoterHash(row.round, principal));
    var ballots', voters' := BallotsAfter(ballots, voters, v, id, row), voters[v := id];
    forall r, p ensures Last(history + [s], r, p) == Stored(ballots', voters', r, p) {
      SubmissionRecorded(history, s, r, p);
      VoterHashIdentifies(row.round, p, principal);
      hide VoterHash;
      var w := (r, VoterHash(r, p));
      if w != v && w in voters {
        assert voters'[w] == voters[w];
        assert v in voters ==> voters[v] != voters[w];
      }
    }
  }

  ghost predicate DistinctKeys(box: seq<PublishedBallot>) {
    forall i, j :: 0 <= i < j < |box| ==> box[i].signed.voterKey != box[j].signed.voterKey
  }

  lemma BoxKeysDistinct(ballots: map<string, BallotRow>, voters: map<VoterId, string>, owner: map<string, string>,
                        round: string)
    requires BoxSound(ballots, voters, owner)
    requires forall b :: b in ballots ==> ballots[b].ballot.signed.voterKey == ballots[b].voterKey
    ensures DistinctKeys(BoxOf(ballots, round))
  {
    hide BoxOf, VoterHash;
    var order := BoxPermutes(ballots, round);
    var list := Listed(ballots, order);
    forall i, j | 0 <= i < j < |list| ensures list[i].signed.voterKey != list[j].signed.voterKey {
      assert order[i] in order && order[j] in order && order[i] != order[j];
      assert ballots[order[i]].voterKey != ballots[order[j]].voterKey;
    }
    NoRepeatsCount(list);
    NoRepeatsCount(BoxOf(ballots, round));
    var box := BoxOf(ballots, round);
    forall i, j | 0 <= i < j < |box| ensures box[i].signed.voterKey != box[j].signed.voterKey {
      var a := FromBox(ballots, round, box[i]);
      var b := FromBox(ballots, round, box[j]);
    }
  }

  /**
   A group has one vote: no two ballots of a round are cast in the name of the same group, and all group votes are of
   one tier.
   */
  lemma GroupVotesOnce(ballots: map<string, BallotRow>, voters: map<VoterId, string>, owner: map<string, string>,
                       round: string)
    requires BoxSound(ballots, voters, owner)
    requires forall b :: b in ballots ==> ballots[b].ballot.signed.voterKey == ballots[b].voterKey
    ensures var box := BoxOf(ballots, round);
            forall i, j :: 0 <= i < j < |box| && box[i].onBehalfOf.Some? ==> box[i].onBehalfOf != box[j].onBehalfOf
    ensures forall b :: b in BoxOf(ballots, round) && b.onBehalfOf.Some? ==> b.tier == "T2"
  {
    hide BoxOf, VoterHash;
    var box := BoxOf(ballots, round);
    BoxKeysDistinct(ballots, voters, owner, round);
    forall i, j | 0 <= i < j < |box| && box[i].onBehalfOf.Some? ensures box[i].onBehalfOf != box[j].onBehalfOf {
      var a := FromBox(ballots, round, box[i]);
      var b := FromBox(ballots, round, box[j]);
      assert SpeaksFor(ballots[a].ballot, owner[a]) && SpeaksFor(ballots[b].ballot, owner[b]);
    }
    forall b | b in box && b.onBehalfOf.Some? ensures b.tier == "T2" {
      var id := FromBox(ballots, round, b);
      assert SpeaksFor(ballots[id].ballot, owner[id]);
    }
  }

  /** A sound box can always be tallied. */
  lemma BoxFits(signs: SignedBallot -> bool, rounds: map<string, RoundRow>, proposals: map<Id, ProposalRow>,
                ballots: map<string, BallotRow>, round: string, adjustments: seq<Adjustment>)
    requires forall b :: b in ballots ==> RowSound(signs, rounds, proposals, ballots[b])
    requires forall a :: a in adjustments ==> a.proposalId in ProposalIds(proposals, round)
    ensures WellFormed(ProposalIds(proposals, round), BoxOf(ballots, round), adjustments)
  {
    hide BoxOf, Credits;
    forall b | b in BoxOf(ballots, round)
      ensures b.signed.allocations.Keys <= ProposalIds(proposals, round) && VotesNonNegative(b.signed.allocations)
    {
      var id := FromBox(ballots, round, b);
      assert RowSound(signs, rounds, proposals, ballots[id]);
    }
  }

  /** The ballot is the last one accepted from some voter of the round. */
  ghost predicate LastOfSomeone(history: seq<Submission>, round: string, b: PublishedBallot) {
    exists p :: Last(history, round, p) == Some(b)
  }

  lemma StoredRow(history: seq<Submission>, ballots: map<string, BallotRow>, voters: map<VoterId, string>,
                  owner: map<string, string>, round: string, p: string, b: PublishedBallot) returns (id: string)
    requires BoxSound(ballots, voters, owner) && Remembers(history, ballots, voters)
    requires Last(history, round, p) == Some(b)
    ensures id in ballots && ballots[id].round == round && ballots[id].ballot == b && owner[id] == p
  {
    hide VoterHash, Last;
    assert Stored(ballots, voters, round, p) == Some(b);
    id := voters[(round, VoterHash(round, p))];
    VoterHashIdentifies(round, p, owner[id]);
  }

  /** The box that is tallied holds exactly the last accepted ballots, and no ballot stands for two voters. */
  lemma BoxIsLastBallots(history: seq<Submission>, ballots: map<string, BallotRow>, voters: map<VoterId, string>,
                         owner: map<string, string>, round: string)
    requires BoxSound(ballots, voters, owner) && Remembers(history, ballots, voters)
    requires forall b :: b in ballots ==> ballots[b].ballot.signed.voterKey == ballots[b].voterKey
    ensures forall b :: b in BoxOf(ballots, round) <==> LastOfSomeone(history, round, b)
    ensures forall b, p, q :: Last(history, round, p) == Some(b) && Last(history, round, q) == Some(b) ==> p == q
  {
    hide BoxOf, VoterHash, Last;
    forall b | b in BoxOf(ballots, round) ensures LastOfSomeone(history, round, b) {
      var id := FromBox(ballots, round, b);
      assert Last(history, round, owner[id]) == Stored(ballots, voters, round, owner[id]) == Some(b);
    }
    forall b, p | Last(history, round, p) == Some(b) ensures b in BoxOf(ballots, round) {
      var id := StoredRow(history, ballots, voters, owner, round, p, b);
      IntoBox(ballots, id);
    }
    forall b, p, q | Last(history, round, p) == Some(b) && Last(history, round, q) == Some(b) ensures p == q {
      var i := StoredRow(history, ballots, voters, owner, round, p, b);
      var j := StoredRow(history, ballots, voters, owner, round, q, b);
    }
  }
}
