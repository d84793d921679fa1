/**
 The policy enforcement point. The trust index recommends a tier, governance sets a floor, and `Refresh`
 issues authority at the higher of the two; under the usual policy a lower tier only ever takes effect
 when the authority already issued has expired or been revoked.
 */
module Pep {
  import opened Wrappers
  import opened Tiers
  import StatusList

  const DAY_MS := 86_400_000
  const CEILING_DAYS := 90
  const SAFETY_MS := 60_000
  const WINDOW_MS := 7 * DAY_MS

  /** The vocabulary of actions. */
  datatype Action = EventAttend | VrcExchange | VecIssue | RoundComment | CreditAccount | CreditLimitL1
    | VecIssueWeighted | RoundVote | RoundPropose | CreditLimitL2 | VicIssue | GroupCreate
    | EventConvene | VwcIssue | PepReview | RegistryPropose | CreditLimitL3
    | VicIssueUnlimited | VmcGrant | DidWitness | PayReceive

  datatype Policy = Policy(validityMs: int, atExpiryOnly: bool, witnessTier: Option<Tier>)

  datatype Member = Member(tier: Option<Tier>, granted: bool, acked: bool, effectiveTier: Tier,
                           effectiveUntil: Option<int>)

  datatype Row = Row(id: nat, subject: string, actions: set<Action>, tier: Option<Tier>, digest: string, issuedAt: int,
                     validUntil: int, revokedAt: Option<int>)

  datatype Decision = Decision(subject: string, previous: Option<Tier>, next: Tier, author: string)

  datatype Refreshed = Refreshed(tier: Tier, issued: bool, vacs: seq<nat>)

  datatype Refusal = NoMembership | NoValidity | NotFound | ReasonMissing | TierProtected

  // ----- the policy -----

  function TierAdds(t: Tier): set<Action> {
    match t as int
    case 1 => {EventAttend, VrcExchange, VecIssue, RoundComment, CreditAccount, CreditLimitL1}
    case 2 => {VecIssueWeighted, RoundVote, RoundPropose, CreditLimitL2, VicIssue, GroupCreate}
    case 3 => {EventConvene, VwcIssue, PepReview, RegistryPropose, CreditLimitL3}
    case 4 => {VicIssueUnlimited, VmcGrant, DidWitness}
    case _ => {}
  }

  function DefaultActions(t: Tier): set<Action> {
    if t == 0 then {} else DefaultActions(t - 1) + TierAdds(t)
  }

  function TierActions(p: Policy, t: Tier): set<Action> {
    DefaultActions(t) + if t == 2 && p.witnessTier.Some? && p.witnessTier.value <= 2 then {VwcIssue} else {}
  }

  lemma {:induction false} DefaultActionsGrow(t: Tier, u: Tier)
    requires t <= u
    ensures DefaultActions(t) <= DefaultActions(u)
  {
    if t < u { DefaultActionsGrow(t, u - 1); }
  }

  lemma {:induction false} NoneReceives(t: Tier)
    ensures PayReceive !in DefaultActions(t)
  {
    if t > 0 { NoneReceives(t - 1); }
  }

  lemma FirstAndThird()
    ensures EventAttend in DefaultActions(1) && VwcIssue in DefaultActions(3) && DefaultActions(0) == {}
  {
    assert EventAttend in TierAdds(1) && VwcIssue in TierAdds(3);
  }

  /**
   Higher tiers may do everything lower tiers may, hook included; only the first tier may do nothing;
   receiving payments comes with none.
   */
  lemma TiersAreCumulative(p: Policy, t: Tier, u: Tier)
    requires t <= u
    ensures TierActions(p, t) <= TierActions(p, u)
    ensures TierActions(p, t) == {} <==> t == 0
    ensures PayReceive !in TierActions(p, t)
  {
    FirstAndThird();
    hide TierAdds;
    DefaultActionsGrow(t, u);
    NoneReceives(t);
    if t >= 1 { DefaultActionsGrow(1, t); }
    if u >= 3 { DefaultActionsGrow(3, u); }
    hide DefaultActions;
  }

  lemma AddedByTier(t: Tier, a: Action)
    ensures a in TierAdds(t) <==>
              || (t == 1 && a in {EventAttend, VrcExchange, VecIssue, RoundComment, CreditAccount, CreditLimitL1})
              || (t == 2 && a in {VecIssueWeighted, RoundVote, RoundPropose, CreditLimitL2, VicIssue, GroupCreate})
              || (t == 3 && a in {EventConvene, VwcIssue, PepReview, RegistryPropose, CreditLimitL3})
              || (t == 4 && a in {VicIssueUnlimited, VmcGrant, DidWitness})
  {
  }

  lemma {:induction false} DefaultsByTier(t: Tier, a: Action)
    ensures a in DefaultActions(t) <==>
              || (t >= 1 && a in {EventAttend, VrcExchange, VecIssue, RoundComment, CreditAccount, CreditLimitL1})
              || (t >= 2 && a in {VecIssueWeighted, RoundVote, RoundPropose, CreditLimitL2, VicIssue, GroupCreate})
              || (t >= 3 && a in {EventConvene, VwcIssue, PepReview, RegistryPropose, CreditLimitL3})
              || (t >= 4 && a in {VicIssueUnlimited, VmcGrant, DidWitness})
  {
    AddedByTier(t, a);
    hide TierAdds;
    if t > 0 { DefaultsByTier(t - 1, a); }
  }

  /** The tier at which each action comes, and the hook that lets the second tier witness. */
  lemma ActionsByTier(p: Policy, t: Tier, a: Action)
    ensures a in TierActions(p, t) <==>
              || (t >= 1 && a in {EventAttend, VrcExchange, VecIssue, RoundComment, CreditAccount, CreditLimitL1})
              || (t >= 2 && a in {VecIssueWeighted, RoundVote, RoundPropose, CreditLimitL2, VicIssue, GroupCreate})
              || (t >= 3 && a in {EventConvene, VwcIssue, PepReview, RegistryPropose, CreditLimitL3})
              || (t >= 4 && a in {VicIssueUnlimited, VmcGrant, DidWitness})
              || (t == 2 && a == VwcIssue && p.witnessTier.Some? && p.witnessTier.value <= 2)
  {
    DefaultsByTier(t, a);
    hide DefaultActions;
  }

  function Max(a: Tier, b: Tier): Tier { if a >= b then a else b }

  /** How long an issued credential is valid: the configured days up to the ceiling, less a minute. */
  function Span(p: Policy): int {
    (if p.validityMs <= CEILING_DAYS * DAY_MS then p.validityMs else CEILING_DAYS * DAY_MS) - SAFETY_MS
  }

  // ----- what is held -----

  predicate ValidAt(r: Row, did: string, now: int) { r.subject == did && r.revokedAt.None? && r.validUntil > now }

  predicate Carries(r: Row, did: string, now: int, t: Tier) { ValidAt(r, did, now) && r.tier == Some(t) }

  /** `t` is the highest tier of what the member holds, or T0. */
  ghost predicate IsHeld(log: seq<Row>, did: string, now: int, t: Tier) {
    && (t > 0 ==> exists i :: 0 <= i < |log| && Carries(log[i], did, now, t))
    && (forall i :: 0 <= i < |log| && ValidAt(log[i], did, now) && log[i].tier.Some? ==> log[i].tier.value <= t)
  }

  ghost predicate IsNewest(log: seq<Row>, did: string, now: int, t: Tier, i: nat) {
    && i < |log| && Carries(log[i], did, now, t)
    && (forall j :: i < j < |log| ==> !Carries(log[j], did, now, t))
  }

  /** The newest credential at the tier is complete and does not expire within the window. */
  ghost predicate HoldsFresh(p: Policy, log: seq<Row>, did: string, now: int, t: Tier) {
    exists i: nat ::
      IsNewest(log, did, now, t, i) && TierActions(p, t) <= log[i].actions && log[i].validUntil - now >= WINDOW_MS
  }

  /** Fresh authority, field by field: in force for seven more days, and nothing later at the tier is in force. */
  lemma FreshFields(p: Policy, log: seq<Row>, did: string, now: int, t: Tier)
    ensures HoldsFresh(p, log, did, now, t) <==>
              exists i: nat :: i < |log|
                && log[i].subject == did && log[i].tier == Some(t) && log[i].revokedAt == None
                && TierActions(p, t) <= log[i].actions && log[i].validUntil >= now + 604_800_000
                && forall j :: i < j < |log| ==>
                     || log[j].subject != did || log[j].tier != Some(t) || log[j].revokedAt.Some?
                     || log[j].validUntil <= now
  {
    hide TierActions;
  }

  ghost predicate HoldsComplete(p: Policy, log: seq<Row>, did: string, now: int, t: Tier) {
    exists i: nat :: IsNewest(log, did, now, t, i) && TierActions(p, t) <= log[i].actions
  }

  ghost predicate SameOrRevoked(before: Row, after: Row) {
    || before == after
    || (before.revokedAt.None? && after.revokedAt.Some? && after == before.(revokedAt := after.revokedAt))
  }

  /** The log only grows; of what is in it only a revocation may be added. */
  ghost predicate Extends(before: seq<Row>, after: seq<Row>) {
    |before| <= |after| && forall i :: 0 <= i < |before| ==> SameOrRevoked(before[i], after[i])
  }

  lemma ExtendsTransitive(a: seq<Row>, b: seq<Row>, c: seq<Row>)
    requires Extends(a, b) && Extends(b, c)
    ensures Extends(a, c)
  {
    forall i | 0 <= i < |a| ensures SameOrRevoked(a[i], c[i]) {
      assert SameOrRevoked(a[i], b[i]) && SameOrRevoked(b[i], c[i]);
    }
  }

  // ----- withdrawing -----

  /**
   What an immediate downgrade takes back: authority above the entitlement, or with actions its tier no longer
   has.
   */
  predicate Excessive(p: Policy, r: Row, entitled: Tier) {
    r.tier.Some? && (r.tier.value > entitled || !(r.actions <= TierActions(p, r.tier.value)))
  }

  /** Authority to receive payments carries a tier but is in no tier's actions. */
  lemma ReceivingIsExcessive(p: Policy, r: Row, entitled: Tier)
    requires r.tier.Some? && PayReceive in r.actions
    ensures Excessive(p, r, entitled)
  {
    TiersAreCumulative(p, r.tier.value, r.tier.value);
  }

  /** Revokes what is excessive and changes nothing else. */
  method Withdraw(p: Policy, log: seq<Row>, did: string, now: int, entitled: Tier) returns (after: seq<Row>)
    ensures |after| == |log| && Extends(log, after)
    ensures forall i ::
              0 <= i < |log| ==>
                after[i] == if ValidAt(log[i], did, now) && Excessive(p, log[i], entitled)
                              then log[i].(revokedAt := Some(now))
                              else log[i]
    ensures forall i :: 0 <= i < |log| ==>
              (after[i] != log[i] <==>
                 && log[i].subject == did && log[i].revokedAt == None && log[i].validUntil > now && log[i].tier.Some?
                 && (log[i].tier.value > entitled || !(log[i].actions <= TierActions(p, log[i].tier.value))))
  {
    hide TierActions;
    after := [];
    for i := 0 to |log|
      invariant |after| == i
      invariant forall j ::
                  0 <= j < i ==>
                    after[j] == if ValidAt(log[j], did, now) && Excessive(p, log[j], entitled)
                                  then log[j].(revokedAt := Some(now))
                                  else log[j]
    {
      var excessive := ValidAt(log[i], did, now) && Excessive(p, log[i], entitled);
      after := after + [if excessive then log[i].(revokedAt := Some(now)) else log[i]];
    }
  }

  method HeldTier(log: seq<Row>, did: string, now: int) returns (t: Tier)
    ensures IsHeld(log, did, now, t)
  {
    t := 0;
    for i := 0 to |log|
      invariant IsHeld(log[..i], did, now, t)
    {
      var r := log[i];
      assert log[..i + 1] == log[..i] + [r];
      ghost var was := t;
      if ValidAt(r, did, now) && r.tier.Some? && r.tier.value > t {
        t := r.tier.value;
        assert Carries(log[..i + 1][i], did, now, t);
      } else if t > 0 {
        var j :| 0 <= j < i && Carries(log[..i][j], did, now, t);
        assert Carries(log[..i + 1][j], did, now, t);
      }
    }
    assert log[..|log|] == log;
  }

  method Newest(log: seq<Row>, did: string, now: int, t: Tier) returns (r: Option<nat>)
    ensures r.Some? ==> IsNewest(log, did, now, t, r.value)
    ensures r.None? ==> forall i :: 0 <= i < |log| ==> !Carries(log[i], did, now, t)
  {
    var i := |log|;
    while i > 0
      invariant 0 <= i <= |log| && forall j :: i <= j < |log| ==> !Carries(log[j], did, now, t)
    {
      i := i - 1;
      if Carries(log[i], did, now, t) { return Some(i); }
    }
    r := None;
  }

  lemma NewestIsOne(log: seq<Row>, did: string, now: int, t: Tier, i: nat, j: nat)
    requires IsNewest(log, did, now, t, i) && IsNewest(log, did, now, t, j)
    ensures i == j
  {
  }

  lemma RowAppended(rows: seq<Row>, did: string, now: int, e: Tier, held: Tier, row: Row)
    requires IsHeld(rows, did, now, held) && Carries(row, did, now, e)
    ensures IsHeld(rows + [row], did, now, Max(held, e)) && IsNewest(rows + [row], did, now, e, |rows|)
  {
    var after := rows + [row];
    assert after[|rows|] == row;
    if Max(held, e) > 0 {
      if e >= held {
        assert Carries(after[|rows|], did, now, e);
      } else {
        var i :| 0 <= i < |rows| && Carries(rows[i], did, now, held);
        assert Carries(after[i], did, now, held);
      }
    }
  }

  /** A credential issued now is fresh exactly when the policy's validity outlasts the window. */
  lemma FreshAfterIssue(p: Policy, rows: seq<Row>, did: string, now: int, e: Tier, row: Row)
    requires Carries(row, did, now, e) && row.actions == TierActions(p, e) && row.validUntil == now + Span(p)
    ensures HoldsFresh(p, rows + [row], did, now, e) <==> Span(p) >= WINDOW_MS
  {
    var after := rows + [row];
    assert after[|rows|] == row && IsNewest(after, did, now, e, |rows|);
    if HoldsFresh(p, after, did, now, e) {
      var i: nat :| && IsNewest(after, did, now, e, i) && TierActions(p, e) <= after[i].actions
                    && after[i].validUntil - now >= WINDOW_MS;
      NewestIsOne(after, did, now, e, i, |rows|);
    }
  }

  /** Seven days and a minute of validity are needed and enough for that; so eight days are. */
  lemma WindowOutlasted(p: Policy)
    ensures Span(p) >= WINDOW_MS <==> p.validityMs >= 604_860_000
    ensures p.validityMs >= 8 * 86_400_000 ==> Span(p) >= WINDOW_MS
  {
  }

  /** After withdrawing, nothing above the entitlement is held. */
  lemma NothingAbove(p: Policy, log: seq<Row>, after: seq<Row>, did: string, now: int, e: Tier, held: Tier)
    requires |after| == |log| && IsHeld(after, did, now, held)
    requires forall i ::
               0 <= i < |log| ==>
                 after[i] == if ValidAt(log[i], did, now) && Excessive(p, log[i], e)
                               then log[i].(revokedAt := Some(now))
                               else log[i]
    ensures held <= e
  {
    if held > 0 {
      var i :| 0 <= i < |after| && Carries(after[i], did, now, held);
      assert after[i] == log[i];
    }
  }

  /** When the authority at the tier expires, judged over all of it. */
  ghost predicate IsUntil(log: seq<Row>, did: string, now: int, t: Tier, until: Option<int>) {
    && (until.Some? <==> exists i :: 0 <= i < |log| && Carries(log[i], did, now, t))
    && (until.Some? ==> exists i :: 0 <= i < |log| && Carries(log[i], did, now, t) && log[i].validUntil == until.value)
    && (until.Some? ==> forall i :: 0 <= i < |log| && Carries(log[i], did, now, t) ==> log[i].validUntil <= until.value)
  }

  method LatestUntil(log: seq<Row>, did: string, now: int, t: Tier) returns (until: Option<int>)
    ensures IsUntil(log, did, now, t, until)
  {
    hide Carries;
    until := None;
    ghost var at := 0;
    for i := 0 to |log|
      invariant until.None? ==> forall j :: 0 <= j < i ==> !Carries(log[j], did, now, t)
      invariant until.Some? ==> 0 <= at < i && Carries(log[at], did, now, t) && log[at].validUntil == until.value
      invariant until.Some? ==>
                  forall j :: 0 <= j < i && Carries(log[j], did, now, t) ==> log[j].validUntil <= until.value
    {
      if Carries(log[i], did, now, t) && (until.None? || log[i].validUntil > until.value) {
        until, at := Some(log[i].validUntil), i;
      }
    }
  }

  method ValidIds(log: seq<Row>, did: string, now: int) returns (ids: seq<nat>)
    ensures forall id :: id in ids <==> exists i :: 0 <= i < |log| && ValidAt(log[i], did, now) && log[i].id == id
  {
    hide ValidAt;
    ids := [];
    for i := 0 to |log|
      invariant forall id :: id in ids <==> exists j :: 0 <= j < i && ValidAt(log[j], did, now) && log[j].id == id
    {
      if ValidAt(log[i], did, now) { ids := [log[i].id] + ids; }
    }
  }

  method IsFresh(p: Policy, log: seq<Row>, did: string, now: int, t: Tier) returns (current: bool)
    ensures current <==> HoldsFresh(p, log, did, now, t)
  {
    hide TierActions, Carries;
    var newest := Newest(log, did, now, t);
    if newest.None? { return false; }
    var i := newest.value;
    current := TierActions(p, t) <= log[i].actions && log[i].validUntil - now >= WINDOW_MS;
    forall j: nat | IsNewest(log, did, now, t, j) ensures j == i { NewestIsOne(log, did, now, t, i, j); }
  }

  lemma NewRowCarries(row: Row, did: string, now: int, e: Tier)
    ensures row.subject == did && row.tier == Some(e) && row.validUntil > now && row.revokedAt == None ==>
              Carries(row, did, now, e)
  {
  }

  lemma FreshIsHeld(p: Policy, log: seq<Row>, did: string, now: int, e: Tier, held: Tier)
    requires HoldsFresh(p, log, did, now, e) && IsHeld(log, did, now, held)
    ensures e <= held && HoldsComplete(p, log, did, now, e)
  {
    hide TierActions;
  }

  lemma HeldZero(log: seq<Row>, did: string, now: int, held: Tier, e: Tier)
    requires IsHeld(log, did, now, held) && e == 0
    ensures IsHeld(log, did, now, Max(held, e))
  {
  }

  lemma CompleteNewest(p: Policy, log: seq<Row>, did: string, now: int, e: Tier)
    requires |log| > 0 && IsNewest(log, did, now, e, |log| - 1) && TierActions(p, e) <= log[|log| - 1].actions
    ensures HoldsComplete(p, log, did, now, e)
  {
  }

  // ----- what a refresh does -----

  ghost predicate NewlyRevoked(before: seq<Row>, after: seq<Row>, k: nat) {
    k < |before| && k < |after| && before[k].revokedAt.None? && after[k].revokedAt.Some?
  }

  /** What a refresh issues. */
  function IssuedRow(p: Policy, did: string, e: Tier, now: int, id: nat, digest: string): Row {
    Row(id, did, TierActions(p, e), Some(e), digest, now, now + Span(p), None)
  }

  /** The log as an immediate downgrade leaves it; the usual policy leaves it alone. */
  ghost predicate IsBase(p: Policy, did: string, e: Tier, now: int, before: seq<Row>, after: seq<Row>) {
    |after| == |before| && forall i :: 0 <= i < |before| ==>
      after[i] == if !p.atExpiryOnly && ValidAt(before[i], did, now) && Excessive(p, before[i], e)
                    then before[i].(revokedAt := Some(now))
                    else before[i]
  }

  /**
   At most one row is added, at the entitled tier `e` and with all its actions, exactly when the newest row
   there would not do. Afterwards a complete row is held at `e`, and it is fresh unless the policy's
   validity is too short to be. Nothing else changes, except that immediate downgrades withdraw.
   */
  ghost predicate IsRefresh(p: Policy, did: string, e: Tier, before: seq<Row>, after: seq<Row>, now: int, nextId: nat,
                            digest: string, x: Refreshed)
  {
    var n := |before|;
    && |after| == n + (if x.issued then 1 else 0)
    && IsBase(p, did, e, now, before, after[..n])
    && (x.issued <==> e > 0 && !HoldsFresh(p, after[..n], did, now, e))
    && (x.issued ==>
          after[n] == IssuedRow(p, did, e, now, nextId, digest) && Span(p) > 0)
    && (e > 0 ==> HoldsComplete(p, after, did, now, e))
    && (e > 0 ==> (HoldsFresh(p, after, did, now, e) <==> !x.issued || Span(p) >= WINDOW_MS))
    && (!p.atExpiryOnly ==> x.tier == e) && x.tier >= e
  }

  /** A refresh revokes nothing but what is its member's, and nothing at all under the usual policy. */
  lemma WithdrawnBy(p: Policy, did: string, e: Tier, now: int, before: seq<Row>, base: seq<Row>, after: seq<Row>)
    requires IsBase(p, did, e, now, before, base) && base <= after
    ensures forall k: nat :: NewlyRevoked(before, after, k) ==> before[k].subject == did && !p.atExpiryOnly
  {
    hide Excessive;
    forall k: nat | NewlyRevoked(before, after, k) ensures before[k].subject == did && !p.atExpiryOnly {
      assert after[k] == base[k];
    }
  }

  lemma RefreshFacts(p: Policy, did: string, e: Tier, before: seq<Row>, base: seq<Row>, after: seq<Row>, now: int,
                     nextId: nat, digest: string, held: Tier, x: Refreshed)
    requires IsBase(p, did, e, now, before, base) && IsHeld(base, did, now, held) && x.tier == Max(held, e)
    requires x.issued <==> e > 0 && !HoldsFresh(p, base, did, now, e)
    requires after == if x.issued then base + [IssuedRow(p, did, e, now, nextId, digest)] else base
    requires x.issued ==> Span(p) > 0
    requires e > 0 ==>
               && HoldsComplete(p, after, did, now, e)
               && (HoldsFresh(p, after, did, now, e) <==> !x.issued || Span(p) >= WINDOW_MS)
    ensures forall vacs :: IsRefresh(p, did, e, before, after, now, nextId, digest, x.(vacs := vacs))
  {
    hide HoldsFresh, HoldsComplete, TierActions, Span, Excessive, IsHeld;
    assert after[..|before|] == base;
    if !p.atExpiryOnly { NothingAbove(p, before, base, did, now, e, held); }
  }

  /** The authority to receive payments outlives a refresh of its holder under the usual policy, and only then. */
  lemma ReceivingSurvivesIff(p: Policy, did: string, e: Tier, before: seq<Row>, after: seq<Row>, now: int, nextId: nat,
                             digest: string, x: Refreshed, i: nat)
    requires IsRefresh(p, did, e, before, after, now, nextId, digest, x)
    requires i < |before| && ValidAt(before[i], did, now) && before[i].tier.Some? && PayReceive in before[i].actions
    ensures ValidAt(after[i], did, now) <==> p.atExpiryOnly
  {
    hide Excessive, HoldsFresh, HoldsComplete, TierActions, Span;
    ReceivingIsExcessive(p, before[i], e);
    assert after[..|before|][i] == after[i];
  }

  lemma AfterWithdrawal(p: Policy, did: string, e: Tier, now: int, before: Row, after: Row)
    requires after == if !p.atExpiryOnly && ValidAt(before, did, now) && Excessive(p, before, e)
                      then before.(revokedAt := Some(now)) else before
    ensures !(!p.atExpiryOnly && ValidAt(after, did, now) && Excessive(p, after, e))
  {
    hide Excessive;
  }

  lemma NothingExcessiveIssued(p: Policy, r: Row, e: Tier)
    ensures r.tier == Some(e) && r.actions == TierActions(p, e) ==> !Excessive(p, r, e)
  {
  }

  /**
   A second refresh at the same instant issues again only if the first one issued something the window
   outlasts; never with eight days of validity.
   */
  lemma SecondRefresh(p: Policy, did: string, e: Tier, first: seq<Row>, second: seq<Row>, third: seq<Row>, now: int,
                      id: nat, id': nat, digest: string, digest': string, x: Refreshed, y: Refreshed)
    requires IsRefresh(p, did, e, first, second, now, id, digest, x)
    requires IsRefresh(p, did, e, second, third, now, id', digest', y)
    ensures y.issued <==> x.issued && p.validityMs < 604_860_000
    ensures third[..|second|] == second
    ensures p.validityMs >= 8 * 86_400_000 ==> third == second
  {
    hide HoldsFresh, HoldsComplete, TierActions, Span, ValidAt;
    var n := |first|;
    assert IsBase(p, did, e, now, first, second[..n]);
    forall i | 0 <= i < |second| ensures third[..|second|][i] == second[i] {
      assert third[..|second|][i] == third[i];
      if i < n {
        assert second[..n][i] == second[i];
        AfterWithdrawal(p, did, e, now, first[i], second[i]);
      } else {
        NothingExcessiveIssued(p, second[i], e);
      }
    }
    assert third[..|second|] == second;
    WindowOutlasted(p);
    if !y.issued { assert third == third[..|second|]; }
  }

  // ----- the office -----

  /**
   A refresh that happened: under which policy, what it decided, the log it left and which of its rows had
   been revoked by decision.
   */
  datatype Seen = Seen(did: string, tier: Tier, at: int, log: seq<Row>, usual: bool, decided: set<nat>)

  ghost predicate Ordered(log: seq<Row>, nextId: nat, clock: int) {
    && (forall i, j :: 0 <= i < j < |log| ==> log[i].id < log[j].id && log[i].issuedAt <= log[j].issuedAt)
    && (forall i :: 0 <= i < |log| ==> 0 < log[i].id < nextId && log[i].issuedAt <= clock)
  }

  ghost predicate Remembered(history: seq<Seen>, log: seq<Row>, clock: int) {
    && (forall i :: 0 <= i < |history| ==> Extends(history[i].log, log) && history[i].at <= clock
                                            && IsHeld(history[i].log, history[i].did, history[i].at, history[i].tier))
    && (forall i, j ::
          0 <= i < j < |history| ==> Extends(history[i].log, history[j].log) && history[i].at <= history[j].at)
  }

  /** After the refresh `i` and before `n`, a refresh of the member withdrew authority at once. */
  ghost predicate Withdrew(history: seq<Seen>, i: nat, n: nat, did: string) {
    exists m :: i < m < n && m < |history| && history[m].did == did && !history[m].usual
  }

  /** What has been revoked since the refresh `i` was revoked by decision, or withdrawn by a refresh of its member. */
  ghost predicate Explained(history: seq<Seen>, i: nat, n: nat, log: seq<Row>, decided: set<nat>)
    requires i < |history|
  {
    forall k: nat ::
      NewlyRevoked(history[i].log, log, k) ==> k in decided || Withdrew(history, i, n, history[i].log[k].subject)
  }

  ghost predicate ExplainedBy(history: seq<Seen>, i: nat, j: nat)
    requires i < |history| && j < |history|
  {
    Explained(history, i, j + 1, history[j].log, history[j].decided)
  }

  ghost predicate AllExplained(history: seq<Seen>, log: seq<Row>, decided: set<nat>) {
    && (forall i: nat :: i < |history| ==> Explained(history, i, |history|, log, decided))
    && (forall i: nat, j: nat :: i < j < |history| ==> ExplainedBy(history, i, j))
  }

  lemma ExplainedOn(history: seq<Seen>, log: seq<Row>, after: seq<Row>, decided: set<nat>, decided': set<nat>)
    requires AllExplained(history, log, decided) && |log| <= |after| && decided <= decided'
    requires forall k: nat :: NewlyRevoked(log, after, k) ==> k in decided'
    requires forall i :: 0 <= i < |history| ==> |history[i].log| <= |log|
    ensures AllExplained(history, after, decided')
  {
    hide Withdrew;
    forall i: nat | i < |history| ensures Explained(history, i, |history|, after, decided') {
      assert Explained(history, i, |history|, log, decided);
      forall k: nat | NewlyRevoked(history[i].log, after, k)
        ensures k in decided' || Withdrew(history, i, |history|, history[i].log[k].subject)
      {
        assert NewlyRevoked(history[i].log, log, k) || NewlyRevoked(log, after, k);
      }
    }
  }

  lemma WithdrewStill(history: seq<Seen>, e: Seen, i: nat, n: nat, did: string)
    requires n <= |history|
    ensures Withdrew(history + [e], i, n, did) <==> Withdrew(history, i, n, did)
    ensures Withdrew(history, i, n, did) ==> Withdrew(history + [e], i, n + 1, did)
    ensures i < |history| == n && e.did == did && !e.usual ==> Withdrew(history + [e], i, n + 1, did)
  {
    var now := history + [e];
    assert forall m :: 0 <= m < |history| ==> now[m] == history[m];
    assert now[|history|] == e;
  }

  lemma OneExplained(history: seq<Seen>, log: seq<Row>, after: seq<Row>, decided: set<nat>, e: Seen, i: nat)
    requires i < |history| && Explained(history, i, |history|, log, decided) && Extends(history[i].log, log)
    requires |log| <= |after|
    requires forall k: nat :: NewlyRevoked(log, after, k) ==> log[k].subject == e.did && !e.usual
    ensures Explained(history + [e], i, |history| + 1, after, decided)
  {
    hide Withdrew;
    var was := history[i].log;
    forall k: nat | NewlyRevoked(was, after, k)
      ensures k in decided || Withdrew(history + [e], i, |history| + 1, was[k].subject)
    {
      assert SameOrRevoked(was[k], log[k]);
      assert NewlyRevoked(was, log, k) || NewlyRevoked(log, after, k);
      WithdrewStill(history, e, i, |history|, was[k].subject);
    }
  }

  lemma ExplainedStill(history: seq<Seen>, e: Seen, i: nat, j: nat)
    requires i < j < |history| && ExplainedBy(history, i, j)
    ensures ExplainedBy(history + [e], i, j)
  {
    hide Withdrew;
    var was, log := history[i].log, history[j].log;
    forall k: nat | NewlyRevoked(was, log, k)
      ensures k in history[j].decided || Withdrew(history + [e], i, j + 1, was[k].subject)
    {
      WithdrewStill(history, e, i, j + 1, was[k].subject);
    }
  }

  lemma ExplainedMore(history: seq<Seen>, log: seq<Row>, after: seq<Row>, decided: set<nat>, e: Seen)
    requires AllExplained(history, log, decided) && |log| <= |after| && e.log == after && e.decided == decided
    requires forall k: nat :: NewlyRevoked(log, after, k) ==> log[k].subject == e.did && !e.usual
    requires forall i :: 0 <= i < |history| ==> Extends(history[i].log, log)
    ensures AllExplained(history + [e], after, decided)
  {
    var now := history + [e];
    forall i: nat | i < |now| ensures Explained(now, i, |now|, after, decided) {
      if i < |history| {
        OneExplained(history, log, after, decided, e, i);
      }
    }
    forall i: nat, j: nat | i < j < |now| ensures ExplainedBy(now, i, j) {
      if j < |history| { ExplainedStill(history, e, i, j); }
    }
  }

  lemma HistoryExtends(history: seq<Seen>, log: seq<Row>, clock: int)
    requires Remembered(history, log, clock)
    ensures forall i :: 0 <= i < |history| ==> Extends(history[i].log, log)
  {
    hide IsHeld, Extends;
  }

  lemma ExtendsLength(history: seq<Seen>, log: seq<Row>, clock: int)
    requires Remembered(history, log, clock)
    ensures forall i :: 0 <= i < |history| ==> |history[i].log| <= |log|
  {
    hide IsHeld;
  }

  lemma SelfExtends(log: seq<Row>)
    ensures Extends(log, log)
  {
  }

  lemma RememberMore(history: seq<Seen>, log: seq<Row>, after: seq<Row>, clock: int, e: Seen)
    requires Remembered(history, log, clock) && Extends(log, after)
    requires e.log == after && e.at == clock && IsHeld(after, e.did, clock, e.tier)
    ensures Remembered(history + [e], after, clock)
  {
    hide Extends, IsHeld;
    SelfExtends(after);
    forall i | 0 <= i < |history|
      ensures Extends(history[i].log, after)
    {
      ExtendsTransitive(history[i].log, log, after);
    }
    var now := history + [e];
    forall i, j | 0 <= i < j < |now| ensures Extends(now[i].log, now[j].log) && now[i].at <= now[j].at {
      assert now[i] == history[i];
      if j < |history| { assert now[j] == history[j]; }
    }
  }

  lemma RememberOn(history: seq<Seen>, log: seq<Row>, after: seq<Row>, clock: int, later: int)
    requires Remembered(history, log, clock) && Extends(log, after) && clock <= later
    ensures Remembered(history, after, later)
  {
    hide Extends, IsHeld;
    forall i | 0 <= i < |history|
      ensures Extends(history[i].log, after)
    {
      ExtendsTransitive(history[i].log, log, after);
    }
  }

  lemma ExtendsAppended(log: seq<Row>, after: seq<Row>, row: Row)
    requires Extends(log, after)
    ensures Extends(log, after + [row])
  {
  }

  ghost predicate IsLastWith(log: seq<Row>, digest: string, i: nat) {
    && i < |log| && log[i].digest == digest
    && (forall j :: i < j < |log| ==> log[j].digest != digest)
  }

  lemma KeepsOrder(log: seq<Row>, nextId: nat, clock: int, after: seq<Row>, nextId': nat)
    requires Ordered(log, nextId, clock) && Extends(log, after) && nextId > 0
    requires if |after| == |log| then nextId' == nextId
             else && |after| == |log| + 1 && after[|log|].id == nextId && after[|log|].issuedAt == clock
                  && nextId' == nextId + 1
    ensures Ordered(after, nextId', clock)
  {
    forall i | 0 <= i < |log| ensures after[i].id == log[i].id && after[i].issuedAt == log[i].issuedAt {
      assert SameOrRevoked(log[i], after[i]);
    }
  }

  /** A refresh keeps what holds of the log and of the history. */
  lemma RefreshKeeps(p: Policy, e: Tier, log: seq<Row>, base: seq<Row>, after: seq<Row>, nextId: nat, nextId': nat,
                     clock: int, history: seq<Seen>, seen: Seen)
    requires Ordered(log, nextId, clock) && nextId > 0 && Remembered(history, log, clock)
    requires AllExplained(history, log, seen.decided)
    requires IsBase(p, seen.did, e, clock, log, base) && base <= after && Extends(log, after)
    requires if |after| == |log| then nextId' == nextId
             else && |after| == |log| + 1 && after[|log|].id == nextId && after[|log|].issuedAt == clock
                  && nextId' == nextId + 1
    requires seen.log == after && seen.at == clock && seen.usual == p.atExpiryOnly
    requires IsHeld(after, seen.did, clock, seen.tier)
    ensures Ordered(after, nextId', clock) && Remembered(history + [seen], after, clock)
    ensures AllExplained(history + [seen], after, seen.decided)
  {
    hide Ordered, Remembered, AllExplained, IsBase, IsHeld;
    KeepsOrder(log, nextId, clock, after, nextId');
    RememberMore(history, log, after, clock, seen);
    HistoryExtends(history, log, clock);
    WithdrawnBy(p, seen.did, e, clock, log, base, after);
    ExplainedMore(history, log, after, seen.decided, seen);
  }

  /** A row of the member's that is above a tier. */
  ghost predicate Above(was: Seen, k: nat, tier: Tier)
    requires k < |was.log|
  {
    was.log[k].subject == was.did && was.log[k].tier.Some? && was.log[k].tier.value > tier
  }

  // ----- the status list -----

  /** A verifier reads of every row whether it has been revoked. */
  ghost predicate Publishes(bits: seq<bv8>, log: seq<Row>) {
    forall i :: 0 <= i < |log| ==> StatusList.IsRevoked(bits, log[i].id) == Success(log[i].revokedAt.Some?)
  }

  function StatusRows(log: seq<Row>): seq<StatusList.Row> {
    seq(|log|, i requires 0 <= i < |log| => StatusList.Row(log[i].id, log[i].revokedAt.Some?))
  }

  lemma ListIsRead(log: seq<Row>, nextId: nat, clock: int, bits: seq<bv8>)
    requires Ordered(log, nextId, clock) && StatusList.Marks(bits, StatusRows(log))
    requires forall r :: r in StatusRows(log) ==> r.id < 8 * |bits|
    ensures Publishes(bits, log)
  {
    hide StatusList.Marks, StatusList.IsRevoked;
    var rows := StatusRows(log);
    forall i | 0 <= i < |log| ensures StatusList.IsRevoked(bits, log[i].id) == Success(log[i].revokedAt.Some?) {
      assert rows[i] in rows;
      forall a, b | a in rows && b in rows && a.id == b.id ensures a == b {
        var j :| 0 <= j < |rows| && rows[j] == a;
        var k :| 0 <= k < |rows| && rows[k] == b;
      }
      StatusList.RoundTrip(rows, bits, rows[i]);
    }
  }

  /** A revocation shows in the list for the row that was revoked, and for no other. */
  lemma RevocationShows(before: seq<Row>, after: seq<Row>, i: nat, bits: seq<bv8>, bits': seq<bv8>)
    requires i < |before| && Extends(before, after) && after == before[i := after[i]] && after[i].revokedAt.Some?
    requires Publishes(bits, before) && Publishes(bits', after)
    ensures StatusList.IsRevoked(bits', before[i].id) == Success(true)
    ensures forall j ::
              0 <= j < |before| && j != i ==>
                StatusList.IsRevoked(bits', before[j].id) == StatusList.IsRevoked(bits, before[j].id)
  {
    hide StatusList.IsRevoked;
    assert SameOrRevoked(before[i], after[i]);
    assert StatusList.IsRevoked(bits', after[i].id) == Success(after[i].revokedAt.Some?);
    forall j | 0 <= j < |before| && j != i
      ensures StatusList.IsRevoked(bits', before[j].id) == StatusList.IsRevoked(bits, before[j].id)
    {
      assert after[j] == before[j];
    }
  }

  class Office {
    var members: map<string, Member>
    var log: seq<Row>
    var decisions: seq<Decision>
    var clock: int
    var nextId: nat
    ghost var history: seq<Seen>
    /** The rows of the log that were revoked by decision. */
    ghost var decided: set<nat>

    ghost predicate Valid()
      reads this
    {
      && Ordered(log, nextId, clock) && nextId > 0 && Remembered(history, log, clock)
      && AllExplained(history, log, decided)
    }

    constructor (members: map<string, Member>, clock: int)
      ensures Valid() && this.members == members && log == [] && history == [] && this.clock == clock
    {
      this.members, log, decisions, this.clock, nextId := members, [], [], clock, 1;
      history, decided := [], {};
    }

    lemma RememberSame(ms: nat)
      requires Valid()
      ensures Remembered(history, log, clock + ms)
    {
      SelfExtends(log);
      RememberOn(history, log, log, clock, clock + ms);
    }

    method Wait(ms: nat)
      requires Valid()
      modifies this`clock
      ensures Valid() && clock == old(clock) + ms
    {
      RememberSame(ms);
      clock := clock + ms;
    }

    function Governance(did: string): Tier
      reads this
    {
      if did in members && members[did].tier.Some? then members[did].tier.value else 0
    }

    predicate IsMember(did: string)
      reads this
    {
      did in members && !(members[did].granted && !members[did].acked)
    }

    /** What a refresh issues, field by field. */
    lemma IssuedFields(p: Policy, did: string, e: Tier, before: seq<Row>, after: seq<Row>, now: int, nextId: nat,
                       digest: string, x: Refreshed)
      requires IsRefresh(p, did, e, before, after, now, nextId, digest, x) && x.issued
      ensures |after| > |before|
      ensures var lasts := if p.validityMs <= 7_776_000_000 then p.validityMs else 7_776_000_000;
              && after[|before|..] == [Row(nextId, did, TierActions(p, e), Some(e), digest, now, now + lasts - 60_000,
                                           None)]
              && lasts > 60_000 && e > 0
    {
      hide TierActions, HoldsFresh, HoldsComplete, Excessive;
    }

    /** Issues at the entitled tier when what is held there will not do. */
    method IssueIfStale(p: Policy, base: seq<Row>, did: string, e: Tier, held: Tier, digest: string)
      returns (r: Result<(seq<Row>, bool), Refusal>)
      requires IsHeld(base, did, clock, held)
      ensures r.Failure? ==> r.error == NoValidity && Span(p) <= 0
      ensures r.Success? ==> (r.value.1 <==> e > 0 && !HoldsFresh(p, base, did, clock, e))
      ensures r.Success? ==>
                r.value.0 == if r.value.1 then base + [IssuedRow(p, did, e, clock, nextId, digest)] else base
      ensures r.Success? && r.value.1 ==> Span(p) > 0
      ensures r.Success? ==> IsHeld(r.value.0, did, clock, Max(held, e))
      ensures r.Success? && e > 0 ==> HoldsComplete(p, r.value.0, did, clock, e)
                                      && (HoldsFresh(p, r.value.0, did, clock, e) <==>
                                            !r.value.1 || Span(p) >= WINDOW_MS)
    {
      hide TierActions, IsHeld, HoldsFresh, IsNewest, Carries, Span;
      if e == 0 {
        HeldZero(base, did, clock, held, e);
        return Success((base, false));
      }
      var current := IsFresh(p, base, did, clock, e);
      if current {
        FreshIsHeld(p, base, did, clock, e, held);
        return Success((base, false));
      }
      if Span(p) <= 0 { return Failure(NoValidity); }
      var row := IssuedRow(p, did, e, clock, nextId, digest);
      NewRowCarries(row, did, clock, e);
      RowAppended(base, did, clock, e, held, row);
      FreshAfterIssue(p, base, did, clock, e, row);
      CompleteNewest(p, base + [row], did, clock, e);
      r := Success((base + [row], true));
    }

    /**
     Refreshes a member's authority. The result is the highest tier the member holds afterwards; one
     credential at the entitled tier is issued when the newest one there is missing, incomplete or about to
     expire; and it is never above what the index recommends or governance records.
     */
    method Refresh(p: Policy, did: string, recommended: Tier, digest: string) returns (r: Result<Refreshed, Refusal>)
      requires Valid()
      modifies this`members, this`log, this`nextId, this`history
      ensures Valid()
      ensures r.Failure? ==> members == old(members) && log == old(log) && history == old(history)
      ensures r.Failure? ==>
                if r.error == NoMembership then !old(IsMember(did))
                else r.error == NoValidity && old(IsMember(did)) && Span(p) <= 0
      ensures r.Success? ==> old(IsMember(did))
      ensures r.Success? ==>
                IsRefresh(p, did, Max(recommended, old(Governance(did))), old(log), log, clock, old(nextId), digest,
                          r.value)
      ensures r.Success? ==> IsHeld(log, did, clock, r.value.tier)
      ensures r.Success? ==>
                forall id ::
                  id in r.value.vacs <==> exists i :: 0 <= i < |log| && ValidAt(log[i], did, clock) && log[i].id == id
      ensures r.Success? ==> did in members && IsUntil(log, did, clock, r.value.tier, members[did].effectiveUntil)
      ensures r.Success? ==>
                var until := members[did].effectiveUntil;
                var row := old(members)[did].(effectiveTier := r.value.tier, effectiveUntil := until);
                members == old(members)[did := row]
      ensures r.Success? || r.error == NoValidity ==>
                did in old(members) && (old(members)[did].granted ==> old(members)[did].acked)
      ensures r == Failure(NoMembership) ==>
                did in old(members) ==> old(members)[did].granted && !old(members)[did].acked
      ensures r.Success? && r.value.issued ==>
                var governed := old(members)[did].tier.UnwrapOr(0);
                var tier := if recommended >= governed then recommended else governed;
                var lasts := if p.validityMs <= 7_776_000_000 then p.validityMs else 7_776_000_000;
                && log[|old(log)|..] == [Row(old(nextId), did, TierActions(p, tier), Some(tier), digest, clock,
                                             clock + lasts - 60_000, None)]
                && lasts > 60_000 && tier > 0
      ensures r.Success? ==> history == old(history) + [Seen(did, r.value.tier, clock, log, p.atExpiryOnly, decided)]
    {
      hide TierActions, Excessive, IsHeld, HoldsFresh, IsNewest, Carries, ValidAt, IsUntil, Remembered, Ordered, Span,
           IsRefresh, HoldsComplete, Extends, AllExplained;
      if !IsMember(did) { return Failure(NoMembership); }
      var e := Max(recommended, Governance(did));
      var base := log;
      SelfExtends(log);
      if !p.atExpiryOnly { base := Withdraw(p, log, did, clock, e); }
      var held := HeldTier(base, did, clock);
      var tier := Max(held, e);
      var renewed := IssueIfStale(p, base, did, e, held, digest);
      if renewed.Failure? { return Failure(renewed.error); }
      var after, issued := renewed.value.0, renewed.value.1;
      if issued { ExtendsAppended(log, base, after[|base|]); assert after == base + [after[|base|]]; }
      assert after[..|log|] == base;
      RefreshFacts(p, did, e, log, base, after, clock, nextId, digest, held, Refreshed(tier, issued, []));
      var until := LatestUntil(after, did, clock, tier);
      var vacs := ValidIds(after, did, clock);
      ghost var seen := Seen(did, tier, clock, after, p.atExpiryOnly, decided);
      RefreshKeeps(p, e, log, base, after, nextId, nextId + if issued then 1 else 0, clock, history, seen);
      if issued { IssuedFields(p, did, e, log, after, clock, nextId, digest, Refreshed(tier, issued, vacs)); }
      history := history + [seen];
      log := after;
      if issued { nextId := nextId + 1; }
      members := members[did := members[did].(effectiveTier := tier, effectiveUntil := until)];
      r := Success(Refreshed(tier, issued, vacs));
    }

    /** A recorded decision of governance. The tier of the record is written here and nowhere else. */
    method RecordGovernanceTier(did: string, tier: Tier, author: string, reason: string)
      returns (r: Result<Option<Tier>, Refusal>)
      requires Valid()
      modifies this`members, this`decisions
      ensures Valid()
      ensures r.Success? <==> reason != "" && did in old(members)
      ensures r.Success? ==>
                && members == old(members)[did := old(members)[did].(tier := Some(tier))]
                && r.value == old(members)[did].tier
                             && decisions == old(decisions) + [Decision(did, r.value, tier, author)]
      ensures r.Failure? ==> members == old(members) && decisions == old(decisions)
    {
      if reason == "" { return Failure(ReasonMissing); }
      if did !in members { return Failure(NotFound); }
      var previous := members[did].tier;
      members := members[did := members[did].(tier := Some(tier))];
      decisions := decisions + [Decision(did, previous, tier, author)];
      r := Success(previous);
    }

    /** A steward moves members between T0 and T2, below the steward and never a steward or anchor. */
    method StewardSetTier(did: string, tier: Tier, author: string, callerTier: Option<Tier>, reason: string)
      returns (r: Result<Option<Tier>, Refusal>)
      requires Valid()
      modifies this`members, this`decisions
      ensures Valid()
      ensures r.Success? <==>
                && tier <= 2 && did in old(members) && reason != ""
                && old(members)[did].tier.UnwrapOr(0) < 3
                && old(members)[did].tier.UnwrapOr(0) < callerTier.UnwrapOr(0)
      ensures r.Success? ==> members == old(members)[did := old(members)[did].(tier := Some(tier))]
                             && decisions == old(decisions) + [Decision(did, old(members)[did].tier, tier, author)]
      ensures r.Failure? ==> members == old(members) && decisions == old(decisions)
    {
      if tier > 2 { return Failure(TierProtected); }
      if did !in members { return Failure(NotFound); }
      var current := Governance(did);
      if current >= 3 || current >= callerTier.UnwrapOr(0) { return Failure(TierProtected); }
      r := RecordGovernanceTier(did, tier, author, reason);
    }

    /** Revokes the newest credential with the digest. A second revocation keeps the first date. */
    method RevokeAuthority(digest: string) returns (r: Result<(nat, int), Refusal>)
      requires Valid()
      modifies this`log, this`decided
      ensures Valid() && Extends(old(log), log) && |log| == |old(log)|
      ensures forall k: nat :: k in decided <==> k in old(decided) || NewlyRevoked(old(log), log, k)
      ensures r.Success? <==> exists i :: 0 <= i < |old(log)| && old(log)[i].digest == digest
      ensures r.Success? ==> exists i :: 0 <= i < |log| && IsLastWith(old(log), digest, i)
                                         && r.value.0 == log[i].id && log[i].revokedAt == Some(r.value.1)
                                         && log == old(log)[i := log[i]]
                                         && r.value.1 == old(log)[i].revokedAt.UnwrapOr(clock)
      ensures r.Failure? ==> log == old(log)
    {
      hide Remembered, Ordered, AllExplained;
      var i := |log|;
      while i > 0
        invariant 0 <= i <= |log| && forall j :: i <= j < |log| ==> log[j].digest != digest
        invariant log == old(log) && decided == old(decided)
      {
        i := i - 1;
        if log[i].digest == digest {
          ghost var before := log;
          var at := log[i].revokedAt.UnwrapOr(clock);
          var after := log[i := log[i].(revokedAt := Some(at))];
          assert SameOrRevoked(log[i], after[i]);
          KeepsOrder(log, nextId, clock, after, nextId);
          RememberOn(history, log, after, clock, clock);
          ExtendsLength(history, log, clock);
          ghost var decided' := if log[i].revokedAt.None? then decided + {i} else decided;
          ExplainedOn(history, log, after, decided, decided');
          decided := decided';
          log := after;
          assert log == before[i := log[i]];
          return Success((log[i].id, at));
        }
      }
      r := Failure(NotFound);
    }

    /** The merchant root credential of an enterprise owner, which is logged here with the owner's tier. */
    method LogMerchantAuthority(did: string, tier: Tier, days: nat, digest: string)
      requires Valid()
      modifies this`log, this`nextId
      ensures Valid()
      ensures log == old(log)
                       + [Row(old(nextId), did, {PayReceive}, Some(tier), digest, clock, clock + days * 86_400_000,
                              None)]
    {
      hide Remembered, Ordered, AllExplained;
      var row := Row(nextId, did, {PayReceive}, Some(tier), digest, clock, clock + days * DAY_MS, None);
      SelfExtends(log);
      ExtendsAppended(log, log, row);
      KeepsOrder(log, nextId, clock, log + [row], nextId + 1);
      RememberOn(history, log, log + [row], clock, clock);
      ExtendsLength(history, log, clock);
      ExplainedOn(history, log, log + [row], decided, decided);
      log := log + [row];
      nextId := nextId + 1;
    }

    /**
     Over any run of refreshes, decisions, revocations, merchant rows and waiting: when a later refresh
     gives a member less than an earlier one did, all the authority above the later tier that was in force
     has expired or been revoked by then, and there was some. When every refresh of the member since then was
     under the usual policy, what has not expired was revoked by decision.
     */
    lemma NoDowngradeMidValidity(i: nat, j: nat)
      requires Valid() && i < j < |history| && history[i].did == history[j].did && history[j].tier < history[i].tier
      ensures |history[i].log| <= |history[j].log|
      ensures forall k :: 0 <= k < |history[i].log| ==> var was, now := history[i].log[k], history[j].log[k];
                now == was.(revokedAt := now.revokedAt) && (was.revokedAt.Some? ==> now.revokedAt == was.revokedAt)
      ensures forall k :: 0 <= k < |history[i].log| ==> var was, now := history[i].log[k], history[j].log[k];
                was.subject == history[i].did && was.tier.Some? && was.tier.value > history[j].tier ==>
                  now.validUntil <= history[j].at || now.revokedAt.Some?
      ensures (forall m :: i < m <= j && history[m].did == history[i].did ==> history[m].usual) ==>
                forall k: nat ::
                  k < |history[i].log| && Above(history[i], k, history[j].tier) && history[i].log[k].revokedAt.None? ==>
                  history[j].log[k].validUntil <= history[j].at || k in history[j].decided
      ensures exists k: nat :: k < |history[i].log|
                && history[i].log[k].subject == history[i].did && history[i].log[k].tier == Some(history[i].tier)
                && history[i].log[k].validUntil > history[i].at && history[i].log[k].revokedAt == None
    {
      hide Ordered;
      var was, now := history[i], history[j];
      assert Extends(was.log, now.log) && IsHeld(was.log, was.did, was.at, was.tier)
             && IsHeld(now.log, now.did, now.at, now.tier);
      assert ExplainedBy(history, i, j);
      forall k: nat | k < |was.log|
        ensures SameOrRevoked(was.log[k], now.log[k])
        ensures Above(was, k, now.tier) ==> now.log[k].validUntil <= now.at || now.log[k].revokedAt.Some?
      {
      }
      var k :| 0 <= k < |was.log| && Carries(was.log[k], was.did, was.at, was.tier);
      assert Above(was, k, now.tier);
    }

    /** The list that verifiers read, from the log. */
    method PublishStatusList() returns (bits: seq<bv8>)
      requires Valid()
      ensures Publishes(bits, log)
    {
      hide Remembered, AllExplained;
      var rows := StatusRows(log);
      bits := StatusList.BuildList(rows);
      ListIsRead(log, nextId, clock, bits);
    }
  }

  lemma NothingFresh(p: Policy, log: seq<Row>, did: string, now: int, t: Tier)
    requires forall i :: 0 <= i < |log| ==> log[i].revokedAt.Some?
    ensures !HoldsFresh(p, log, did, now, t)
  {
  }

  /**
   A merchant loses the authority to receive payments to a refresh under immediate downgrades, at an unchanged
   tier.
   */
  method ReceivingLost() returns (office: Office)
    ensures fresh(office) && office.Valid() && |office.log| == 2
    ensures office.log[0].subject == "ann" && office.log[0].actions == {PayReceive}
    ensures office.log[0].validUntil > office.clock
    ensures office.log[0].revokedAt == Some(office.clock)
    ensures "ann" in office.members && office.members["ann"].effectiveTier == 1
  {
    hide Office.Valid, HoldsComplete, IsHeld, TierActions;
    office := new Office(map["ann" := Member(Some(1), true, true, 1, None)], 0);
    office.LogMerchantAuthority("ann", 1, 30, "merchant");
    var p := Policy(30 * DAY_MS, false, None);
    ghost var before, id := office.log, office.nextId;
    var refreshed := office.Refresh(p, "ann", 1, "refresh");
    assert before[0].tier == Some(1) && PayReceive in before[0].actions && ValidAt(before[0], "ann", 0);
    ReceivingIsExcessive(p, before[0], 1);
    NothingFresh(p, office.log[..1], "ann", 0, 1);
  }
}
