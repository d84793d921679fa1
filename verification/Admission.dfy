/**
 Admission by witnessed relationships. Two people each sign a half, a third person witnesses the pair, and
 each of the two may be admitted once on the strength of it. Requests may have looked at the witness
 records before others were written; the unique index on pairs and the guarded update close that gap.
 */
module Admission {
  import opened Wrappers
  import opened Strings
  import opened Tiers

  // ----- relationship pairs -----

  datatype Half = Half(issuer: string, subject: string, content: string)

  /** A digest of two digests in order that no other two share. */
  datatype PairDigest = DigestOf(low: string, high: string)

  ghost predicate Injective(digest: Half -> string) { forall x, y :: digest(x) == digest(y) ==> x == y }

  function EdgePairDigest(digest: Half -> string, x: Half, y: Half): PairDigest {
    if AtMost(digest(x), digest(y)) then DigestOf(digest(x), digest(y)) else DigestOf(digest(y), digest(x))
  }

  predicate IsMirroredPair(x: Half, y: Half) { x.issuer == y.subject && y.issuer == x.subject && x.issuer != y.issuer }

  lemma Compared(a: string, b: string)
    ensures AtMost(a, b) || AtMost(b, a)
    ensures AtMost(a, b) && AtMost(b, a) ==> a == b
  {
    BeforeTotal(a, b);
    if Before(a, b) && Before(b, a) {
      BeforeTransitive(a, b, a);
      BeforeIrreflexive(a);
    }
  }

  /** The digest of a pair identifies its two halves, whichever comes first. */
  lemma PairDigestIdentifies(digest: Half -> string, x: Half, y: Half, u: Half, v: Half)
    requires Injective(digest)
    ensures EdgePairDigest(digest, x, y) == EdgePairDigest(digest, u, v) <==> (x == u && y == v) || (x == v && y == u)
    ensures var d := EdgePairDigest(digest, x, y);
            AtMost(d.low, d.high) && (d.low == digest(x) || d.low == digest(y))
  {
    hide Before;
    Compared(digest(x), digest(y));
    Compared(digest(u), digest(v));
    Compared(digest(v), digest(u));
  }

  predicate IsPairAt(digest: Half -> string, halves: seq<Half>, i: nat, j: nat, d: PairDigest) {
    i < j < |halves| && IsMirroredPair(halves[i], halves[j]) && EdgePairDigest(digest, halves[i], halves[j]) == d
  }

  method FindPair(digest: Half -> string, halves: seq<Half>, d: PairDigest) returns (r: Option<(nat, nat)>)
    ensures r.Some? ==> IsPairAt(digest, halves, r.value.0, r.value.1, d)
    ensures r.None? ==> forall i: nat, j: nat :: !IsPairAt(digest, halves, i, j, d)
  {
    hide EdgePairDigest, IsMirroredPair;
    for i := 0 to |halves|
      invariant forall k: nat, j: nat :: k < i ==> !IsPairAt(digest, halves, k, j, d)
    {
      for j := i + 1 to |halves|
        invariant forall m: nat :: m < j ==> !IsPairAt(digest, halves, i, m, d)
      {
        if IsPairAt(digest, halves, i, j, d) { return Some((i, j)); }
      }
    }
    r := None;
  }

  // ----- rows -----

  datatype Kind = Gathering | Meeting

  datatype Event = Event(kind: Kind, startsAt: int, endsAt: int, conveners: set<string>, attestation: bool,
                         taskDigest: string)

  datatype Vwc = Vwc(issuer: string, pair: PairDigest, partyA: string, partyB: string, task: string,
                     taskDigest: string, subject: Option<string>, attestor: string, validFrom: int, validUntil: int)

  datatype Ref = Ref(event: string, attestor: string, createdAt: int, pair: PairDigest, tier: Option<Tier>,
                     usedBy: seq<string>)

  datatype Member = Member(tier: Tier, effectiveTier: Option<Tier>, effectiveUntil: Option<int>,
                           grantUntil: Option<int>)

  datatype Refusal = BadTimes | BadPair | BadSubject | NotFound | NotAttestationEvent | NotConvener | SelfWitness
    | AlreadyWitnessed | EventNotActive | IdInUse
    | WitnessInvalid | EdgeNotYours | WitnessUsed | NoValidity

  datatype Witnessed = Witnessed(vwc: Vwc, existing: bool)

  datatype Granted = Granted(until: int, existing: bool)

  const DAY_MS := 86_400_000
  const HOUR_MS := 3_600_000
  const WITNESS_DAYS := 365
  const GRANT_CEILING_DAYS := 90
  const SAFETY_MS := 60_000

  predicate CanWitnessAt(id: string, e: Event) { e.taskDigest != "" && (e.attestation || "smoke-" <= id) }

  predicate IsActive(e: Event, now: int) { e.startsAt - HOUR_MS <= now <= e.endsAt + DAY_MS }

  /** An admission that has not run out. */
  predicate HasGrant(members: map<string, Member>, did: string, now: int) {
    did in members && members[did].grantUntil.Some? && members[did].grantUntil.value > now
  }

  /** How long an admission lasts: what was asked for, up to the ceiling, less a margin. */
  function Span(validityMs: int): int {
    (if validityMs <= GRANT_CEILING_DAYS * DAY_MS then validityMs else GRANT_CEILING_DAYS * DAY_MS) - SAFETY_MS
  }

  function CurrentTier(members: map<string, Member>, did: string, now: int): Tier {
    if did !in members then 0
    else
      var m := members[did];
      if m.effectiveTier.Some? && (m.effectiveUntil.None? || m.effectiveUntil.value > now)
         && m.effectiveTier.value > m.tier
      then m.effectiveTier.value
      else m.tier
  }

  /** The tier of today is the higher of the two on record; the one that authority gave counts until it runs out. */
  lemma TierToday(members: map<string, Member>, did: string, now: int)
    ensures did !in members ==> CurrentTier(members, did, now) == 0
    ensures did in members ==> var m, t := members[did], CurrentTier(members, did, now);
              && t >= m.tier
              && (if m.effectiveTier.Some? && (m.effectiveUntil.Some? ==> now < m.effectiveUntil.value)
                  then t >= m.effectiveTier.value && (t == m.tier || t == m.effectiveTier.value)
                  else t == m.tier)
  {
  }

  function TierAt(members: map<string, Member>, attestor: string, session: Option<Tier>, now: int): Tier {
    var current := CurrentTier(members, attestor, now);
    if session.Some? && session.value <= current then session.value else current
  }

  /** The session tier and the tier of today each bound the tier that goes on record, which is one of the two. */
  lemma TierIsCapped(members: map<string, Member>, attestor: string, session: Option<Tier>, now: int)
    ensures TierAt(members, attestor, session, now) <= CurrentTier(members, attestor, now)
    ensures session.Some? ==> TierAt(members, attestor, session, now) <= session.value
    ensures TierAt(members, attestor, session, now) in {CurrentTier(members, attestor, now), session.UnwrapOr(0)}
    ensures session.None? ==> TierAt(members, attestor, session, now) == CurrentTier(members, attestor, now)
  {
  }

  // ----- invariants -----

  function UsedAlso(used: seq<string>, did: string): seq<string> { if did in used then used else used + [did] }

  ghost predicate UsedWithinPair(v: Vwc, used: seq<string>) {
    && (forall i :: 0 <= i < |used| ==> used[i] == v.partyA || used[i] == v.partyB)
    && (forall i, j :: 0 <= i < j < |used| ==> used[i] != used[j])
  }

  lemma AmongTwo(p: string, q: string, a: string, b: string, c: string)
    ensures (a == p || a == q) && (b == p || b == q) && (c == p || c == q) ==> a == b || a == c || b == c
  {
  }

  /** A witness record admits at most two people. */
  lemma AtMostTwo(v: Vwc, used: seq<string>)
    requires UsedWithinPair(v, used)
    ensures |used| <= 2
    ensures (v.partyA !in used || v.partyB !in used) ==> |used| <= 1
  {
    if |used| > 2 {
      AmongTwo(v.partyA, v.partyB, used[0], used[1], used[2]);
      assert false;
    }
    if |used| == 2 {
      AmongTwo(v.partyA, v.partyB, used[0], used[1], v.partyA);
      AmongTwo(v.partyA, v.partyB, used[0], used[1], v.partyB);
    }
  }

  ghost predicate RefSound(pod: string, events: map<string, Event>, v: Vwc, r: Ref) {
    && v.issuer == pod && r.pair == v.pair && r.event == v.task && r.attestor == v.attestor && r.event in events
    && v.partyA != v.partyB && v.attestor != v.partyA && v.attestor != v.partyB
    && UsedWithinPair(v, r.usedBy)
  }

  ghost predicate RefsSound(pod: string, events: map<string, Event>, refs: map<Vwc, Ref>) {
    && (forall v :: v in refs ==> RefSound(pod, events, v, refs[v]))
    && (forall v, w :: v in refs && w in refs && refs[v].pair == refs[w].pair ==> v == w)
  }

  ghost predicate WitnessedAt(refs: map<Vwc, Ref>, id: string) { exists v :: v in refs && refs[v].event == id }

  /** Every meeting that was kept is there because of a record. */
  ghost predicate MeetingsRecorded(events: map<string, Event>, refs: map<Vwc, Ref>) {
    forall id :: id in events && events[id].kind == Meeting ==> WitnessedAt(refs, id)
  }

  /** No meeting has two records. */
  ghost predicate MeetingsOnce(events: map<string, Event>, refs: map<Vwc, Ref>) {
    forall v, w |
      && v in refs && w in refs && refs[v].event == refs[w].event
      && refs[v].event in events && events[refs[v].event].kind == Meeting
      :: v == w
  }

  ghost predicate AdmittedBySome(refs: map<Vwc, Ref>, did: string) { exists v :: v in refs && did in refs[v].usedBy }

  ghost predicate PairOk(digest: Half -> string, signed: Half -> bool, x: Half, y: Half) {
    x.issuer == y.subject && x.subject == y.issuer && x.issuer != y.issuer && signed(x) && signed(y)
  }

  ghost predicate PairSeen(refs: map<Vwc, Ref>, seen: set<Vwc>, pair: PairDigest) {
    exists v :: v in seen && v in refs && refs[v].pair == pair
  }

  ghost predicate OnlyBy(refs: map<Vwc, Ref>, pair: PairDigest, attestor: string) {
    forall v :: v in refs && refs[v].pair == pair ==> refs[v].attestor == attestor
  }

  // ----- keeping the invariants -----

  lemma RefAdded(pod: string, events: map<string, Event>, refs: map<Vwc, Ref>, v: Vwc, r: Ref)
    requires RefsSound(pod, events, refs) && RefSound(pod, events, v, r)
    requires forall w :: w in refs ==> refs[w].pair != r.pair
    ensures v !in refs && RefsSound(pod, events, refs[v := r])
  {
    hide UsedWithinPair;
  }

  lemma EventAdded(pod: string, events: map<string, Event>, refs: map<Vwc, Ref>, id: string, e: Event)
    requires RefsSound(pod, events, refs) && id !in events
    ensures RefsSound(pod, events[id := e], refs) && !WitnessedAt(refs, id)
  {
    hide UsedWithinPair;
  }

  lemma RefUsed(pod: string, events: map<string, Event>, refs: map<Vwc, Ref>, v: Vwc, did: string)
    requires RefsSound(pod, events, refs) && v in refs && (did == v.partyA || did == v.partyB) && did !in refs[v].usedBy
    ensures RefsSound(pod, events, refs[v := refs[v].(usedBy := refs[v].usedBy + [did])])
  {
    var used := refs[v].usedBy + [did];
    assert UsedWithinPair(v, used);
    hide UsedWithinPair;
    var after := refs[v := refs[v].(usedBy := used)];
    forall a, b | a in after && b in after && after[a].pair == after[b].pair ensures a == b {
      assert refs[a].pair == refs[b].pair;
    }
  }

  lemma FirstOfPair(refs: map<Vwc, Ref>, pair: PairDigest)
    requires !PairSeen(refs, refs.Keys, pair)
    ensures forall w :: w in refs ==> refs[w].pair != pair
    ensures forall attestor :: OnlyBy(refs, pair, attestor)
  {
    forall w | w in refs ensures refs[w].pair != pair {
      assert w in refs.Keys;
    }
  }

  lemma RecordIsSound(pod: string, events: map<string, Event>, v: Vwc, r: Ref)
    requires v.issuer == pod && r.pair == v.pair && r.event == v.task && r.attestor == v.attestor && r.event in events
    requires r.usedBy == []
    requires v.partyA != v.partyB && v.attestor != v.partyA && v.attestor != v.partyB
    ensures RefSound(pod, events, v, r)
  {
  }

  lemma StillAdmitted(refs: map<Vwc, Ref>, v: Vwc, r: Ref, admitted: set<string>)
    requires v !in refs && forall did :: did in admitted ==> AdmittedBySome(refs, did)
    ensures forall did :: did in admitted ==> AdmittedBySome(refs[v := r], did)
  {
    forall did | did in admitted ensures AdmittedBySome(refs[v := r], did) {
      assert AdmittedBySome(refs, did);
      var w :| w in refs && did in refs[w].usedBy;
      assert w in refs[v := r] && did in refs[v := r][w].usedBy;
    }
  }

  /** What was seen is still there. */
  lemma SeenIsSeen(refs: map<Vwc, Ref>, seen: set<Vwc>, pair: PairDigest)
    requires seen <= refs.Keys
    ensures PairSeen(refs, seen, pair) ==> PairSeen(refs, refs.Keys, pair)
    ensures forall attestor ::
              PairSeen(refs, seen, pair) && !OnlyBy(refs, pair, attestor) ==> PairSeen(refs, refs.Keys, pair)
  {
    if PairSeen(refs, seen, pair) {
      var v :| v in seen && v in refs && refs[v].pair == pair;
      assert v in refs.Keys;
    }
  }

  /** The record of a pair is the only one. */
  lemma OnlyRecord(pod: string, events: map<string, Event>, refs: map<Vwc, Ref>, v: Vwc, attestor: string)
    requires RefsSound(pod, events, refs) && v in refs && refs[v].attestor == attestor
    ensures OnlyBy(refs, refs[v].pair, attestor) && refs[v].event in events
  {
    hide UsedWithinPair;
  }

  // ----- the registry -----

  lemma SeenUses(pod: string, events: map<string, Event>, refs: map<Vwc, Ref>, v: Vwc, seen: seq<string>)
    requires RefsSound(pod, events, refs) && v in refs && seen <= refs[v].usedBy
    ensures v.partyA !in seen || v.partyB !in seen ==> |seen| <= 1
  {
    assert RefSound(pod, events, v, refs[v]);
    assert UsedWithinPair(v, seen);
    AtMostTwo(v, seen);
  }

  lemma SeenMembers(seen: seq<string>, used: seq<string>, did: string)
    ensures seen <= used && did in seen ==> did in used
  {
  }

  /** Marking a record as used takes nobody's admission away and moves no record. */
  lemma UsingKeeps(events: map<string, Event>, refs: map<Vwc, Ref>, after: map<Vwc, Ref>, v: Vwc, used: seq<string>,
                   admitted: set<string>, did: string)
    requires v in refs && after == refs[v := refs[v].(usedBy := used)] && refs[v].usedBy <= used && did in used
    requires forall d :: d in admitted ==> AdmittedBySome(refs, d)
    ensures forall d :: d in admitted + {did} ==> AdmittedBySome(after, d)
    ensures MeetingsRecorded(events, refs) ==> MeetingsRecorded(events, after)
    ensures MeetingsOnce(events, refs) ==> MeetingsOnce(events, after)
  {
    assert forall w :: w in after ==> w in refs && after[w].event == refs[w].event && refs[w].usedBy <= after[w].usedBy;
    forall d | d in admitted + {did} ensures AdmittedBySome(after, d) {
      if d in admitted {
        assert AdmittedBySome(refs, d);
        var w :| w in refs && d in refs[w].usedBy;
        SeenMembers(refs[w].usedBy, after[w].usedBy, d);
        assert w in after && d in after[w].usedBy;
      } else {
        assert v in after && did in after[v].usedBy;
      }
    }
    forall m | m in events && events[m].kind == Meeting && WitnessedAt(refs, m) ensures WitnessedAt(after, m) {
      var w :| w in refs && refs[w].event == m;
      assert w in after && after[w].event == m;
    }
  }

  class Registry {
    const pod: string
    const digest: Half -> string
    const signed: Half -> bool

    var events: map<string, Event>
    var refs: map<Vwc, Ref>
    var stored: set<Vwc>
    var members: map<string, Member>
    ghost var admitted: set<string>

    /** What holds within a handler as well. */
    ghost predicate Core()
      reads this
    {
      && Injective(digest)
      && RefsSound(pod, events, refs)
      && stored == refs.Keys
      && (forall did :: did in admitted ==> AdmittedBySome(refs, did))
    }

    ghost predicate Valid()
      reads this
    {
      Core() && MeetingsRecorded(events, refs)
    }

    constructor (pod: string, digest: Half -> string, signed: Half -> bool, members: map<string, Member>)
      requires Injective(digest)
      ensures Valid() && this.pod == pod && this.digest == digest && this.signed == signed
      ensures events == map[] && refs == map[] && this.members == members && admitted == {}
    {
      this.pod, this.digest, this.signed, this.members := pod, digest, signed, members;
      events, refs, stored := map[], map[], {};
      admitted := {};
    }

    method CreateEvent(convener: string, startsAt: int, endsAt: int, taskDigest: string, id: string)
      returns (r: Result<Event, Refusal>)
      requires Valid()
      modifies this`events
      ensures Valid()
      ensures r.Success? <==> startsAt < endsAt && id !in old(events)
      ensures r.Success? ==>
                && events == old(events)[id := r.value]
                && r.value == Event(Gathering, startsAt, endsAt, {convener}, true, taskDigest)
      ensures r.Failure? ==> events == old(events) && (r.error == BadTimes <==> endsAt <= startsAt)
      ensures MeetingsOnce(old(events), refs) ==> MeetingsOnce(events, refs)
    {
      hide RefSound, RefsSound, Injective;
      if endsAt <= startsAt { return Failure(BadTimes); }
      if id in events { return Failure(IdInUse); }
      var e := Event(Gathering, startsAt, endsAt, {convener}, true, taskDigest);
      EventAdded(pod, events, refs, id, e);
      events := events[id := e];
      r := Success(e);
    }

    /** Looks a pair up among the records a request can see: its own credential back, nothing, or a refusal. */
    method ExistingWitness(seen: set<Vwc>, pair: PairDigest, attestor: string) returns (r: Result<Option<Vwc>, Refusal>)
      requires Core() && seen <= refs.Keys
      ensures r == Success(None) <==> !PairSeen(refs, seen, pair)
      ensures r.Success? && r.value.Some? ==>
                r.value.value in seen && refs[r.value.value].pair == pair && refs[r.value.value].attestor == attestor
      ensures r.Failure? ==> r.error == AlreadyWitnessed && PairSeen(refs, seen, pair) && !OnlyBy(refs, pair, attestor)
      ensures r.Success? ==> OnlyBy(refs, pair, attestor) || r.value.None?
    {
      hide RefSound;
      var left := seen;
      while left != {}
        invariant left <= seen && forall v :: v in seen - left ==> refs[v].pair != pair
        decreases |left|
      {
        var v :| v in left;
        if refs[v].pair == pair {
          assert PairSeen(refs, seen, pair);
          if refs[v].attestor != attestor { return Failure(AlreadyWitnessed); }
          if v in stored { return Success(Some(v)); }
        }
        left := left - {v};
      }
      r := Success(None);
    }

    /** What both ways of witnessing ask of a request. */
    ghost predicate Fit(x: Half, y: Half, subject: Option<string>, attestor: string) {
      && PairOk(digest, signed, x, y)
      && (subject.Some? ==> subject.value == x.issuer || subject.value == y.issuer)
      && attestor != x.issuer && attestor != y.issuer
    }

    /** The record that witnessing adds. */
    ghost predicate NewRecord(before: map<Vwc, Ref>, after: map<Vwc, Ref>, v: Vwc, id: string, x: Half, y: Half,
                              attestor: string, subject: Option<string>, session: Option<Tier>, now: int)
      reads this
    {
      && v !in before && id in events
      && var tier := TierAt(members, attestor, session, now);
      && after == before[v := Ref(id, attestor, now, EdgePairDigest(digest, x, y), Some(tier), [])]
      && v == Vwc(pod, EdgePairDigest(digest, x, y), x.issuer, y.issuer, id, events[id].taskDigest, subject, attestor,
                  now, now + 365 * 86_400_000)
    }

    /**
     Records a witnessed pair. The unique index on pairs decides: with a record already there, its own
     witness gets that one back and anybody else is refused.
     */
    method IssueWitness(attestor: string, id: string, x: Half, y: Half, subject: Option<string>, session: Option<Tier>,
                        now: int) returns (r: Result<Witnessed, Refusal>)
      requires Core() && id in events && Fit(x, y, subject, attestor)
      modifies this`refs, this`stored
      ensures Core()
      ensures var pair := EdgePairDigest(digest, x, y);
              && (r.Success? <==> OnlyBy(old(refs), pair, attestor))
              && (r.Success? ==> (r.value.existing <==> PairSeen(old(refs), old(refs).Keys, pair)))
              && (r.Success? ==>
                    r.value.vwc in refs && refs[r.value.vwc].pair == pair && refs[r.value.vwc].attestor == attestor)
      ensures r.Success? && !r.value.existing ==>
                NewRecord(old(refs), refs, r.value.vwc, id, x, y, attestor, subject, session, now)
      ensures r.Failure? || r.value.existing ==> refs == old(refs) && stored == old(stored)
      ensures r.Failure? ==> r.error == AlreadyWitnessed
    {
      hide RefSound, RefsSound, EdgePairDigest, Injective, CurrentTier;
      var e := events[id];
      var pair := EdgePairDigest(digest, x, y);
      var vwc := Vwc(pod, pair, x.issuer, y.issuer, id, e.taskDigest, subject, attestor, now,
                     now + WITNESS_DAYS * DAY_MS);
      var again := ExistingWitness(refs.Keys, pair, attestor);
      if again.Failure? { return Failure(again.error); }
      if again.value.Some? { return Success(Witnessed(again.value.value, true)); }
      var row := Ref(id, attestor, now, pair, Some(TierAt(members, attestor, session, now)), []);
      FirstOfPair(refs, pair);
      RecordIsSound(pod, events, vwc, row);
      RefAdded(pod, events, refs, vwc, row);
      StillAdmitted(refs, vwc, row, admitted);
      refs, stored := refs[vwc := row], stored + {vwc};
      r := Success(Witnessed(vwc, false));
    }

    lemma MeetingsStay(events: map<string, Event>, before: map<Vwc, Ref>, after: map<Vwc, Ref>, v: Vwc, id: string,
                       x: Half, y: Half, attestor: string, subject: Option<string>, session: Option<Tier>, now: int)
      requires events == this.events && NewRecord(before, after, v, id, x, y, attestor, subject, session, now)
      requires MeetingsRecorded(events, before)
      ensures MeetingsRecorded(events, after)
      ensures MeetingsOnce(events, before) ==> (MeetingsOnce(events, after) <==> events[id].kind == Gathering)
    {
      hide EdgePairDigest, TierAt;
      forall m | m in events && events[m].kind == Meeting ensures WitnessedAt(after, m) {
        assert WitnessedAt(before, m);
        var w :| w in before && before[w].event == m;
        assert w in after && after[w].event == m;
      }
      if events[id].kind == Meeting {
        assert WitnessedAt(before, id);
        var w :| w in before && before[w].event == id;
        assert w in after && w != v && after[w].event == after[v].event;
      }
    }

    /**
     Witnesses a pair at an event, for one of its conveners. The records seen at first may be out of date.
     A pair never has two records. A meeting, too, can be named as the event: that gives it a second record.
     */
    method WitnessEdge(convener: string, id: string, x: Half, y: Half, subject: Option<string>, seen: set<Vwc>,
                       session: Option<Tier>, now: int) returns (r: Result<Witnessed, Refusal>)
      requires Valid() && seen <= refs.Keys
      modifies this`refs, this`stored
      ensures Valid()
      ensures r.Success? <==>
                && PairOk(digest, signed, x, y)
                && (subject.Some? ==> subject.value == x.issuer || subject.value == y.issuer)
                && id in events && events[id].taskDigest != "" && (events[id].attestation || "smoke-" <= id)
                && convener in events[id].conveners
                && convener != x.issuer && convener != y.issuer
                && OnlyBy(old(refs), EdgePairDigest(digest, x, y), convener)
                && (|| PairSeen(old(refs), seen, EdgePairDigest(digest, x, y))
                    || events[id].startsAt - 3_600_000 <= now <= events[id].endsAt + 86_400_000)
      ensures r.Success? ==>
                && r.value.vwc in refs && refs[r.value.vwc].pair == EdgePairDigest(digest, x, y)
                && refs[r.value.vwc].attestor == convener
      ensures r.Success? ==> (r.value.existing <==> PairSeen(old(refs), old(refs).Keys, EdgePairDigest(digest, x, y)))
      ensures r.Success? && !r.value.existing ==>
                NewRecord(old(refs), refs, r.value.vwc, id, x, y, convener, subject, session, now)
      ensures r.Failure? || r.value.existing ==> refs == old(refs) && stored == old(stored)
      ensures r.Success? && !r.value.existing && MeetingsOnce(events, old(refs)) ==>
                (MeetingsOnce(events, refs) <==> events[id].kind == Gathering)
    {
      hide RefSound, RefsSound, EdgePairDigest, Injective, CurrentTier, OnlyBy, PairSeen, MeetingsOnce,
           MeetingsRecorded, NewRecord;
      if !IsMirroredPair(x, y) || !signed(x) || !signed(y) { return Failure(BadPair); }
      if subject.Some? && subject.value != x.issuer && subject.value != y.issuer { return Failure(BadSubject); }
      if id !in events { return Failure(NotFound); }
      if !CanWitnessAt(id, events[id]) { return Failure(NotAttestationEvent); }
      if convener !in events[id].conveners { return Failure(NotConvener); }
      if convener == x.issuer || convener == y.issuer { return Failure(SelfWitness); }
      var pair := EdgePairDigest(digest, x, y);
      SeenIsSeen(refs, seen, pair);
      var recovered := ExistingWitness(seen, pair, convener);
      if recovered.Failure? { return Failure(recovered.error); }
      if recovered.value.Some? {
        OnlyRecord(pod, events, refs, recovered.value.value, convener);
        return Success(Witnessed(recovered.value.value, true));
      }
      if !IsActive(events[id], now) { return Failure(EventNotActive); }
      r := IssueWitness(convener, id, x, y, subject, session, now);
      if r.Success? && !r.value.existing {
        MeetingsStay(events, old(refs), refs, r.value.vwc, id, x, y, convener, subject, session, now);
      }
    }

    lemma MeetingKept(before: map<string, Event>, refs: map<Vwc, Ref>, after: map<Vwc, Ref>, v: Vwc, id: string,
                      x: Half, y: Half, attestor: string, subject: Option<string>, session: Option<Tier>, now: int)
      requires id in events && before == events - {id}
      requires NewRecord(refs, after, v, id, x, y, attestor, subject, session, now)
      requires MeetingsRecorded(before, refs) && RefsSound(pod, before, refs)
      ensures MeetingsRecorded(events, after)
      ensures MeetingsOnce(before, refs) ==> MeetingsOnce(events, after)
    {
      hide EdgePairDigest, TierAt, UsedWithinPair;
      forall m | m in events && events[m].kind == Meeting ensures WitnessedAt(after, m) {
        if m == id { assert v in after && after[v].event == id; } else {
          assert WitnessedAt(refs, m);
          var w :| w in refs && refs[w].event == m;
          assert w in after && after[w].event == m;
        }
      }
      forall w | w in refs ensures refs[w].event != id {
        assert RefSound(pod, before, w, refs[w]);
      }
      if MeetingsOnce(before, refs) {
        forall a, b |
            && a in after && b in after && after[a].event == after[b].event && after[a].event in events
            && events[after[a].event].kind == Meeting
          ensures a == b
        {
          if a != v && b != v { assert RefSound(pod, before, a, refs[a]); }
        }
      }
    }

    /**
     Witnesses a pair with no event: a meeting is made for the record. A recovery, even one that only the
     unique index discovers, leaves no meeting behind; so a meeting that is kept has its record, and only that one.
     */
    method WitnessMeeting(attestor: string, x: Half, y: Half, subject: Option<string>, seen: set<Vwc>,
                          session: Option<Tier>, taskDigest: string, id: string, now: int)
      returns (r: Result<Witnessed, Refusal>)
      requires Valid() && seen <= refs.Keys
      modifies this`events, this`refs, this`stored
      ensures Valid()
      ensures r.Success? <==>
                && Fit(x, y, subject, attestor) && OnlyBy(old(refs), EdgePairDigest(digest, x, y), attestor)
                && (PairSeen(old(refs), seen, EdgePairDigest(digest, x, y)) || id !in old(events))
      ensures r.Success? ==>
                && r.value.vwc in refs && refs[r.value.vwc].pair == EdgePairDigest(digest, x, y)
                && refs[r.value.vwc].attestor == attestor && refs[r.value.vwc].event in events
      ensures r.Success? ==> (r.value.existing <==> PairSeen(old(refs), old(refs).Keys, EdgePairDigest(digest, x, y)))
      ensures r.Success? && !r.value.existing ==>
                NewRecord(old(refs), refs, r.value.vwc, id, x, y, attestor, subject, session, now)
      ensures r.Success? && !r.value.existing ==>
                events == old(events)[id := Event(Meeting, now, now + 3_600_000, {attestor}, true, taskDigest)]
      ensures r.Failure? || r.value.existing ==> refs == old(refs) && stored == old(stored) && events == old(events)
      ensures MeetingsOnce(old(events), old(refs)) ==> MeetingsOnce(events, refs)
    {
      hide RefSound, RefsSound, EdgePairDigest, Injective, CurrentTier, OnlyBy, PairSeen, MeetingsOnce,
           MeetingsRecorded, NewRecord;
      if !IsMirroredPair(x, y) || !signed(x) || !signed(y) { return Failure(BadPair); }
      if subject.Some? && subject.value != x.issuer && subject.value != y.issuer { return Failure(BadSubject); }
      if attestor == x.issuer || attestor == y.issuer { return Failure(SelfWitness); }
      var pair := EdgePairDigest(digest, x, y);
      SeenIsSeen(refs, seen, pair);
      var recovered := ExistingWitness(seen, pair, attestor);
      if recovered.Failure? { return Failure(recovered.error); }
      if recovered.value.Some? {
        OnlyRecord(pod, events, refs, recovered.value.value, attestor);
        return Success(Witnessed(recovered.value.value, true));
      }
      if id in events { return Failure(IdInUse); }
      var before := events;
      EventAdded(pod, events, refs, id, Event(Meeting, now, now + HOUR_MS, {attestor}, true, taskDigest));
      events := events[id := Event(Meeting, now, now + HOUR_MS, {attestor}, true, taskDigest)];
      r := IssueWitness(attestor, id, x, y, subject, session, now);
      if r.Failure? {
        events := before;
      } else if r.value.existing {
        events := events - {id};
        assert events == before;
        OnlyRecord(pod, events, refs, r.value.vwc, attestor);
      } else {
        OnlyRecord(pod, events, refs, r.value.vwc, attestor);
        MeetingKept(before, old(refs), refs, r.value.vwc, id, x, y, attestor, subject, session, now);
      }
    }

    // ----- admission -----

    /** The tier the witness had then; records from before tiers were kept count with the tier of today. */
    function RecordedTier(v: Vwc, now: int): Tier
      reads this
    {
      if v !in refs then 0
      else if refs[v].tier.Some? then refs[v].tier.value
      else CurrentTier(members, refs[v].attestor, now)
    }

    /** The witness record that a presented credential must have, and what must hold of it. */
    ghost predicate Witnesses(v: Vwc, vSigned: bool, holder: string, hasAuthority: (string, int) -> bool,
                              required: Option<Tier>, now: int)
      reads this
    {
      && v.issuer == pod && vSigned && v.validFrom <= now < v.validUntil
      && (v.subject.Some? ==> v.subject.value == holder)
      && v.task in events && events[v.task].taskDigest == v.taskDigest && v.taskDigest != ""
      && (events[v.task].attestation || "smoke-" <= v.task)
      && v in refs && refs[v].event == v.task
      && hasAuthority(refs[v].attestor, refs[v].createdAt)
      && (required.Some? ==> refs[v].tier.UnwrapOr(CurrentTier(members, refs[v].attestor, now)) >= required.value)
    }

    ghost predicate FoundFits(v: Vwc, x: Half, y: Half, holder: string) {
      && x.issuer == y.subject && x.subject == y.issuer && x.issuer != y.issuer
      && signed(x) && signed(y) && (holder == x.issuer || holder == y.issuer)
      && {x.issuer, y.issuer} == {v.partyA, v.partyB}
    }

    /** The applicant holds both signed halves of the witnessed pair and is one of the two. */
    ghost predicate IsParty(v: Vwc, halves: seq<Half>, holder: string)
    {
      exists i: nat, j: nat :: IsPairAt(digest, halves, i, j, v.pair) && FoundFits(v, halves[i], halves[j], holder)
    }

    /** Whichever copy of the pair is found, the answer is the same. */
    lemma AnyPairWillDo(v: Vwc, halves: seq<Half>, i: nat, j: nat, holder: string)
      requires Injective(digest) && IsPairAt(digest, halves, i, j, v.pair)
      ensures IsParty(v, halves, holder) <==> FoundFits(v, halves[i], halves[j], holder)
    {
      hide EdgePairDigest;
      forall k: nat, m: nat | IsPairAt(digest, halves, k, m, v.pair) && FoundFits(v, halves[k], halves[m], holder)
        ensures FoundFits(v, halves[i], halves[j], holder)
      {
        PairDigestIdentifies(digest, halves[i], halves[j], halves[k], halves[m]);
      }
    }

    method CheckWitness(v: Vwc, vSigned: bool, halves: seq<Half>, holder: string, hasAuthority: (string, int) -> bool,
                        required: Option<Tier>, seenUsed: seq<string>, now: int)
      returns (r: Option<Refusal>)
      requires Core() && (v in refs ==> seenUsed <= refs[v].usedBy)
      ensures r == None <==> Witnesses(v, vSigned, holder, hasAuthority, required, now) && IsParty(v, halves, holder)
      ensures r == None ==> holder == v.partyA || holder == v.partyB
      ensures r != Some(WitnessUsed)
      ensures r.Some? && Witnesses(v, vSigned, holder, hasAuthority, required, now) ==> r.value == EdgeNotYours
    {
      hide RefSound, EdgePairDigest, Injective, CurrentTier, UsedWithinPair;
      if v.issuer != pod || !vSigned { return Some(WitnessInvalid); }
      if v.validFrom > now || v.validUntil <= now { return Some(WitnessInvalid); }
      if v.subject.Some? && v.subject.value != holder { return Some(EdgeNotYours); }
      if v.task !in events || !CanWitnessAt(v.task, events[v.task]) || events[v.task].taskDigest != v.taskDigest {
        return Some(WitnessInvalid);
      }
      if v !in refs || refs[v].event != v.task { return Some(WitnessInvalid); }
      if !hasAuthority(refs[v].attestor, refs[v].createdAt) { return Some(WitnessInvalid); }
      if required.Some? && RecordedTier(v, now) < required.value { return Some(WitnessInvalid); }
      var found := FindPair(digest, halves, v.pair);
      if found.None? { return Some(EdgeNotYours); }
      var x, y := halves[found.value.0], halves[found.value.1];
      AnyPairWillDo(v, halves, found.value.0, found.value.1, holder);
      if !signed(x) || !signed(y) { return Some(EdgeNotYours); }
      if holder != x.issuer && holder != y.issuer { return Some(EdgeNotYours); }
      if {x.issuer, y.issuer} != {v.partyA, v.partyB} { return Some(EdgeNotYours); }
      assert holder in {v.partyA, v.partyB};
      SeenUses(pod, events, refs, v, seenUsed);
      if holder !in seenUsed && |seenUsed| >= 2 { return Some(WitnessUsed); }
      r := None;
    }

    lemma Recorded(v: Vwc, vSigned: bool, holder: string, hasAuthority: (string, int) -> bool, required: Option<Tier>,
                   now: int)
      ensures Witnesses(v, vSigned, holder, hasAuthority, required, now) ==> v in refs
    {
    }

    /**
     Admits an applicant on a witness credential. Somebody else's two admissions never stand in the way: the
     record is refused as used only to an applicant whom another request of their own has meanwhile admitted.
     */
    method ApplyMembership(holder: string, v: Vwc, vSigned: bool, halves: seq<Half>,
                           hasAuthority: (string, int) -> bool, required: Option<Tier>, validityMs: int,
                           seenUsed: seq<string>, now: int) returns (r: Result<Granted, Refusal>)
      requires Valid() && (v in refs ==> seenUsed <= refs[v].usedBy)
      modifies this`refs, this`members, this`admitted
      ensures Valid()
      ensures r.Success? <==>
                && old(Witnesses(v, vSigned, holder, hasAuthority, required, now)) && IsParty(v, halves, holder)
                && (|| (holder in old(members) && old(members)[holder].grantUntil.UnwrapOr(now) > now)
                    || (validityMs > 60_000 && (holder in seenUsed || holder !in old(refs)[v].usedBy)))
      ensures r.Success? ==> holder == v.partyA || holder == v.partyB
      ensures r.Success? ==>
                (r.value.existing <==> holder in old(members) && old(members)[holder].grantUntil.UnwrapOr(now) > now)
      ensures r.Success? && !r.value.existing ==>
                && v in refs && holder in refs[v].usedBy && admitted == old(admitted) + {holder}
                && refs == old(refs)[v := old(refs)[v].(usedBy := UsedAlso(old(refs)[v].usedBy, holder))]
                && r.value.until == now - 60_000 + (if validityMs <= 7_776_000_000 then validityMs else 7_776_000_000)
                && r.value.until > now && holder in members
                && members[holder].grantUntil == Some(r.value.until)
                && members == old(members)[holder := members[holder]]
                && members[holder].tier == (if holder in old(members) then old(members)[holder].tier else 0)
      ensures r.Success? && r.value.existing ==>
                holder in members && members[holder].grantUntil == Some(r.value.until) && r.value.until > now
      ensures r.Failure? || r.value.existing ==>
                refs == old(refs) && members == old(members) && admitted == old(admitted)
      ensures r == Failure(WitnessUsed) ==> v in refs && holder in refs[v].usedBy && holder !in seenUsed
      ensures MeetingsOnce(events, old(refs)) ==> MeetingsOnce(events, refs)
    {
      hide RefSound, RefsSound, EdgePairDigest, Injective, CurrentTier, CanWitnessAt, UsedWithinPair, IsMirroredPair,
           Witnesses, IsParty, AdmittedBySome, MeetingsRecorded, MeetingsOnce;
      var problem := CheckWitness(v, vSigned, halves, holder, hasAuthority, required, seenUsed, now);
      if problem.Some? { return Failure(problem.value); }
      Recorded(v, vSigned, holder, hasAuthority, required, now);
      if HasGrant(members, holder, now) {
        return Success(Granted(members[holder].grantUntil.value, true));
      }
      var span := Span(validityMs);
      if span <= 0 { return Failure(NoValidity); }
      var used := refs[v].usedBy;
      if holder !in seenUsed {
        SeenUses(pod, events, refs, v, refs[v].usedBy);
        if holder in used || |used| >= 2 { return Failure(WitnessUsed); }
        used := used + [holder];
        RefUsed(pod, events, refs, v, holder);
      }
      SeenMembers(seenUsed, refs[v].usedBy, holder);
      var after := refs[v := refs[v].(usedBy := used)];
      assert holder !in refs[v].usedBy || after == refs;
      UsingKeeps(events, refs, after, v, used, admitted, holder);
      refs := after;
      assert stored == refs.Keys;
      var was := if holder in members then members[holder].tier else 0;
      members := members[holder := Member(was, None, None, Some(now + span))];
      admitted := admitted + {holder};
      r := Success(Granted(now + span, false));
    }
  }

  /** A meeting need not keep to one record: the witness who made it can name it as the event of another pair. */
  method TwoRecordsAtOneMeeting(digest: Half -> string) returns (reg: Registry)
    requires Injective(digest)
    ensures reg.Valid() && !MeetingsOnce(reg.events, reg.refs)
  {
    hide EdgePairDigest, Injective, RefsSound;
    var x, y := Half("ann", "bob", ""), Half("bob", "ann", "");
    var u, v := Half("cat", "dan", ""), Half("dan", "cat", "");
    reg := new Registry("pod", digest, (h: Half) => true, map[]);
    var first := reg.WitnessMeeting("eve", x, y, None, {}, None, "task", "meet-1", 0);
    PairDigestIdentifies(digest, x, y, u, v);
    var second := reg.WitnessEdge("eve", "meet-1", u, v, None, {}, None, 1);
    assert first.value.vwc in reg.refs && second.value.vwc in reg.refs;
  }
}
