/**
 The gate: which authorities a presentation gives its holder. Credentials are positions in the
 presentation, so a credential presented twice is two credentials, as it is to the program. Chains are
 rebuilt from digests, and nothing is assumed of the digest: the presentation may well be cyclic.
 */
module Verifier {
  import opened Wrappers
  import opened AuthorityChain
  import opened Tiers

  datatype Code = MissingAuthority | BroadenedAttenuation | ChainTooDeep | Expired | PodMismatch | NoMembership
    | PairIncomplete | DigestMismatch

  datatype Requirement = Requirement(action: string, scope: Option<string>)

  /** The presentation and what the gate knows before it looks at authority. */
  datatype Gate = Gate(creds: seq<Credential>, digest: Credential -> string, holder: string, pod: Option<string>,
                       accepted: set<string>, now: int, skew: nat)

  datatype Outcome = Outcome(authorities: set<string>, delegatedFor: Option<string>, tier: Option<string>)

  const MAX_HOPS := 8
  const FORWARDABLE := "pay:receive"

  predicate PodOk(g: Gate, did: string) { if g.pod.Some? then did == g.pod.value else did in g.accepted }

  predicate InWindow(g: Gate, vc: Credential) {
    vc.validFrom - g.skew <= g.now && (vc.validUntil.Some? ==> vc.validUntil.value + g.skew > g.now)
  }

  predicate HasParent(a: Authority) { a.parent.Some? && a.parent.value != "" }

  predicate IsVac(vc: Credential) { "AuthorityCredential" in vc.types }

  // ----- ancestry -----

  /** The last authority credential among the first `n` with this digest. */
  function Latest(g: Gate, d: string, n: nat): (r: Option<nat>)
    requires n <= |g.creds|
    ensures r.Some? ==> r.value < n && IsVac(g.creds[r.value]) && g.digest(g.creds[r.value]) == d
    ensures r.Some? ==> forall j :: r.value < j < n ==> !(IsVac(g.creds[j]) && g.digest(g.creds[j]) == d)
    ensures r.None? ==> forall j :: 0 <= j < n ==> !(IsVac(g.creds[j]) && g.digest(g.creds[j]) == d)
  {
    if n == 0 then None
    else if IsVac(g.creds[n - 1]) && g.digest(g.creds[n - 1]) == d then Some(n - 1)
    else Latest(g, d, n - 1)
  }

  function ParentOf(g: Gate, i: nat): (r: Option<nat>)
    requires i < |g.creds|
    ensures r.Some? ==> r.value < |g.creds|
  {
    var a := g.creds[i].authority;
    if a.Some? && HasParent(a.value) then Latest(g, a.value.parent.value, |g.creds|) else None
  }

  /** The parent is the last presented of the authority credentials with the digest that the child names. */
  lemma ParentFields(g: Gate, i: nat)
    requires i < |g.creds|
    ensures ParentOf(g, i).Some? ==>
              var p, a := ParentOf(g, i).value, g.creds[i].authority;
              && a.Some? && a.value.parent == Some(g.digest(g.creds[p])) && a.value.parent != Some("")
              && "AuthorityCredential" in g.creds[p].types
              && forall j :: p < j < |g.creds| && "AuthorityCredential" in g.creds[j].types ==>
                   a.value.parent != Some(g.digest(g.creds[j]))
    ensures ParentOf(g, i).None? ==>
              || g.creds[i].authority.None? || g.creds[i].authority.value.parent.UnwrapOr("") == ""
              || forall j :: 0 <= j < |g.creds| && "AuthorityCredential" in g.creds[j].types ==>
                   g.creds[i].authority.value.parent != Some(g.digest(g.creds[j]))
  {
  }

  predicate IsRootAt(g: Gate, i: nat) {
    && i < |g.creds|
    && g.creds[i].authority.Some? && !HasParent(g.creds[i].authority.value)
  }

  ghost predicate InRange(g: Gate, chain: seq<nat>) { forall k :: 0 <= k < |chain| ==> chain[k] < |g.creds| }

  /** The chain from a root down to `i`, if one is reached within `fuel` steps up. */
  ghost function Ancestry(g: Gate, i: nat, fuel: nat): (r: Option<seq<nat>>)
    requires i < |g.creds|
    ensures r.Some? ==> |r.value| > 0 && r.value[|r.value| - 1] == i && InRange(g, r.value)
    decreases fuel
  {
    if IsRootAt(g, i) then Some([i])
    else
      var p := ParentOf(g, i);
      if p.None? || fuel == 0 then None
      else
        var up := Ancestry(g, p.value, fuel - 1);
        if up.None? then None else Some(up.value + [i])
  }

  ghost predicate IsWalk(g: Gate, chain: seq<nat>) {
    && |chain| > 0 && (forall k :: 0 <= k < |chain| ==> chain[k] < |g.creds|)
    && (forall k :: 1 <= k < |chain| ==> !IsRootAt(g, chain[k]) && ParentOf(g, chain[k]) == Some(chain[k - 1]))
  }

  lemma {:induction false} AncestryUnique(g: Gate, i: nat, f: nat, f': nat)
    requires i < |g.creds| && Ancestry(g, i, f).Some? && Ancestry(g, i, f').Some?
    ensures Ancestry(g, i, f) == Ancestry(g, i, f')
    decreases f
  {
    if !IsRootAt(g, i) { AncestryUnique(g, ParentOf(g, i).value, f - 1, f' - 1); }
  }

  lemma {:induction false} AncestryUnlimited(g: Gate, i: nat, f: nat, f': nat)
    requires i < |g.creds| && f <= f' && Ancestry(g, i, f).Some?
    ensures Ancestry(g, i, f') == Ancestry(g, i, f)
    decreases f
  {
    if !IsRootAt(g, i) { AncestryUnlimited(g, ParentOf(g, i).value, f - 1, f' - 1); }
  }

  lemma {:induction false} AncestryFits(g: Gate, i: nat, fuel: nat)
    requires i < |g.creds| && Ancestry(g, i, fuel).Some?
    ensures |Ancestry(g, i, fuel).value| <= fuel + 1
    decreases fuel
  {
    if !IsRootAt(g, i) { AncestryFits(g, ParentOf(g, i).value, fuel - 1); }
  }

  /** The ancestry of the end of a walk is that of its start and then the walk. */
  lemma {:induction false} AncestryAlong(g: Gate, chain: seq<nat>, fuel: nat)
    requires IsWalk(g, chain)
    ensures var top := Ancestry(g, chain[0], fuel);
            Ancestry(g, chain[|chain| - 1], fuel + |chain| - 1)
              == if top.Some? then Some(top.value + chain[1..]) else None
    decreases |chain|
  {
    hide ParentOf, IsRootAt;
    var n := |chain| - 1;
    var top := Ancestry(g, chain[0], fuel);
    if n == 0 {
      if top.Some? { assert top.value + chain[1..] == top.value; }
    } else {
      AncestryAlong(g, chain[..n], fuel);
      assert chain[..n][n - 1] == chain[n - 1];
      if top.Some? { assert top.value + chain[..n][1..] + [chain[n]] == top.value + chain[1..]; }
    }
  }

  lemma HeightDown(g: Gate, chain: seq<nat>, k: nat, fuel: nat)
    requires IsWalk(g, chain) && k < |chain| && Ancestry(g, chain[0], fuel).Some?
    ensures Ancestry(g, chain[k], fuel + k).Some?
    ensures |Ancestry(g, chain[k], fuel + k).value| == |Ancestry(g, chain[0], fuel).value| + k
  {
    AncestryAlong(g, chain[..k + 1], fuel);
    assert chain[..k + 1][k] == chain[k];
  }

  lemma HeightUp(g: Gate, i: nat, p: nat, fuel: nat)
    requires i < |g.creds| && !IsRootAt(g, i) && ParentOf(g, i) == Some(p) && Ancestry(g, i, fuel).Some?
    ensures fuel > 0 && Ancestry(g, p, fuel - 1).Some?
    ensures |Ancestry(g, p, fuel - 1).value| == |Ancestry(g, i, fuel).value| - 1
  {
  }

  /** A walk whose next step up would return to it has no root above it. */
  lemma CycleHasNoRoot(g: Gate, chain: seq<nat>, k: nat, fuel: nat)
    requires IsWalk(g, chain) && k < |chain| && !IsRootAt(g, chain[0]) && ParentOf(g, chain[0]) == Some(chain[k])
    ensures Ancestry(g, chain[0], fuel) == None
  {
    hide Ancestry;
    if Ancestry(g, chain[0], fuel).Some? {
      HeightDown(g, chain, k, fuel);
      HeightUp(g, chain[0], chain[k], fuel);
      AncestryUnique(g, chain[k], fuel - 1, fuel + k);
      assert false;
    }
  }

  /** A chain of credentials up to a root is found exactly when it has at most nine of them. */
  lemma FoundIffShort(g: Gate, chain: seq<nat>)
    requires IsWalk(g, chain) && IsRootAt(g, chain[0])
    ensures Ancestry(g, chain[|chain| - 1], MAX_HOPS) == if |chain| <= 9 then Some(chain) else None
  {
    AncestryAlong(g, chain, 0);
    assert [chain[0]] + chain[1..] == chain;
    if |chain| <= 9 {
      AncestryUnlimited(g, chain[|chain| - 1], |chain| - 1, MAX_HOPS);
    } else if Ancestry(g, chain[|chain| - 1], MAX_HOPS).Some? {
      AncestryUnique(g, chain[|chain| - 1], MAX_HOPS, |chain| - 1);
      AncestryFits(g, chain[|chain| - 1], MAX_HOPS);
      assert false;
    }
  }

  function CredsAt(g: Gate, chain: seq<nat>): seq<Credential>
    requires InRange(g, chain)
  {
    seq(|chain|, k requires 0 <= k < |chain| => g.creds[chain[k]])
  }

  /** Every link is current and has an expiry, the links form an accepted chain, and the root is from the pod. */
  ghost predicate Sound(g: Gate, chain: seq<nat>) {
    && |chain| > 0 && InRange(g, chain)
    && (forall k :: 0 <= k < |chain| ==> InWindow(g, g.creds[chain[k]]) && g.creds[chain[k]].validUntil.Some?)
    && (|chain| > 1 ==> IsChain(g.digest, CredsAt(g, chain)))
    && PodOk(g, g.creds[chain[0]].issuer)
  }

  /** The credential has a sound chain up to a root. */
  ghost predicate Backed(g: Gate, i: nat) {
    i < |g.creds| && Ancestry(g, i, MAX_HOPS).Some? && Sound(g, Ancestry(g, i, MAX_HOPS).value)
  }

  predicate AboutDepth(f: Fault) { f.RootDepth? || f.WrongDepth? || f.TooDeep? || f.ChangesMaxDepth? }

  lemma AncestryStep(g: Gate, i: nat, fuel: nat)
    requires i < |g.creds|
    ensures IsRootAt(g, i) ==> Ancestry(g, i, fuel) == Some([i])
    ensures !IsRootAt(g, i) && (ParentOf(g, i).None? || fuel == 0) ==> Ancestry(g, i, fuel) == None
    ensures g.creds[i].authority.None? ==> ParentOf(g, i) == None
  {
  }

  lemma LongerWalk(g: Gate, chain: seq<nat>, p: nat)
    requires IsWalk(g, chain) && !IsRootAt(g, chain[0]) && ParentOf(g, chain[0]) == Some(p) && p < |g.creds|
    ensures IsWalk(g, [p] + chain)
  {
    hide ParentOf, IsRootAt;
    var longer := [p] + chain;
    forall k | 1 <= k < |longer| ensures !IsRootAt(g, longer[k]) && ParentOf(g, longer[k]) == Some(longer[k - 1]) {
      assert longer[k] == chain[k - 1];
      if k > 1 { assert longer[k - 1] == chain[k - 2]; }
    }
  }

  /** Rebuilds the chain of a credential upwards. It stops on every presentation, cyclic ones included. */
  method RebuildChain(g: Gate, i: nat) returns (r: Result<seq<nat>, Code>)
    requires i < |g.creds|
    ensures r.Success? <==> Ancestry(g, i, MAX_HOPS).Some?
    ensures r.Success? ==> Ancestry(g, i, MAX_HOPS) == Some(r.value)
  {
    hide Ancestry, ParentOf;
    var chain := [i];
    AncestryAlong(g, chain, MAX_HOPS);
    while true
      invariant 1 <= |chain| <= MAX_HOPS + 1 && IsWalk(g, chain) && chain[|chain| - 1] == i
      decreases MAX_HOPS + 1 - |chain|
    {
      var top := chain[0];
      AncestryAlong(g, chain, MAX_HOPS + 1 - |chain|);
      AncestryStep(g, top, MAX_HOPS + 1 - |chain|);
      if g.creds[top].authority.None? { return Failure(MissingAuthority); }
      if !HasParent(g.creds[top].authority.value) {
        assert [top] + chain[1..] == chain;
        return Success(chain);
      }
      var parent := ParentOf(g, top);
      if parent.None? { return Failure(BroadenedAttenuation); }
      if parent.value in chain {
        var k :| 0 <= k < |chain| && chain[k] == parent.value;
        CycleHasNoRoot(g, chain, k, MAX_HOPS + 1 - |chain|);
        return Failure(ChainTooDeep);
      }
      if |chain| > MAX_HOPS { return Failure(ChainTooDeep); }
      LongerWalk(g, chain, parent.value);
      chain := [parent.value] + chain;
    }
  }

  /** Finds nothing wrong with a credential exactly when it is backed. */
  method AuthorityProblem(g: Gate, i: nat) returns (problem: Option<Code>)
    requires i < |g.creds|
    ensures problem.None? <==> Backed(g, i)
  {
    hide Ancestry, IsChain, InWindow, PodOk;
    var rebuilt := RebuildChain(g, i);
    if rebuilt.Failure? { return Some(rebuilt.error); }
    var chain := rebuilt.value;
    for k := 0 to |chain|
      invariant forall j :: 0 <= j < k ==> InWindow(g, g.creds[chain[j]]) && g.creds[chain[j]].validUntil.Some?
    {
      if !InWindow(g, g.creds[chain[k]]) { return Some(Expired); }
      if g.creds[chain[k]].validUntil.None? { return Some(Expired); }
    }
    if |chain| > 1 {
      var fault := CheckAuthorityChain(g.digest, CredsAt(g, chain));
      if fault.Some? { return Some(if AboutDepth(fault.value) then ChainTooDeep else BroadenedAttenuation); }
    }
    if !PodOk(g, g.creds[chain[0]].issuer) { return Some(PodMismatch); }
    problem := None;
  }

  lemma {:induction false} AncestryTop(g: Gate, i: nat, fuel: nat)
    requires i < |g.creds| && Ancestry(g, i, fuel).Some?
    ensures IsRootAt(g, Ancestry(g, i, fuel).value[0])
    decreases fuel
  {
    if !IsRootAt(g, i) { AncestryTop(g, ParentOf(g, i).value, fuel - 1); }
  }

  /**
   A backed credential is worth what it says: it is no more than a root of the pod grants, in the same scope, and
   both are in force, give or take the skew.
   */
  lemma BackedByPod(g: Gate, i: nat) returns (root: nat)
    requires Backed(g, i)
    ensures root < |g.creds|
    ensures if g.pod.Some? then g.creds[root].issuer == g.pod.value else g.creds[root].issuer in g.accepted
    ensures g.creds[root].authority.Some? && g.creds[i].authority.Some?
    ensures g.creds[root].authority.value.parent.UnwrapOr("") == ""
    ensures g.creds[i].authority.value.actions <= g.creds[root].authority.value.actions
    ensures g.creds[i].authority.value.scope == g.creds[root].authority.value.scope
    ensures forall k :: k in {i, root} ==>
              && g.creds[k].validUntil.Some?
              && g.creds[k].validFrom - g.skew <= g.now < g.creds[k].validUntil.value + g.skew
  {
    hide IsLink;
    var chain := Ancestry(g, i, MAX_HOPS).value;
    root := chain[0];
    AncestryTop(g, i, MAX_HOPS);
    if |chain| > 1 {
      ChainIsNested(g.digest, CredsAt(g, chain), 0, |chain| - 1);
    }
  }

  /** And what makes one backed: a chain of at most nine that the checker accepts, all in force, from the pod. */
  lemma BackedWhen(g: Gate, chain: seq<nat>)
    requires IsWalk(g, chain) && IsRootAt(g, chain[0]) && |chain| <= 9
    requires |chain| > 1 ==> IsChain(g.digest, CredsAt(g, chain))
    requires forall k :: 0 <= k < |chain| ==>
               && g.creds[chain[k]].validUntil.Some?
               && g.creds[chain[k]].validFrom - g.skew <= g.now < g.creds[chain[k]].validUntil.value + g.skew
    requires if g.pod.Some? then g.creds[chain[0]].issuer == g.pod.value else g.creds[chain[0]].issuer in g.accepted
    ensures Backed(g, chain[|chain| - 1])
  {
    hide IsChain, Ancestry, IsWalk, IsRootAt, ParentOf;
    FoundIffShort(g, chain);
  }

  // ----- candidates -----

  /**
   A credential of `subject` that names the required action in the required place. Only payments may be
   received through a forwarded one.
   */
  predicate Candidate(g: Gate, i: nat, subject: string, req: Requirement) {
    && i < |g.creds| && IsVac(g.creds[i]) && g.creds[i].subject == subject && g.creds[i].authority.Some?
    && var a := g.creds[i].authority.value;
    && req.action in a.actions && (HasParent(a) ==> req.action == FORWARDABLE)
    && (if req.scope.Some? then a.scope == req.scope.value else PodOk(g, a.scope))
  }

  /**
   What a subject must have for a requirement: a backed credential of its own that names the action and, unless that is
   receiving payments, has no parent, at the required place or else at the pod.
   */
  ghost predicate Meets(g: Gate, i: nat, subject: string, req: Requirement) {
    && i < |g.creds| && Backed(g, i)
    && "AuthorityCredential" in g.creds[i].types && g.creds[i].subject == subject && g.creds[i].authority.Some?
    && var a := g.creds[i].authority.value;
    && req.action in a.actions && (a.parent.UnwrapOr("") == "" || req.action == "pay:receive")
    && a.scope == req.scope.UnwrapOr(g.pod.UnwrapOr(a.scope))
    && (req.scope.None? && g.pod.None? ==> a.scope in g.accepted)
  }

  ghost predicate Has(g: Gate, subject: string, req: Requirement) { exists i: nat :: Meets(g, i, subject, req) }

  lemma CandidatesMeet(g: Gate, i: nat, subject: string, req: Requirement)
    ensures Meets(g, i, subject, req) <==> Candidate(g, i, subject, req) && Backed(g, i)
    ensures Candidate(g, i, subject, req) ==> i < |g.creds|
  {
    hide Backed;
  }

  method FindAuthority(g: Gate, subject: string, req: Requirement) returns (found: bool, problem: Option<Code>)
    ensures found <==> Has(g, subject, req)
  {
    hide Backed, Candidate, Meets;
    forall j: nat
      ensures Meets(g, j, subject, req) <==> Candidate(g, j, subject, req) && Backed(g, j)
      ensures Candidate(g, j, subject, req) ==> j < |g.creds|
    {
      CandidatesMeet(g, j, subject, req);
    }
    problem := None;
    for i := 0 to |g.creds|
      invariant forall j: nat :: j < i ==> !(Candidate(g, j, subject, req) && Backed(g, j))
    {
      if Candidate(g, i, subject, req) {
        var p := AuthorityProblem(g, i);
        if p.None? {
          assert Meets(g, i, subject, req);
          return true, problem;
        }
        if problem.None? { problem := p; }
      }
    }
    found := false;
  }

  // ----- delegation -----

  predicate IsGrant(vc: Credential) {
    && "DelegationCredential" in vc.types && vc.delegation.Some? && vc.delegation.value.scope.Some?
    && (vc.delegation.value.accepts.None? || vc.delegation.value.accepts.value == "")
  }

  predicate IsAcceptance(vc: Credential) {
    "DelegationCredential" in vc.types && vc.delegation.Some? && vc.delegation.value.accepts.Some?
  }

  function GrantsAmong(g: Gate, n: nat): (r: seq<nat>)
    requires n <= |g.creds|
    ensures forall p: nat :: p in r <==> p < n && IsGrant(g.creds[p])
    ensures forall k, m :: 0 <= k < m < |r| ==> r[k] < r[m]
  {
    if n == 0 then []
    else
      var before := GrantsAmong(g, n - 1);
      assert forall k :: 0 <= k < |before| ==> before[k] in before;
      before + if IsGrant(g.creds[n - 1]) then [n - 1] else []
  }

  function Acceptances(creds: seq<Credential>): (r: seq<Credential>)
    ensures forall vc :: vc in r <==>
              && vc in creds && "DelegationCredential" in vc.types
              && vc.delegation.Some? && vc.delegation.value.accepts.Some?
  {
    if creds == [] then []
    else Acceptances(creds[..|creds| - 1]) + if IsAcceptance(creds[|creds| - 1]) then [creds[|creds| - 1]] else []
  }

  predicate LeadsTo(g: Gate, i: nat, subject: string, action: string) {
    && i < |g.creds| && IsGrant(g.creds[i]) && g.creds[i].subject == subject
    && action in g.creds[i].delegation.value.scope.value
  }

  /** It delegates the action to the subject and does not accept any other delegation. */
  ghost predicate Leading(vc: Credential, subject: string, action: string) {
    && "DelegationCredential" in vc.types && vc.subject == subject
    && vc.delegation.Some? && vc.delegation.value.scope.Some? && action in vc.delegation.value.scope.value
    && vc.delegation.value.accepts.UnwrapOr("") == ""
  }

  lemma LeadsFields(g: Gate, i: nat, subject: string, action: string)
    ensures LeadsTo(g, i, subject, action) <==> i < |g.creds| && Leading(g.creds[i], subject, action)
  {
  }

  /** The first grant in the presentation, of those not taken yet, that leads to `to`. */
  ghost predicate IsNextHop(g: Gate, i: nat, to: string, action: string, taken: seq<nat>) {
    && LeadsTo(g, i, to, action) && i !in taken
    && (forall k: nat :: k < i && k !in taken ==> !LeadsTo(g, k, to, action))
  }

  method NextHop(g: Gate, grants: seq<nat>, cursor: string, action: string, chain: seq<nat>) returns (r: Option<nat>)
    requires forall p: nat, to :: LeadsTo(g, p, to, action) ==> p in grants
    requires forall k, m :: 0 <= k < m < |grants| ==> grants[k] < grants[m]
    ensures r.Some? ==> r.value in grants && IsNextHop(g, r.value, cursor, action, chain)
    ensures r.None? ==> forall p: nat :: p !in chain ==> !LeadsTo(g, p, cursor, action)
    ensures forall p: nat :: p < |g.creds| && p !in chain && Leading(g.creds[p], cursor, action) ==>
              r.Some? && r.value <= p
    ensures r.Some? ==> r.value < |g.creds| && r.value !in chain && Leading(g.creds[r.value], cursor, action)
  {
    hide LeadsTo, Leading;
    forall p: nat { LeadsFields(g, p, cursor, action); }
    for i := 0 to |grants|
      invariant forall k :: 0 <= k < i && grants[k] !in chain ==> !LeadsTo(g, grants[k], cursor, action)
    {
      if grants[i] !in chain && LeadsTo(g, grants[i], cursor, action) {
        forall p: nat | p < grants[i] && p !in chain ensures !LeadsTo(g, p, cursor, action) {
          assert forall k :: i <= k < |grants| ==> grants[k] >= grants[i];
        }
        return Some(grants[i]);
      }
    }
    r := None;
  }

  /** Whom the hop at `k` must lead to: the next issuer, or the holder. */
  ghost function Target(g: Gate, chain: seq<nat>, k: nat): string
    requires k < |chain| && InRange(g, chain)
  {
    if k < |chain| - 1 then g.creds[chain[k + 1]].issuer else g.holder
  }

  ghost predicate IsHopAt(g: Gate, chain: seq<nat>, k: nat, action: string)
    requires k < |chain| && InRange(g, chain)
  {
    IsNextHop(g, chain[k], Target(g, chain, k), action, chain[k + 1..])
  }

  /** Each hop, from the last one back, is the first grant that leads on and is not taken yet. */
  ghost predicate IsTrail(g: Gate, chain: seq<nat>, action: string) {
    && InRange(g, chain)
    && (forall k :: 0 <= k < |chain| ==> IsHopAt(g, chain, k, action))
  }

  lemma HopMoves(g: Gate, hop: nat, chain: seq<nat>, k: nat, action: string)
    requires InRange(g, chain) && InRange(g, [hop] + chain) && k < |chain|
    ensures IsHopAt(g, [hop] + chain, k + 1, action) <==> IsHopAt(g, chain, k, action)
  {
    hide IsNextHop;
    var longer := [hop] + chain;
    assert longer[k + 1] == chain[k] && longer[k + 2..] == chain[k + 1..];
    if k + 1 < |chain| { assert longer[k + 2] == chain[k + 1]; }
  }

  /** The trail that the gate follows for an action: no grant that is left leads to its start. */
  ghost predicate IsVia(g: Gate, chain: seq<nat>, action: string) {
    && |chain| > 0 && IsTrail(g, chain, action)
    && (forall p: nat :: LeadsTo(g, p, g.creds[chain[0]].issuer, action) ==> p in chain)
  }

  lemma LongerTrail(g: Gate, hop: nat, chain: seq<nat>, cursor: string, action: string)
    requires IsTrail(g, chain, action) && hop < |g.creds| && IsNextHop(g, hop, cursor, action, chain)
    requires cursor == if chain == [] then g.holder else g.creds[chain[0]].issuer
    ensures IsTrail(g, [hop] + chain, action)
  {
    hide IsNextHop;
    var longer := [hop] + chain;
    forall k | 0 <= k < |longer| ensures longer[k] < |g.creds| {
      if k > 0 { assert longer[k] == chain[k - 1]; }
    }
    forall k | 0 <= k < |longer| ensures IsHopAt(g, longer, k, action) {
      if k > 0 {
        HopMoves(g, hop, chain, k - 1, action);
      } else {
        assert longer[1..] == chain;
      }
    }
  }

  /** Distinct members of a list are no more than the list has. */
  lemma {:induction false} NoMoreThan(chain: seq<nat>, grants: seq<nat>)
    requires forall k :: 0 <= k < |chain| ==> chain[k] in grants && chain[k] !in chain[k + 1..]
    ensures |chain| <= |grants|
    decreases |chain|
  {
    if chain != [] {
      var m :| 0 <= m < |grants| && grants[m] == chain[0];
      var rest, left := chain[1..], grants[..m] + grants[m + 1..];
      forall k | 0 <= k < |rest| ensures rest[k] in left && rest[k] !in rest[k + 1..] {
        assert rest[k] == chain[k + 1] && rest[k + 1..] == chain[k + 2..];
        assert chain[1..][k] != chain[0];
        var n :| 0 <= n < |grants| && grants[n] == rest[k];
        assert left[if n < m then n else n - 1] == rest[k];
      }
      NoMoreThan(rest, left);
    }
  }

  lemma TrailFits(g: Gate, chain: seq<nat>, action: string, grants: seq<nat>)
    requires IsTrail(g, chain, action) && forall p: nat, to :: LeadsTo(g, p, to, action) ==> p in grants
    ensures |chain| <= |grants|
  {
    hide LeadsTo;
    forall k | 0 <= k < |chain| ensures chain[k] in grants && chain[k] !in chain[k + 1..] {
      assert IsHopAt(g, chain, k, action);
    }
    NoMoreThan(chain, grants);
  }

  lemma GrantsLead(g: Gate, grants: seq<nat>, action: string)
    requires forall p: nat :: p in grants <==> p < |g.creds| && IsGrant(g.creds[p])
    ensures forall p: nat, to :: LeadsTo(g, p, to, action) ==> p in grants
    ensures forall p: nat :: p in grants ==> p < |g.creds|
  {
  }

  lemma EmptyTrail(g: Gate, action: string)
    ensures IsTrail(g, [], action)
  {
  }

  lemma ViaReaches(g: Gate, chain: seq<nat>, action: string)
    requires IsVia(g, chain, action)
    ensures LeadsTo(g, chain[|chain| - 1], g.holder, action)
  {
    hide LeadsTo;
    var n := |chain| - 1;
    assert IsHopAt(g, chain, n, action);
  }

  /** Walks back from the holder. It stops on every presentation, as no grant is taken twice. */
  method DelegationChainFor(g: Gate, action: string) returns (r: Option<seq<nat>>)
    ensures r.Some? ==> IsVia(g, r.value, action)
    ensures r.None? ==> forall chain :: !IsVia(g, chain, action)
  {
    hide LeadsTo, IsGrant, GrantsAmong, IsTrail, IsNextHop;
    var grants := GrantsAmong(g, |g.creds|);
    GrantsLead(g, grants, action);
    var chain: seq<nat> := [];
    EmptyTrail(g, action);
    var cursor := g.holder;
    while true
      invariant InRange(g, chain) && IsTrail(g, chain, action)
      invariant cursor == if chain == [] then g.holder else g.creds[chain[0]].issuer
      invariant |chain| <= |grants|
      decreases |grants| - |chain|
    {
      var hop := NextHop(g, grants, cursor, action, chain);
      if hop.None? { break; }
      LongerTrail(g, hop.value, chain, cursor, action);
      chain := [hop.value] + chain;
      cursor := g.creds[hop.value].issuer;
      TrailFits(g, chain, action, grants);
      if |chain| > |grants| { break; }
    }
    if chain == [] {
      forall other ensures !IsVia(g, other, action) {
        if IsVia(g, other, action) { ViaReaches(g, other, action); }
      }
      return None;
    }
    r := Some(chain);
  }

  lemma SameHop(g: Gate, i: nat, j: nat, to: string, action: string, taken: seq<nat>)
    requires IsNextHop(g, i, to, action, taken) && IsNextHop(g, j, to, action, taken)
    ensures i == j
  {
    hide LeadsTo;
  }

  lemma SameHopAt(g: Gate, c: seq<nat>, d: seq<nat>, action: string, k: nat, m: nat)
    requires IsTrail(g, c, action) && IsTrail(g, d, action) && k < |c| && m < |d| && |c| - k == |d| - m
    requires c[k + 1..] == d[m + 1..]
    ensures c[k] == d[m]
  {
    hide IsNextHop;
    if k < |c| - 1 { assert c[k + 1] == c[k + 1..][0] == d[m + 1..][0] == d[m + 1]; }
    assert IsHopAt(g, c, k, action) && IsHopAt(g, d, m, action);
    SameHop(g, c[k], d[m], Target(g, c, k), action, c[k + 1..]);
  }

  lemma OneLonger(c: seq<nat>, k: nat)
    requires k < |c|
    ensures c[k..] == [c[k]] + c[k + 1..]
  {
  }

  /** Two trails for one action have the same last hops. */
  lemma {:induction false} TrailsAgree(g: Gate, c: seq<nat>, d: seq<nat>, action: string, n: nat)
    requires IsTrail(g, c, action) && IsTrail(g, d, action) && n <= |c| && n <= |d|
    ensures c[|c| - n..] == d[|d| - n..]
  {
    hide IsHopAt, Target;
    if n > 0 {
      TrailsAgree(g, c, d, action, n - 1);
      SameHopAt(g, c, d, action, |c| - n, |d| - n);
      OneLonger(c, |c| - n);
      OneLonger(d, |d| - n);
    }
  }

  lemma StillLeads(g: Gate, c: seq<nat>, d: seq<nat>, action: string, m: nat)
    requires IsTrail(g, d, action) && m < |d| - 1 && |c| > 0 && c == d[m + 1..] && c[0] == d[m + 1]
    ensures d[m] !in c && LeadsTo(g, d[m], g.creds[c[0]].issuer, action)
  {
    hide LeadsTo;
    assert IsHopAt(g, d, m, action);
  }

  lemma NoLonger(g: Gate, c: seq<nat>, d: seq<nat>, action: string)
    requires IsVia(g, c, action) && IsTrail(g, d, action)
    ensures |d| <= |c|
  {
    hide LeadsTo;
    if |c| < |d| {
      TrailsAgree(g, c, d, action, |c|);
      var m := |d| - |c| - 1;
      assert c == d[m + 1..] && c[0] == d[m + 1];
      StillLeads(g, c, d, action, m);
      assert false;
    }
  }

  /**
   There is one trail to follow for an action, so the grants of a presentation and their order decide who is
   acted for.
   */
  lemma ViaIsUnique(g: Gate, c: seq<nat>, d: seq<nat>, action: string)
    requires IsVia(g, c, action) && IsVia(g, d, action)
    ensures c == d
  {
    hide IsTrail, LeadsTo;
    NoLonger(g, c, d, action);
    NoLonger(g, d, c, action);
    TrailsAgree(g, c, d, action, |c|);
    assert c[0..] == c && d[0..] == d;
  }

  predicate Delegates(g: Gate, i: nat, x: string) {
    && i < |g.creds| && g.creds[i].delegation.Some? && g.creds[i].delegation.value.scope.Some?
    && x in g.creds[i].delegation.value.scope.value
  }

  /** Every hop of the path delegates `x`. */
  ghost predicate AllDelegate(g: Gate, chain: seq<nat>, n: nat, x: string) {
    && n <= |chain| && InRange(g, chain)
    && (forall k :: 0 <= k < n ==> Delegates(g, chain[k], x))
  }

  ghost predicate AcceptedPath(g: Gate, chain: seq<nat>, action: string) {
    && |chain| > 0 && InRange(g, chain)
    && IsDelegation(g.digest, CredsAt(g, chain), g.holder, action, Acceptances(g.creds), g.now)
  }

  lemma ViaLeads(g: Gate, chain: seq<nat>, action: string)
    requires IsVia(g, chain, action)
    ensures InRange(g, chain) && forall k :: 0 <= k < |chain| ==> IsGrant(g.creds[chain[k]])
  {
    forall k | 0 <= k < |chain| ensures IsGrant(g.creds[chain[k]]) {
      assert IsHopAt(g, chain, k, action);
    }
  }

  lemma AcceptedDepth(g: Gate, chain: seq<nat>, action: string, i: nat)
    requires i < |chain| && InRange(g, chain) && g.creds[chain[i]].delegation.Some?
    ensures AcceptedPath(g, chain, action) ==>
              |chain| - 1 - i <= g.creds[chain[i]].delegation.value.maxDepth.UnwrapOr(0)
  {
    if AcceptedPath(g, chain, action) {
      assert IsHop(g.digest, CredsAt(g, chain)[i], action, |chain| - 1 - i, Acceptances(g.creds), g.now);
    }
  }

  method CheckDelegation(g: Gate, chain: seq<nat>, action: string) returns (r: Result<(string, set<string>), Code>)
    requires IsVia(g, chain, action)
    ensures r.Success? <==> AcceptedPath(g, chain, action)
    ensures r.Success? ==>
              r.value.0 == g.creds[chain[0]].issuer && forall x :: x in r.value.1 <==> AllDelegate(g, chain, |chain|, x)
  {
    hide Acceptances, IsDelegation;
    ViaLeads(g, chain, action);
    for i := 0 to |chain|
    {
      var hop := g.creds[chain[i]];
      AcceptedDepth(g, chain, action, i);
      if |chain| - 1 - i > hop.delegation.value.maxDepth.UnwrapOr(0) { return Failure(ChainTooDeep); }
    }
    var checked := CheckDelegationChain(g.digest, CredsAt(g, chain), g.holder, action, Acceptances(g.creds), g.now);
    if checked.Failure? {
      match checked.error {
        case DepthExceeded(_) => return Failure(ChainTooDeep);
        case NotCurrent(_) => return Failure(Expired);
        case _ => return Failure(MissingAuthority);
      }
    }
    var scope := g.creds[chain[0]].delegation.value.scope.value;
    for i := 1 to |chain|
      invariant forall x :: x in scope <==> AllDelegate(g, chain, i, x)
    {
      scope := scope * g.creds[chain[i]].delegation.value.scope.value;
    }
    r := Success((checked.value, scope));
  }

  // ----- collecting authority -----

  /** `act` is in the scope that every hop of some accepted delegation from the principal to the holder grants. */
  ghost predicate DelegatedAct(g: Gate, principal: string, act: string) {
    exists chain: seq<nat>, action: string ::
      AcceptedPath(g, chain, action) && g.creds[chain[0]].issuer == principal && AllDelegate(g, chain, |chain|, act)
  }

  /** Receiving payments is always asked for at a place. */
  predicate IsUnscoped(q: Requirement) { q.action == FORWARDABLE && q.scope.None? }

  /** The delegation that the gate follows for an action is accepted and comes from the principal. */
  ghost predicate ActsThrough(g: Gate, chain: seq<nat>, action: string, principal: string) {
    IsVia(g, chain, action) && AcceptedPath(g, chain, action) && g.creds[chain[0]].issuer == principal
  }

  ghost predicate ActsFor(g: Gate, action: string, principal: string) {
    exists chain :: ActsThrough(g, chain, action, principal)
  }

  /** The requirement is met by the holder, or else by the principal, for whom the holder acts in that very matter. */
  ghost predicate MetBy(g: Gate, q: Requirement, delegation: bool, principal: Option<string>) {
    && !IsUnscoped(q)
    && (|| Has(g, g.holder, q)
        || (delegation && principal.Some? && Has(g, principal.value, q) && ActsFor(g, q.action, principal.value)))
  }

  ghost predicate MetByOne(g: Gate, required: seq<Requirement>, delegation: bool, principal: Option<string>) {
    forall q :: q in required ==> MetBy(g, q, delegation, principal)
  }

  /** One principal will do for all that the holder lacks. */
  ghost predicate Meetable(g: Gate, required: seq<Requirement>, delegation: bool) {
    exists principal :: MetByOne(g, required, delegation, principal)
  }

  ghost predicate HasAll(g: Gate, required: seq<Requirement>) { forall q :: q in required ==> Has(g, g.holder, q) }

  /** The requirement is one that the holder lacks, and `x` is delegated at every hop that the gate follows for it. */
  ghost predicate Lends(g: Gate, q: Requirement, chain: seq<nat>, x: string) {
    !Has(g, g.holder, q) && IsVia(g, chain, q.action) && AllDelegate(g, chain, |chain|, x)
  }

  ghost predicate Lent(g: Gate, required: seq<Requirement>, x: string) {
    exists q, chain :: q in required && Lends(g, q, chain, x)
  }

  lemma ActsForOne(g: Gate, action: string, p: string, q: string)
    requires ActsFor(g, action, p) && ActsFor(g, action, q)
    ensures p == q
  {
    hide IsVia, AcceptedPath;
    var c :| ActsThrough(g, c, action, p);
    var d :| ActsThrough(g, d, action, q);
    ViaIsUnique(g, c, d, action);
  }

  /** What is reported for an action of a credential. */
  function Label(g: Gate, a: Authority, act: string): string {
    if HasParent(a) || !PodOk(g, a.scope) then act + "@" + a.scope else act
  }

  predicate Counts(g: Gate, i: nat, act: string, principal: Option<string>, scope: set<string>) {
    && i < |g.creds|
    && g.creds[i].authority.Some? && act in g.creds[i].authority.value.actions
    && (g.creds[i].subject == g.holder || (Some(g.creds[i].subject) == principal && act in scope))
    && (HasParent(g.creds[i].authority.value) ==> act == FORWARDABLE)
  }

  ghost predicate Contributes(g: Gate, i: nat, act: string, principal: Option<string>, scope: set<string>, text: string)
  {
    && i < |g.creds| && IsVac(g.creds[i]) && Backed(g, i) && Counts(g, i, act, principal, scope)
    && text == Label(g, g.creds[i].authority.value, act)
  }

  ghost predicate Adds(g: Gate, i: nat, principal: Option<string>, scope: set<string>, text: string) {
    exists act :: Contributes(g, i, act, principal, scope, text)
  }

  ghost predicate Reported(g: Gate, n: nat, principal: Option<string>, scope: set<string>, text: string) {
    exists i: nat, act :: i < n && Contributes(g, i, act, principal, scope, text)
  }

  ghost predicate GivesTier(g: Gate, i: nat, t: string) {
    && i < |g.creds| && "AuthorityCredential" in g.creds[i].types && Backed(g, i) && g.creds[i].subject == g.holder
    && g.creds[i].authority.Some? && g.creds[i].authority.value.parent.UnwrapOr("") == ""
    && g.creds[i].tier == Some(t) && t in {"T0", "T1", "T2", "T3", "T4"}
  }

  /** The highest tier of the holder's own roots. */
  ghost predicate IsTier(g: Gate, n: nat, tier: Option<string>) {
    && (tier.Some? ==> exists i: nat :: i < n && GivesTier(g, i, tier.value))
    && (forall i: nat, t :: i < n && GivesTier(g, i, t) ==> tier.Some? && Rank(t) <= Rank(tier.value))
  }

  lemma MetOneMore(g: Gate, before: seq<Requirement>, q: Requirement, delegation: bool, principal: Option<string>)
    ensures MetByOne(g, before + [q], delegation, principal) <==>
              MetByOne(g, before, delegation, principal) && MetBy(g, q, delegation, principal)
    ensures HasAll(g, before + [q]) <==> HasAll(g, before) && Has(g, g.holder, q)
  {
    hide MetBy, Has;
    assert forall x :: x in before + [q] <==> x in before || x == q;
  }

  lemma Hopeless(g: Gate, required: seq<Requirement>, delegation: bool, i: nat)
    requires i < |required|
    requires forall other ::
               !(MetByOne(g, required[..i], delegation, other) && MetBy(g, required[i], delegation, other))
    ensures !Meetable(g, required, delegation)
  {
    hide MetBy;
    forall other ensures !MetByOne(g, required, delegation, other) {
      assert required[i] in required && forall q :: q in required[..i] ==> q in required;
    }
  }

  lemma UnscopedIsHopeless(g: Gate, required: seq<Requirement>, delegation: bool, i: nat)
    requires i < |required| && IsUnscoped(required[i])
    ensures !Meetable(g, required, delegation)
  {
    hide Has;
    assert forall other :: !MetBy(g, required[i], delegation, other);
    Hopeless(g, required, delegation, i);
  }

  lemma ViaIssuer(g: Gate, chain: seq<nat>, action: string) returns (issuer: string)
    requires IsVia(g, chain, action)
    ensures |chain| > 0 && InRange(g, chain) && issuer == g.creds[chain[0]].issuer
  {
    issuer := g.creds[chain[0]].issuer;
  }

  /** With the trail known, there is no more to find out about the delegation. */
  lemma MetThrough(g: Gate, q: Requirement, delegation: bool, chain: seq<nat>, principal: Option<string>)
    requires IsVia(g, chain, q.action) && !Has(g, g.holder, q) && !IsUnscoped(q)
    ensures MetBy(g, q, delegation, principal) <==>
              && delegation && AcceptedPath(g, chain, q.action) && principal == Some(g.creds[chain[0]].issuer)
              && Has(g, g.creds[chain[0]].issuer, q)
  {
    hide IsVia, AcceptedPath, Has;
    var issuer := ViaIssuer(g, chain, q.action);
    if principal.Some? && ActsFor(g, q.action, principal.value) {
      var other :| ActsThrough(g, other, q.action, principal.value);
      ViaIsUnique(g, chain, other, q.action);
    }
    if AcceptedPath(g, chain, q.action) { assert ActsThrough(g, chain, q.action, issuer); }
  }

  lemma LentMore(g: Gate, before: seq<Requirement>, q: Requirement, x: string)
    ensures Lent(g, before + [q], x) <==> Lent(g, before, x) || exists chain :: Lends(g, q, chain, x)
  {
    hide Lends;
    if Lent(g, before + [q], x) {
      var other, chain :| other in before + [q] && Lends(g, other, chain, x);
      assert other in before || other == q;
    }
    if Lent(g, before, x) {
      var other, chain :| other in before && Lends(g, other, chain, x);
      assert other in before + [q] && Lends(g, other, chain, x);
    }
    if chain :| Lends(g, q, chain, x) { assert q in before + [q] && Lends(g, q, chain, x); }
  }

  lemma LendsNothing(g: Gate, before: seq<Requirement>, q: Requirement)
    requires Has(g, g.holder, q)
    ensures forall x :: Lent(g, before + [q], x) <==> Lent(g, before, x)
  {
    hide Has, Lent;
    forall x ensures Lent(g, before + [q], x) <==> Lent(g, before, x) { LentMore(g, before, q, x); }
  }

  lemma LendsAll(g: Gate, before: seq<Requirement>, q: Requirement, chain: seq<nat>)
    requires !Has(g, g.holder, q) && IsVia(g, chain, q.action)
    ensures forall x :: Lent(g, before + [q], x) <==> Lent(g, before, x) || AllDelegate(g, chain, |chain|, x)
  {
    hide Has, Lent, IsVia, AllDelegate;
    forall x ensures Lent(g, before + [q], x) <==> Lent(g, before, x) || AllDelegate(g, chain, |chain|, x) {
      LentMore(g, before, q, x);
      if other :| Lends(g, q, other, x) { ViaIsUnique(g, chain, other, q.action); }
      assert AllDelegate(g, chain, |chain|, x) ==> Lends(g, q, chain, x);
    }
  }

  /** What is known once the requirements so far have been seen to. */
  ghost predicate SeenTo(g: Gate, before: seq<Requirement>, delegation: bool, principal: Option<string>,
                         scope: set<string>)
  {
    && MetByOne(g, before, delegation, principal) && (principal.None? <==> HasAll(g, before))
    && (forall other :: MetByOne(g, before, delegation, other) ==> principal.None? || other == principal)
    && (forall x :: x in scope <==> Lent(g, before, x))
  }

  lemma OwnStep(g: Gate, before: seq<Requirement>, q: Requirement, delegation: bool, principal: Option<string>,
                scope: set<string>)
    requires SeenTo(g, before, delegation, principal, scope) && Has(g, g.holder, q) && !IsUnscoped(q)
    ensures SeenTo(g, before + [q], delegation, principal, scope)
  {
    hide Has, Lent, MetByOne, HasAll;
    forall other ensures MetByOne(g, before + [q], delegation, other) <==> MetByOne(g, before, delegation, other) {
      MetOneMore(g, before, q, delegation, other);
    }
    MetOneMore(g, before, q, delegation, principal);
    LendsNothing(g, before, q);
  }

  lemma OwnedByAll(g: Gate, before: seq<Requirement>, other: Option<string>)
    requires MetByOne(g, before, true, None)
    ensures MetByOne(g, before, true, other)
  {
    hide Has;
    forall q | q in before ensures MetBy(g, q, true, other) {
      assert MetBy(g, q, true, None);
    }
  }

  lemma DelegatedStep(g: Gate, before: seq<Requirement>, q: Requirement, chain: seq<nat>, principal: Option<string>,
                      scope: set<string>, more: set<string>)
    requires SeenTo(g, before, true, principal, scope) && !Has(g, g.holder, q) && !IsUnscoped(q)
    requires IsVia(g, chain, q.action) && AcceptedPath(g, chain, q.action)
    requires forall x :: x in more <==> AllDelegate(g, chain, |chain|, x)
    requires principal.None? || principal == Some(g.creds[chain[0]].issuer)
    ensures Has(g, g.creds[chain[0]].issuer, q) ==>
              SeenTo(g, before + [q], true, Some(g.creds[chain[0]].issuer), scope + more)
  {
    hide Has, Lent, MetByOne, HasAll, MetBy, IsVia, AcceptedPath, AllDelegate;
    var issuer := ViaIssuer(g, chain, q.action);
    if Has(g, issuer, q) {
      forall other
        ensures MetByOne(g, before + [q], true, other) <==> MetByOne(g, before, true, other) && other == Some(issuer)
      {
        MetOneMore(g, before, q, true, other);
        MetThrough(g, q, true, chain, other);
      }
      MetOneMore(g, before, q, true, principal);
      LendsAll(g, before, q, chain);
      if principal.None? { OwnedByAll(g, before, Some(issuer)); }
    }
  }

  lemma NothingYet(g: Gate, delegation: bool)
    ensures SeenTo(g, [], delegation, None, {})
  {
  }

  lemma SeenToMeans(g: Gate, required: seq<Requirement>, delegation: bool, principal: Option<string>,
                    scope: set<string>)
    requires SeenTo(g, required, delegation, principal, scope)
    ensures Meetable(g, required, delegation)
    ensures MetByOne(g, required, delegation, principal) && (principal.None? <==> HasAll(g, required))
    ensures forall x :: x in scope <==> Lent(g, required, x)
  {
    hide MetByOne, Lent;
  }

  /** No trail to follow, or no delegation at all: nobody can meet what the holder lacks. */
  lemma MetByNobody(g: Gate, q: Requirement, delegation: bool)
    requires !Has(g, g.holder, q) && (delegation ==> forall chain :: !IsVia(g, chain, q.action))
    ensures forall other :: !MetBy(g, q, delegation, other)
  {
    hide Has, IsVia;
  }

  lemma MismatchIsHopeless(g: Gate, before: seq<Requirement>, q: Requirement, chain: seq<nat>,
                           principal: Option<string>, scope: set<string>)
    requires SeenTo(g, before, true, principal, scope) && !Has(g, g.holder, q) && !IsUnscoped(q)
    requires IsVia(g, chain, q.action)
    ensures || !AcceptedPath(g, chain, q.action) || !Has(g, g.creds[chain[0]].issuer, q)
            || (principal.Some? && principal.value != g.creds[chain[0]].issuer) ==>
              forall other :: !(MetByOne(g, before, true, other) && MetBy(g, q, true, other))
  {
    hide Has, Lent, MetByOne, HasAll, MetBy, IsVia, AcceptedPath;
    var issuer := ViaIssuer(g, chain, q.action);
    forall other
      ensures MetBy(g, q, true, other) ==>
                AcceptedPath(g, chain, q.action) && Has(g, issuer, q) && other == Some(issuer)
    {
      MetThrough(g, q, true, chain, other);
    }
  }

  /**
   Sees to it that every requirement is met. It succeeds exactly when one principal will do for all that the
   holder lacks; that principal is named, if one is needed, with all that the followed delegations lend.
   */
  method MeetRequirements(g: Gate, required: seq<Requirement>, delegation: bool)
    returns (r: Result<(Option<string>, set<string>), Code>)
    ensures r.Success? <==> Meetable(g, required, delegation)
    ensures r.Success? ==> MetByOne(g, required, delegation, r.value.0) && (r.value.0.None? <==> HasAll(g, required))
    ensures r.Success? ==> forall x :: x in r.value.1 <==> Lent(g, required, x)
  {
    hide Has, IsVia, AcceptedPath, AllDelegate, MetBy, Lent, MetByOne, SeenTo, Meetable;
    var principal: Option<string>, scope: set<string> := None, {};
    NothingYet(g, delegation);
    for i := 0 to |required|
      invariant SeenTo(g, required[..i], delegation, principal, scope)
    {
      var req := required[i];
      assert required[..i + 1] == required[..i] + [req];
      if IsUnscoped(req) { UnscopedIsHopeless(g, required, delegation, i); return Failure(MissingAuthority); }
      var own, problem := FindAuthority(g, g.holder, req);
      if own {
        OwnStep(g, required[..i], req, delegation, principal, scope);
        continue;
      }
      var chain: Option<seq<nat>> := None;
      if delegation { chain := DelegationChainFor(g, req.action); }
      if chain.None? {
        MetByNobody(g, req, delegation);
        Hopeless(g, required, delegation, i);
        return Failure(problem.UnwrapOr(MissingAuthority));
      }
      MismatchIsHopeless(g, required[..i], req, chain.value, principal, scope);
      var via := CheckDelegation(g, chain.value, req.action);
      if via.Failure? {
        Hopeless(g, required, delegation, i);
        return Failure(via.error);
      }
      if principal.Some? && principal.value != via.value.0 {
        Hopeless(g, required, delegation, i);
        return Failure(MissingAuthority);
      }
      DelegatedStep(g, required[..i], req, chain.value, principal, scope, via.value.1);
      principal, scope := Some(via.value.0), scope + via.value.1;
      var theirs, why := FindAuthority(g, principal.value, req);
      if !theirs {
        Hopeless(g, required, delegation, i);
        return Failure(why.UnwrapOr(MissingAuthority));
      }
    }
    assert required[..|required|] == required;
    SeenToMeans(g, required, delegation, principal, scope);
    r := Success((principal, scope));
  }

  lemma BackedHasClaim(g: Gate, i: nat)
    requires Backed(g, i)
    ensures g.creds[i].authority.Some?
  {
    var root := BackedByPod(g, i);
  }

  /** What one credential adds. */
  method Contribution(g: Gate, i: nat, principal: Option<string>, scope: set<string>)
    returns (labels: set<string>, tier: Option<string>)
    requires i < |g.creds|
    ensures forall s :: s in labels <==> Adds(g, i, principal, scope, s)
    ensures forall t :: tier == Some(t) <==> GivesTier(g, i, t)
  {
    hide Backed, Label, PodOk;
    var vc := g.creds[i];
    labels, tier := {}, None;
    if !IsVac(vc) || (vc.subject != g.holder && Some(vc.subject) != principal) { return; }
    var problem := AuthorityProblem(g, i);
    if problem.Some? { return; }
    BackedHasClaim(g, i);
    var a := vc.authority.value;
    labels := set act | act in a.actions && Counts(g, i, act, principal, scope) :: Label(g, a, act);
    forall s ensures s in labels <==> Adds(g, i, principal, scope, s) {
      if s in labels {
        var act :| act in a.actions && Counts(g, i, act, principal, scope) && s == Label(g, a, act);
        assert Contributes(g, i, act, principal, scope, s);
      }
    }
    if !HasParent(a) && vc.subject == g.holder && vc.tier.Some? && Rank(vc.tier.value) >= 0 { tier := vc.tier; }
  }

  lemma ReportedOne(g: Gate, i: nat, principal: Option<string>, scope: set<string>, s: string)
    ensures Reported(g, i + 1, principal, scope, s) <==>
              Reported(g, i, principal, scope, s) || Adds(g, i, principal, scope, s)
  {
    hide Contributes;
    if Reported(g, i + 1, principal, scope, s) {
      var j: nat, act :| j < i + 1 && Contributes(g, j, act, principal, scope, s);
      if j < i {
        assert Reported(g, i, principal, scope, s);
      } else {
        assert Adds(g, i, principal, scope, s);
      }
    }
    if Reported(g, i, principal, scope, s) {
      var j: nat, act :| j < i && Contributes(g, j, act, principal, scope, s);
      assert j < i + 1 && Contributes(g, j, act, principal, scope, s);
    }
    if Adds(g, i, principal, scope, s) {
      var act :| Contributes(g, i, act, principal, scope, s);
      assert i < i + 1 && Contributes(g, i, act, principal, scope, s);
    }
  }

  lemma ReportedMore(g: Gate, i: nat, principal: Option<string>, scope: set<string>)
    ensures forall s ::
              Reported(g, i + 1, principal, scope, s) <==>
                Reported(g, i, principal, scope, s) || Adds(g, i, principal, scope, s)
  {
    hide Reported, Adds;
    forall s
      ensures Reported(g, i + 1, principal, scope, s) <==>
                Reported(g, i, principal, scope, s) || Adds(g, i, principal, scope, s)
    {
      ReportedOne(g, i, principal, scope, s);
    }
  }

  lemma TierMore(g: Gate, i: nat, tier: Option<string>, t: Option<string>)
    requires IsTier(g, i, tier) && forall x :: t == Some(x) <==> GivesTier(g, i, x)
    ensures IsTier(g, i + 1, if t.Some? && (tier.None? || Rank(t.value) > Rank(tier.value)) then t else tier)
  {
    hide GivesTier, Rank;
    if t.Some? { assert GivesTier(g, i, t.value); }
  }

  method Collect(g: Gate, principal: Option<string>, scope: set<string>)
    returns (labels: set<string>, tier: Option<string>)
    ensures forall s :: s in labels <==> Reported(g, |g.creds|, principal, scope, s)
    ensures IsTier(g, |g.creds|, tier)
  {
    hide Backed, Contributes, GivesTier;
    labels, tier := {}, None;
    for i := 0 to |g.creds|
      invariant forall s :: s in labels <==> Reported(g, i, principal, scope, s)
      invariant IsTier(g, i, tier)
    {
      var more, t := Contribution(g, i, principal, scope);
      ReportedMore(g, i, principal, scope);
      TierMore(g, i, tier, t);
      labels := labels + more;
      if t.Some? && (tier.None? || Rank(t.value) > Rank(tier.value)) { tier := t; }
    }
  }

  ghost predicate JustifiedBy(g: Gate, delegatedFor: Option<string>, text: string, i: nat, act: string) {
    && i < |g.creds| && Backed(g, i) && "AuthorityCredential" in g.creds[i].types && g.creds[i].authority.Some?
    && var a := g.creds[i].authority.value;
    && act in a.actions
    && (|| g.creds[i].subject == g.holder
        || (delegatedFor == Some(g.creds[i].subject) && DelegatedAct(g, g.creds[i].subject, act)))
    && (if a.parent.UnwrapOr("") != "" then act == "pay:receive" && text == "pay:receive@" + a.scope
        else if g.pod == Some(a.scope) || (g.pod.None? && a.scope in g.accepted) then text == act
             else text == act + "@" + a.scope)
  }

  /** Why a reported authority may be believed. */
  ghost predicate Justified(g: Gate, delegatedFor: Option<string>, text: string) {
    exists i: nat, act :: JustifiedBy(g, delegatedFor, text, i, act)
  }

  /**
   What a gate that lets the holder in says of it: whom the holder acts for, in what, and with which
   authorities and tier.
   */
  ghost predicate IsOutcome(g: Gate, required: seq<Requirement>, delegation: bool, outcome: Outcome, scope: set<string>)
  {
    && MetByOne(g, required, delegation, outcome.delegatedFor) && (outcome.delegatedFor.None? <==> HasAll(g, required))
    && (forall x :: x in scope <==> Lent(g, required, x))
    && (forall s :: s in outcome.authorities <==> Reported(g, |g.creds|, outcome.delegatedFor, scope, s))
    && IsTier(g, |g.creds|, outcome.tier)
  }

  ghost predicate AllDelegated(g: Gate, principal: Option<string>, scope: set<string>) {
    forall x :: x in scope ==> principal.Some? && DelegatedAct(g, principal.value, x)
  }

  lemma DelegatedThrough(g: Gate, chain: seq<nat>, action: string, principal: string, x: string)
    requires ActsThrough(g, chain, action, principal) && AllDelegate(g, chain, |chain|, x)
    ensures DelegatedAct(g, principal, x)
  {
    hide AllDelegate, IsVia;
    assert AcceptedPath(g, chain, action);
  }

  lemma LentIsDelegated(g: Gate, required: seq<Requirement>, delegation: bool, principal: Option<string>,
                        scope: set<string>)
    requires MetByOne(g, required, delegation, principal) && forall x :: x in scope <==> Lent(g, required, x)
    ensures AllDelegated(g, principal, scope)
  {
    hide Has, IsVia, AcceptedPath, AllDelegate, DelegatedAct;
    forall x | x in scope ensures principal.Some? && DelegatedAct(g, principal.value, x) {
      var q, chain :| q in required && Lends(g, q, chain, x);
      assert MetBy(g, q, delegation, principal);
      var followed :| ActsThrough(g, followed, q.action, principal.value);
      ViaIsUnique(g, chain, followed, q.action);
      DelegatedThrough(g, chain, q.action, principal.value, x);
    }
  }

  lemma ReportedIsJustified(g: Gate, principal: Option<string>, scope: set<string>, s: string)
    requires AllDelegated(g, principal, scope) && Reported(g, |g.creds|, principal, scope, s)
    ensures Justified(g, principal, s)
  {
    hide Backed, DelegatedAct;
    var i: nat, act :| i < |g.creds| && Contributes(g, i, act, principal, scope, s);
    assert JustifiedBy(g, principal, s, i, act);
  }

  lemma FollowedDelegates(g: Gate, chain: seq<nat>, action: string)
    requires IsVia(g, chain, action)
    ensures AllDelegate(g, chain, |chain|, action)
  {
    ViaLeads(g, chain, action);
    forall k | 0 <= k < |chain| ensures Delegates(g, chain[k], action) {
      assert IsHopAt(g, chain, k, action);
    }
  }

  /** What a principal does for the holder is lent to it. */
  lemma NeededIsLent(g: Gate, required: seq<Requirement>, delegation: bool, principal: Option<string>, q: Requirement)
    requires q in required && MetBy(g, q, delegation, principal) && !Has(g, g.holder, q)
    ensures principal.Some? && Has(g, principal.value, q) && Lent(g, required, q.action)
  {
    hide Has, IsVia, AcceptedPath, AllDelegate;
    var chain :| ActsThrough(g, chain, q.action, principal.value);
    FollowedDelegates(g, chain, q.action);
    assert Lends(g, q, chain, q.action);
  }

  /** Whatever a good credential of the holder or of the principal names is reported. */
  lemma ReportedWhen(g: Gate, i: nat, act: string, principal: Option<string>, scope: set<string>)
    requires i < |g.creds| && Backed(g, i) && "AuthorityCredential" in g.creds[i].types && g.creds[i].authority.Some?
    requires act in g.creds[i].authority.value.actions
    requires g.creds[i].subject == g.holder || (principal == Some(g.creds[i].subject) && act in scope)
    requires g.creds[i].authority.value.parent.UnwrapOr("") == "" || act == "pay:receive"
    ensures var a := g.creds[i].authority.value;
            var local := a.parent.UnwrapOr("") == ""
                         && (g.pod == Some(a.scope) || (g.pod.None? && a.scope in g.accepted));
            Reported(g, |g.creds|, principal, scope, if local then act else act + "@" + a.scope)
  {
    hide Backed;
    var a := g.creds[i].authority.value;
    var local := a.parent.UnwrapOr("") == "" && (g.pod == Some(a.scope) || (g.pod.None? && a.scope in g.accepted));
    assert Contributes(g, i, act, principal, scope, if local then act else act + "@" + a.scope);
  }

  lemma MeetingIsReported(g: Gate, i: nat, subject: string, q: Requirement, principal: Option<string>,
                            scope: set<string>)
    requires Meets(g, i, subject, q) && !IsUnscoped(q)
    requires subject == g.holder || (principal == Some(subject) && q.action in scope)
    ensures || Reported(g, |g.creds|, principal, scope, q.action)
            || (q.scope.Some? && Reported(g, |g.creds|, principal, scope, q.action + "@" + q.scope.value))
  {
    hide Backed, Reported;
    ReportedWhen(g, i, q.action, principal, scope);
  }

  /** What was required is among what is reported: nothing is met behind the back of the report. */
  lemma RequiredIsReported(g: Gate, required: seq<Requirement>, delegation: bool, principal: Option<string>,
                           scope: set<string>, q: Requirement)
    requires MetByOne(g, required, delegation, principal) && q in required
    requires forall x :: x in scope <==> Lent(g, required, x)
    ensures || Reported(g, |g.creds|, principal, scope, q.action)
            || (q.scope.Some? && Reported(g, |g.creds|, principal, scope, q.action + "@" + q.scope.value))
  {
    hide Reported, Meets, Backed, Lent, ActsFor;
    var subject := g.holder;
    if !Has(g, g.holder, q) {
      NeededIsLent(g, required, delegation, principal, q);
      subject := principal.value;
    }
    var i: nat :| Meets(g, i, subject, q);
    MeetingIsReported(g, i, subject, q, principal, scope);
  }

  /** Where delegation is not asked for, the holder needs everything itself. */
  lemma WithoutDelegation(g: Gate, required: seq<Requirement>, principal: Option<string>)
    requires MetByOne(g, required, false, principal)
    ensures HasAll(g, required)
  {
    hide Has;
    forall q | q in required ensures Has(g, g.holder, q) {
      assert MetBy(g, q, false, principal);
    }
  }

  /** Receiving payments must be asked for at a place; what else the holder has itself needs no delegation. */
  lemma HeldIsMeetable(g: Gate, required: seq<Requirement>, delegation: bool)
    ensures Requirement("pay:receive", None) in required ==> !Meetable(g, required, delegation)
    ensures Requirement("pay:receive", None) !in required && HasAll(g, required) ==> Meetable(g, required, delegation)
  {
    hide Has, ActsFor;
    if Requirement("pay:receive", None) !in required && HasAll(g, required) {
      forall q | q in required ensures MetBy(g, q, delegation, None) {
        assert q != Requirement("pay:receive", None);
      }
      assert MetByOne(g, required, delegation, None);
    }
  }

  /**
   The authority part of verification. It succeeds exactly when the requirements can be met. It reports exactly
   what the sound credentials of the holder give, and those of the principal within the scope that was lent;
   and everything reported is justified.
   */
  method Authorize(g: Gate, required: seq<Requirement>, delegation: bool)
    returns (r: Result<Outcome, Code>, ghost scope: set<string>)
    ensures r.Success? <==> Meetable(g, required, delegation)
    ensures r.Success? ==> IsOutcome(g, required, delegation, r.value, scope)
    ensures r.Success? ==> forall s :: s in r.value.authorities ==> Justified(g, r.value.delegatedFor, s)
    ensures r.Success? ==> forall q :: q in required ==>
              || q.action in r.value.authorities
              || (q.scope.Some? && q.action + "@" + q.scope.value in r.value.authorities)
    ensures r.Success? && !delegation ==> r.value.delegatedFor == None && HasAll(g, required)
    ensures Requirement("pay:receive", None) in required ==> r.Failure?
    ensures Requirement("pay:receive", None) !in required && HasAll(g, required) ==> r.Success?
  {
    hide Has, DelegatedAct, Reported, IsTier, Justified, MetByOne, HasAll, Lent, Meetable;
    scope := {};
    HeldIsMeetable(g, required, delegation);
    var met := MeetRequirements(g, required, delegation);
    if met.Failure? { return Failure(met.error), scope; }
    scope := met.value.1;
    var labels, tier := Collect(g, met.value.0, met.value.1);
    LentIsDelegated(g, required, delegation, met.value.0, scope);
    forall s | s in labels ensures Justified(g, met.value.0, s) {
      ReportedIsJustified(g, met.value.0, met.value.1, s);
    }
    forall q | q in required
      ensures q.action in labels || (q.scope.Some? && q.action + "@" + q.scope.value in labels)
    {
      RequiredIsReported(g, required, delegation, met.value.0, scope, q);
    }
    if !delegation { WithoutDelegation(g, required, met.value.0); }
    r := Success(Outcome(labels, met.value.0, tier));
  }

  // ----- membership -----

  predicate IsGrantAt(g: Gate, i: nat) {
    && i < |g.creds| && "MembershipCredential" in g.creds[i].types
    && g.creds[i].issuer != g.holder && g.creds[i].subject == g.holder && g.creds[i].issuer in g.accepted
  }

  predicate IsAckAt(g: Gate, j: nat, pod: string) {
    && j < |g.creds| && "MembershipCredential" in g.creds[j].types && g.creds[j].issuer == g.holder
    && g.creds[j].subject == pod
  }

  /**
   A grant to the holder from an accepted pod and the holder's acknowledgement of it, both within the allowed
   skew of being current.
   */
  ghost predicate IsMembership(g: Gate, i: nat, j: nat) {
    && i < |g.creds| && j < |g.creds|
    && var grant, ack := g.creds[i], g.creds[j];
    && "VerifiableCredential" in grant.types && "MembershipCredential" in grant.types
    && "VerifiableCredential" in ack.types && "MembershipCredential" in ack.types
    && grant.validUntil.Some? && grant.validFrom - g.skew <= g.now < grant.validUntil.value + g.skew
    && ack.validUntil.Some? && ack.validFrom - g.skew <= g.now < ack.validUntil.value + g.skew
    && grant.issuer in g.accepted && grant.issuer != g.holder && grant.subject == g.holder
    && ack.issuer == g.holder && ack.subject == grant.issuer && ack.acknowledges == Some(g.digest(grant))
  }

  ghost predicate BelongsTo(g: Gate, pod: string) {
    exists i: nat, j: nat :: IsMembership(g, i, j) && g.creds[i].issuer == pod
  }

  /** Some acknowledgement is addressed to the pod of the grant. */
  ghost predicate Answered(g: Gate, i: nat) { i < |g.creds| && exists j: nat :: IsAckAt(g, j, g.creds[i].issuer) }

  /** The first accepted grant that is answered, or else the first accepted grant. */
  ghost predicate IsPick(g: Gate, i: nat) {
    && IsGrantAt(g, i)
    && (forall k: nat :: k < i && IsGrantAt(g, k) ==> !Answered(g, k))
    && (Answered(g, i) || forall k: nat :: IsGrantAt(g, k) ==> i <= k && !Answered(g, k))
  }

  predicate Matches(g: Gate, i: nat, j: nat) {
    i < |g.creds| && IsAckAt(g, j, g.creds[i].issuer) && g.creds[j].acknowledges == Some(g.digest(g.creds[i]))
  }

  ghost predicate IsFirstMatch(g: Gate, i: nat, j: nat) {
    Matches(g, i, j) && forall k: nat :: k < j ==> !Matches(g, i, k)
  }

  predicate Usable(g: Gate, i: nat) {
    && i < |g.creds| && "VerifiableCredential" in g.creds[i].types
    && InWindow(g, g.creds[i]) && g.creds[i].validUntil.Some?
  }

  /** The gate looks at one grant, the pick, and at one acknowledgement, the first that matches it. */
  ghost predicate Recognises(g: Gate, i: nat, j: nat) {
    i < |g.creds| && IsPick(g, i) && IsFirstMatch(g, i, j) && Usable(g, i) && Usable(g, j)
  }

  ghost predicate RecognisedBy(g: Gate, pod: string) {
    exists i: nat, j: nat :: Recognises(g, i, j) && g.creds[i].issuer == pod
  }

  ghost predicate IsRecognition(g: Gate, pod: Option<string>) {
    if pod.Some? then RecognisedBy(g, pod.value) else forall did :: !RecognisedBy(g, did)
  }

  lemma PickIsOne(g: Gate, i: nat, k: nat)
    requires IsPick(g, i) && IsPick(g, k)
    ensures i == k
  {
    hide IsGrantAt, Answered;
  }

  lemma RecognitionFails(g: Gate, i: nat)
    requires IsPick(g, i) && forall j: nat :: !(IsFirstMatch(g, i, j) && Usable(g, i) && Usable(g, j))
    ensures IsRecognition(g, None)
  {
    hide IsPick, IsFirstMatch, Usable;
    forall p: nat, q: nat ensures !Recognises(g, p, q) {
      if Recognises(g, p, q) { PickIsOne(g, i, p); }
    }
  }

  lemma FirstMatchIsOne(g: Gate, i: nat, j: nat)
    requires IsFirstMatch(g, i, j)
    ensures forall k: nat :: IsFirstMatch(g, i, k) ==> k == j
  {
    hide Matches;
  }

  /** One pod at most is recognised, whatever is presented. */
  lemma RecognisedByOne(g: Gate, p: Option<string>, q: Option<string>)
    requires IsRecognition(g, p) && IsRecognition(g, q)
    ensures p == q
  {
    hide IsPick, IsFirstMatch, Usable;
    if p.Some? && q.Some? {
      var i: nat, j: nat :| Recognises(g, i, j) && g.creds[i].issuer == p.value;
      var k: nat, m: nat :| Recognises(g, k, m) && g.creds[k].issuer == q.value;
      PickIsOne(g, i, k);
    }
  }

  lemma UsableMatchIsMembership(g: Gate, i: nat, j: nat)
    ensures IsMembership(g, i, j) <==> IsGrantAt(g, i) && Matches(g, i, j) && Usable(g, i) && Usable(g, j)
  {
  }

  /** Whoever is recognised belongs to the pod. */
  lemma RecognisedBelongs(g: Gate, pod: string)
    requires RecognisedBy(g, pod)
    ensures BelongsTo(g, pod)
  {
    hide IsMembership, IsGrantAt, Matches, Usable;
    var i: nat, j: nat :| Recognises(g, i, j) && g.creds[i].issuer == pod;
    UsableMatchIsMembership(g, i, j);
  }

  lemma PresentedOnly(g: Gate)
    ensures forall i: nat :: IsGrantAt(g, i) ==> i < |g.creds|
    ensures forall j: nat, pod :: IsAckAt(g, j, pod) ==> j < |g.creds|
  {
  }

  lemma MatchAnswers(g: Gate, i: nat, j: nat)
    ensures Matches(g, i, j) ==> Answered(g, i)
  {
    hide IsAckAt;
  }

  /** An accepted grant at `k` that the credential at `m` acknowledges, rightly or not. */
  ghost predicate AnsweredBy(g: Gate, k: nat, m: nat) {
    && k < |g.creds| && m < |g.creds|
    && "MembershipCredential" in g.creds[k].types && "MembershipCredential" in g.creds[m].types
    && g.creds[k].issuer in g.accepted && g.creds[k].issuer != g.holder && g.creds[k].subject == g.holder
    && g.creds[m].issuer == g.holder && g.creds[m].subject == g.creds[k].issuer
  }

  lemma AnsweredFields(g: Gate, k: nat)
    ensures IsGrantAt(g, k) && Answered(g, k) <==> exists m: nat :: AnsweredBy(g, k, m)
  {
    if IsGrantAt(g, k) && Answered(g, k) {
      var m: nat :| IsAckAt(g, m, g.creds[k].issuer);
      assert AnsweredBy(g, k, m);
    }
    if m: nat :| AnsweredBy(g, k, m) { assert IsAckAt(g, m, g.creds[k].issuer); }
  }

  lemma MatchFields(g: Gate, i: nat, m: nat)
    requires IsGrantAt(g, i)
    ensures Matches(g, i, m) <==> AnsweredBy(g, i, m) && g.creds[m].acknowledges == Some(g.digest(g.creds[i]))
  {
  }

  lemma NoneBefore(g: Gate, i: nat, j: nat)
    requires IsMembership(g, i, j)
    ensures i < |g.creds| && IsGrantAt(g, i)
    ensures Recognises(g, i, j) <==>
              && (forall k: nat :: k < i && IsGrantAt(g, k) ==> !Answered(g, k))
              && (forall m: nat :: m < j ==> !Matches(g, i, m))
  {
    hide IsMembership, IsGrantAt, Matches, Usable, IsAckAt;
    UsableMatchIsMembership(g, i, j);
    assert Matches(g, i, j) ==> Answered(g, i) by { MatchAnswers(g, i, j); }
  }

  /**
   The other way round a complete pair is recognised exactly when it comes first: no accepted grant before the
   grant is answered, and no acknowledgement before the acknowledgement names the grant.
   */
  lemma RecognisedIffFirst(g: Gate, i: nat, j: nat)
    requires IsMembership(g, i, j)
    ensures Recognises(g, i, j) <==>
              && (forall k: nat, m: nat :: k < i ==> !AnsweredBy(g, k, m))
              && (forall m: nat :: m < j && AnsweredBy(g, i, m) ==>
                    g.creds[m].acknowledges != Some(g.digest(g.creds[i])))
  {
    hide IsMembership, IsGrantAt, Matches, Answered, Recognises;
    NoneBefore(g, i, j);
    forall k: nat, m: nat ensures AnsweredBy(g, k, m) ==> IsGrantAt(g, k) && Answered(g, k) {
      AnsweredFields(g, k);
    }
    forall k: nat ensures IsGrantAt(g, k) && Answered(g, k) ==> exists m: nat :: AnsweredBy(g, k, m) {
      AnsweredFields(g, k);
    }
    forall m: nat
      ensures Matches(g, i, m) <==> AnsweredBy(g, i, m) && g.creds[m].acknowledges == Some(g.digest(g.creds[i]))
    {
      MatchFields(g, i, m);
    }
  }

  /** A pair that has run out, presented before its renewal, hides the renewal; presented after it, it does not. */
  lemma RenewalOverlooked(digest: Credential -> string) returns (g: Gate, reordered: Gate)
    ensures |g.creds| == 4 && reordered == g.(creds := g.creds[2..] + g.creds[..2])
    ensures BelongsTo(g, "pod") && IsRecognition(g, None)
    ensures RecognisedBy(reordered, "pod")
  {
    var types := {"VerifiableCredential", "MembershipCredential"};
    var old1 := Credential(types, "pod", "ann", 0, Some(10), None, None, None, None, None);
    var new1 := Credential(types, "pod", "ann", 0, Some(1000), None, None, None, None, None);
    var old2 := Credential(types, "ann", "pod", 0, Some(10), None, None, Some(digest(old1)), None, None);
    var new2 := Credential(types, "ann", "pod", 0, Some(1000), None, None, Some(digest(new1)), None, None);
    g := Gate([old1, old2, new1, new2], digest, "ann", None, {"pod"}, 500, 0);
    reordered := Gate([new1, new2, old1, old2], digest, "ann", None, {"pod"}, 500, 0);
    assert g.creds[2..] + g.creds[..2] == reordered.creds;
    assert IsMembership(g, 2, 3);
    assert IsAckAt(g, 1, "pod") && IsPick(g, 0);
    assert !Usable(g, 0);
    RecognitionFails(g, 0);
    assert IsAckAt(reordered, 1, "pod") && IsPick(reordered, 0) && IsFirstMatch(reordered, 0, 1);
    assert Recognises(reordered, 0, 1);
  }

  predicate AckFits(g: Gate, i: nat, j: nat, matching: bool) {
    i < |g.creds| && if matching then Matches(g, i, j) else IsAckAt(g, j, g.creds[i].issuer)
  }

  method FindAck(g: Gate, i: nat, matching: bool) returns (r: Option<nat>)
    requires i < |g.creds|
    ensures r.Some? ==> AckFits(g, i, r.value, matching) && forall k: nat :: k < r.value ==> !AckFits(g, i, k, matching)
    ensures r.None? ==> forall k: nat :: !AckFits(g, i, k, matching)
  {
    for j := 0 to |g.creds|
      invariant forall k: nat :: k < j ==> !AckFits(g, i, k, matching)
    {
      if AckFits(g, i, j, matching) { return Some(j); }
    }
    r := None;
  }

  method PickGrant(g: Gate) returns (pick: Option<nat>)
    ensures pick.Some? ==> IsPick(g, pick.value)
    ensures pick.None? ==> forall i: nat :: !IsGrantAt(g, i)
  {
    hide IsGrantAt, IsAckAt;
    PresentedOnly(g);
    pick := None;
    for i := 0 to |g.creds|
      invariant pick.Some? ==> pick.value < i && IsGrantAt(g, pick.value)
      invariant forall k: nat :: k < i && IsGrantAt(g, k) ==> pick.Some? && pick.value <= k && !Answered(g, k)
    {
      if IsGrantAt(g, i) {
        var ack := FindAck(g, i, false);
        if ack.Some? {
          assert AckFits(g, i, ack.value, false) && Answered(g, i);
          return Some(i);
        }
        forall j: nat ensures !IsAckAt(g, j, g.creds[i].issuer) {
          assert !AckFits(g, i, j, false);
        }
        if pick.None? { pick := Some(i); }
      }
    }
  }

  /** What is said when no accepted pod's grant is presented. */
  function WhyNoGrant(g: Gate): Code {
    var memberships := set vc | vc in g.creds && "MembershipCredential" in vc.types;
    if exists vc :: vc in memberships && vc.issuer != g.holder && vc.subject == g.holder then PodMismatch
    else if exists vc :: vc in memberships && vc.issuer == g.holder then PairIncomplete
    else NoMembership
  }

  lemma PicksAreGrants(g: Gate)
    ensures forall i: nat :: IsPick(g, i) ==> IsGrantAt(g, i)
  {
  }

  lemma UsableIsPair(g: Gate, i: nat, j: nat)
    requires IsGrantAt(g, i) && Matches(g, i, j)
    ensures Usable(g, i) && Usable(g, j) ==> IsPair(g.digest, g.creds[i], g.creds[j])
    ensures IsMembershipPairComplete(g.digest, g.creds[i], g.creds[j], g.now) ==> Usable(g, i) && Usable(g, j)
    ensures IsPair(g.digest, g.creds[i], g.creds[j]) ==>
              (Usable(g, i) <==> InWindow(g, g.creds[i]) && g.creds[i].validUntil.Some?)
              && (Usable(g, j) <==> InWindow(g, g.creds[j]) && g.creds[j].validUntil.Some?)
  {
  }

  /** The pod that the holder is shown to be a member of. A gate that requires membership gets one or refuses. */
  method CheckMembership(g: Gate, required: bool) returns (r: Result<Option<string>, Code>)
    ensures r.Success? ==> IsRecognition(g, r.value) && (required ==> r.value.Some?)
    ensures r.Failure? ==> IsRecognition(g, None) && required
  {
    hide IsGrantAt, IsAckAt, IsPick, InWindow;
    var pick := PickGrant(g);
    var problem := WhyNoGrant(g);
    if pick.None? {
      assert forall i: nat, j: nat :: !Recognises(g, i, j) by { PicksAreGrants(g); }
    } else {
      var i := pick.value;
      PicksAreGrants(g);
      PresentedOnly(g);
      var some := FindAck(g, i, false);
      var ack := FindAck(g, i, true);
      if some.None? {
        problem := PairIncomplete;
        forall j: nat ensures !Matches(g, i, j) {
          assert !AckFits(g, i, j, false);
        }
        RecognitionFails(g, i);
      } else if ack.None? {
        problem := DigestMismatch;
        forall j: nat ensures !Matches(g, i, j) {
          assert !AckFits(g, i, j, true);
        }
        RecognitionFails(g, i);
      } else {
        var j := ack.value;
        var grant, acked := g.creds[i], g.creds[j];
        assert IsFirstMatch(g, i, j) by { assert forall k: nat :: AckFits(g, i, k, true) <==> Matches(g, i, k); }
        FirstMatchIsOne(g, i, j);
        UsableIsPair(g, i, j);
        var complete := IsMembershipPairComplete(g.digest, grant, acked, g.now);
        var outside := !InWindow(g, grant) || !InWindow(g, acked);
        if !complete && (outside || grant.validUntil.None? || acked.validUntil.None?) {
          problem := Expired;
          RecognitionFails(g, i);
        } else if !complete && !IsPair(g.digest, grant, acked) {
          problem := PairIncomplete;
          RecognitionFails(g, i);
        } else {
          assert Recognises(g, i, j);
          return Success(Some(grant.issuer));
        }
      }
    }
    r := if required then Failure(problem) else Success(None);
  }

  lemma RecognitionBelongs(g: Gate, pod: string)
    requires IsRecognition(g, Some(pod))
    ensures BelongsTo(g, pod)
  {
    RecognisedBelongs(g, pod);
  }

  /**
   Membership and authority together: once membership is shown, nothing counts but what that one pod issued.
   It succeeds exactly when the membership that is asked for is recognised and the requirements can be met there.
   */
  method Verify(g: Gate, requireMembership: bool, required: seq<Requirement>, delegation: bool)
    returns (r: Result<(Option<string>, Outcome), Code>, ghost scope: set<string>)
    ensures forall pod :: IsRecognition(g, pod) ==>
              (r.Success? <==> (requireMembership ==> pod.Some?) && Meetable(g.(pod := pod), required, delegation))
    ensures r.Success? ==>
              && IsRecognition(g, r.value.0) && (r.value.0.Some? ==> BelongsTo(g, r.value.0.value))
              && IsOutcome(g.(pod := r.value.0), required, delegation, r.value.1, scope)
              && (forall s :: s in r.value.1.authorities ==> Justified(g.(pod := r.value.0), r.value.1.delegatedFor, s))
    ensures r.Success? && !delegation ==> r.value.1.delegatedFor == None && HasAll(g.(pod := r.value.0), required)
    ensures r.Success? ==> forall q :: q in required ==>
              || q.action in r.value.1.authorities
              || (q.scope.Some? && q.action + "@" + q.scope.value in r.value.1.authorities)
  {
    hide Justified, Meetable, BelongsTo, IsRecognition, IsOutcome;
    scope := {};
    var pod := CheckMembership(g, requireMembership);
    if pod.Failure? {
      forall other | IsRecognition(g, other) ensures other == None { RecognisedByOne(g, other, None); }
      return Failure(pod.error), scope;
    }
    forall other | IsRecognition(g, other) ensures other == pod.value { RecognisedByOne(g, other, pod.value); }
    if pod.value.Some? { RecognitionBelongs(g, pod.value.value); }
    var outcome;
    outcome, scope := Authorize(g.(pod := pod.value), required, delegation);
    if outcome.Failure? { return Failure(outcome.error), scope; }
    r := Success((pod.value, outcome.value));
  }
}
