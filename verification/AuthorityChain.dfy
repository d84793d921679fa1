/**
 Credentials of authority and how they are passed on. `Attenuate` makes the next link of a chain and
 `CheckAuthorityChain` accepts a chain; the digest that ties a link to its parent is any function at all.
 */
module AuthorityChain {
  import opened Wrappers

  datatype Authority = Authority(scope: string, actions: set<string>, parent: Option<string>, depth: Option<int>,
                                 maxDepth: Option<int>)

  datatype Delegation = Delegation(scope: Option<set<string>>, maxDepth: Option<int>, accepts: Option<string>)

  datatype Credential = Credential(types: set<string>, issuer: string, subject: string, validFrom: int,
                                   validUntil: Option<int>, authority: Option<Authority>,
                                   delegation: Option<Delegation>, acknowledges: Option<string>, tier: Option<string>,
                                   proof: Option<string>)

  const DAY_MS := 86_400_000
  const AUTHORITY_DAYS := 90
  const ATTENUATED_DAYS := 30
  const DEFAULT_MAX_DEPTH := 1

  predicate HasType(vc: Credential, t: string) { "VerifiableCredential" in vc.types && t in vc.types }

  predicate IsAuthority(vc: Credential) { HasType(vc, "AuthorityCredential") && vc.authority.Some? }

  function DepthOf(a: Authority): int { a.depth.UnwrapOr(0) }

  function AllowanceOf(a: Authority): int { a.maxDepth.UnwrapOr(DEFAULT_MAX_DEPTH) }

  // ----- what an accepted chain is -----

  ghost predicate IsRootLink(vc: Credential) {
    && "VerifiableCredential" in vc.types && "AuthorityCredential" in vc.types && vc.authority.Some?
    && vc.authority.value.parent == None && vc.authority.value.depth.UnwrapOr(0) == 0
  }

  /** `child` is a proper attenuation of `parent` in a chain whose root claims `root`. */
  ghost predicate IsLink(digest: Credential -> string, root: Authority, parent: Credential, child: Credential) {
    && parent.authority.Some? && "VerifiableCredential" in parent.types && "AuthorityCredential" in parent.types
    && child.authority.Some? && "VerifiableCredential" in child.types && "AuthorityCredential" in child.types
    && var p, c, depth := parent.authority.value, child.authority.value, parent.authority.value.depth.UnwrapOr(0) + 1;
    && c.parent == Some(digest(parent))
    && c.depth == Some(depth) && depth <= root.maxDepth.UnwrapOr(1) && c.maxDepth == root.maxDepth
    && c.scope == p.scope && c.actions <= p.actions
    && child.issuer == parent.subject
    && child.validFrom >= parent.validFrom
    && child.validUntil.Some? && parent.validUntil.Some? && child.validUntil.value <= parent.validUntil.value
  }

  ghost predicate IsChain(digest: Credential -> string, chain: seq<Credential>) {
    && |chain| > 0 && IsRootLink(chain[0])
    && (forall i :: 1 <= i < |chain| ==> IsLink(digest, chain[0].authority.value, chain[i - 1], chain[i]))
  }

  // ----- the checker -----

  datatype Fault = Empty | NotAuthority(n: nat) | NotRoot | RootDepth | WrongParent(n: nat) | WrongDepth(n: nat)
    | TooDeep(n: nat) | ChangesMaxDepth(n: nat)
    | ChangesScope(n: nat) | ExtraActions(n: nat) | WrongIssuer(n: nat) | StartsEarly(n: nat) | Outlives(n: nat)

  function LinkFault(digest: Credential -> string, root: Authority, parent: Credential, child: Credential, n: nat)
    : (f: Option<Fault>)
    requires IsAuthority(parent)
    ensures f.None? <==> IsLink(digest, root, parent, child)
    ensures f.Some? ==> f.value != Empty
  {
    var p := parent.authority.value;
    if !IsAuthority(child) then Some(NotAuthority(n))
    else
      var c := child.authority.value;
      var depth := DepthOf(p) + 1;
      if c.parent != Some(digest(parent)) then Some(WrongParent(n))
      else if c.depth != Some(depth) then Some(WrongDepth(n))
      else if depth > AllowanceOf(root) then Some(TooDeep(n))
      else if c.maxDepth != root.maxDepth then Some(ChangesMaxDepth(n))
      else if c.scope != p.scope then Some(ChangesScope(n))
      else if !(c.actions <= p.actions) then Some(ExtraActions(n))
      else if child.issuer != parent.subject then Some(WrongIssuer(n))
      else if child.validFrom < parent.validFrom then Some(StartsEarly(n))
      else if child.validUntil.None? || parent.validUntil.None? || child.validUntil.value > parent.validUntil.value
      then Some(Outlives(n))
      else None
  }

  lemma LinkIsAuthority(digest: Credential -> string, root: Authority, parent: Credential, child: Credential)
    ensures IsLink(digest, root, parent, child) ==> IsAuthority(child)
  {
  }

  method CheckAuthorityChain(digest: Credential -> string, chain: seq<Credential>) returns (fault: Option<Fault>)
    ensures fault.None? <==> IsChain(digest, chain)
  {
    hide IsLink;
    if chain == [] { return Some(Empty); }
    if !IsAuthority(chain[0]) { return Some(NotAuthority(1)); }
    var root := chain[0].authority.value;
    if root.parent.Some? { return Some(NotRoot); }
    if DepthOf(root) != 0 { return Some(RootDepth); }
    for i := 1 to |chain|
      invariant forall j :: 1 <= j < i ==> IsLink(digest, root, chain[j - 1], chain[j])
      invariant IsAuthority(chain[i - 1])
    {
      var fault := LinkFault(digest, root, chain[i - 1], chain[i], i + 1);
      if fault.Some? { return fault; }
      LinkIsAuthority(digest, root, chain[i - 1], chain[i]);
    }
    fault := None;
  }

  // ----- what acceptance means, link against link -----

  /** Any two links of an accepted chain are nested in what they allow and when; depth is position. */
  lemma {:induction false} ChainIsNested(digest: Credential -> string, chain: seq<Credential>, i: nat, j: nat)
    requires IsChain(digest, chain) && i <= j < |chain|
    ensures IsAuthority(chain[i]) && IsAuthority(chain[j])
    ensures chain[j].authority.value.actions <= chain[i].authority.value.actions
    ensures chain[j].authority.value.scope == chain[i].authority.value.scope
    ensures DepthOf(chain[j].authority.value) == j
    ensures i < j ==>
              && chain[i].validUntil.Some? && chain[j].validUntil.Some?
              && chain[j].validUntil.value <= chain[i].validUntil.value
    ensures chain[i].validFrom <= chain[j].validFrom
    ensures i < j ==> chain[i + 1].issuer == chain[i].subject
  {
    if j > 0 {
      assert IsLink(digest, chain[0].authority.value, chain[j - 1], chain[j]);
      if i < j { ChainIsNested(digest, chain, i, j - 1); } else { ChainIsNested(digest, chain, i - 1, j - 1); }
      if i + 1 < j { assert IsLink(digest, chain[0].authority.value, chain[i], chain[i + 1]); }
    }
  }

  /** An accepted chain is no longer than its root allows. */
  lemma ChainIsShort(digest: Credential -> string, chain: seq<Credential>)
    requires IsChain(digest, chain)
    ensures |chain| == 1 || |chain| <= AllowanceOf(chain[0].authority.value) + 1
  {
    if |chain| > 1 {
      var n := |chain| - 1;
      ChainIsNested(digest, chain, n, n);
      assert IsLink(digest, chain[0].authority.value, chain[n - 1], chain[n]);
      ChainIsNested(digest, chain, n - 1, n - 1);
    }
  }

  /** Without an allowance of its own a root is passed on at most once. */
  lemma PassedOnOnce(digest: Credential -> string, chain: seq<Credential>)
    requires IsChain(digest, chain) && chain[0].authority.value.maxDepth == None
    ensures |chain| <= 2
  {
    ChainIsShort(digest, chain);
  }

  // ----- the producer -----

  datatype AttenuationError = NotAnAuthority | Unsigned | NotTheHolder | NoActions | ParentLacksActions
    | ParentHasNoExpiry | BeforeParent | ParentExpired
    | OutlivesParent | TooLong | NoDepthLeft | BadAuthority

  datatype Grant = Grant(issuer: string, subject: string, actions: set<string>, validFrom: int, validUntil: int)

  /** Authority lasts ninety days at most. */
  function BuildAuthority(g: Grant, a: Authority): (r: Result<Credential, AttenuationError>)
    ensures r.Success? <==>
              && a.scope != "" && a.actions != {} && g.issuer != "" && g.subject != ""
              && g.validFrom < g.validUntil <= g.validFrom + 7_776_000_000
    ensures r.Success? ==>
              && r.value.issuer == g.issuer && r.value.subject == g.subject && r.value.authority == Some(a)
              && r.value.validFrom == g.validFrom && r.value.validUntil == Some(g.validUntil)
              && r.value.types == {"VerifiableCredential", "AuthorityCredential"} && r.value.proof == None
  {
    if a.scope == "" || a.actions == {} || g.issuer == "" || g.subject == "" then Failure(BadAuthority)
    else if g.validUntil <= g.validFrom || g.validUntil - g.validFrom > AUTHORITY_DAYS * DAY_MS
    then Failure(BadAuthority)
    else
      var types := {"VerifiableCredential", "AuthorityCredential"};
      Success(Credential(types, g.issuer, g.subject, g.validFrom, Some(g.validUntil), Some(a), None, None, None, None))
  }

  /**
   Passes authority on: from a signed credential by its subject, for thirty days at most within the parent's window, and
   no deeper than the parent allows.
   */
  function Attenuate(digest: Credential -> string, parent: Credential, g: Grant)
    : (r: Result<Credential, AttenuationError>)
    ensures r.Success? <==>
              && "VerifiableCredential" in parent.types && "AuthorityCredential" in parent.types && parent.proof.Some?
              && parent.authority.Some? && parent.validUntil.Some? && var a := parent.authority.value;
              && g.issuer == parent.subject && {} < g.actions <= a.actions
              && parent.validFrom <= g.validFrom < g.validUntil <= parent.validUntil.value
              && g.validUntil <= g.validFrom + 2_592_000_000
              && a.depth.UnwrapOr(0) < a.maxDepth.UnwrapOr(1) && a.scope != "" && g.issuer != "" && g.subject != ""
    ensures r.Success? ==> var a := parent.authority.value;
              && r.value.issuer == g.issuer && r.value.subject == g.subject
              && r.value.validFrom == g.validFrom && r.value.validUntil == Some(g.validUntil)
              && r.value.types == {"VerifiableCredential", "AuthorityCredential"}
              && r.value.authority == Some(Authority(a.scope, g.actions, Some(digest(parent)),
                                                     Some(a.depth.UnwrapOr(0) + 1), a.maxDepth))
  {
    if !HasType(parent, "AuthorityCredential") then Failure(NotAnAuthority)
    else if parent.proof.None? then Failure(Unsigned)
    else if parent.authority.None? then Failure(NotAnAuthority)
    else
      var a := parent.authority.value;
      if g.issuer != parent.subject then Failure(NotTheHolder)
      else if g.actions == {} then Failure(NoActions)
      else if !(g.actions <= a.actions) then Failure(ParentLacksActions)
      else if parent.validUntil.None? then Failure(ParentHasNoExpiry)
      else if g.validFrom < parent.validFrom then Failure(BeforeParent)
      else if parent.validUntil.value <= g.validFrom then Failure(ParentExpired)
      else if g.validUntil > parent.validUntil.value then Failure(OutlivesParent)
      else if g.validUntil - g.validFrom > ATTENUATED_DAYS * DAY_MS then Failure(TooLong)
      else if DepthOf(a) + 1 > AllowanceOf(a) then Failure(NoDepthLeft)
      else BuildAuthority(g, Authority(a.scope, g.actions, Some(digest(parent)), Some(DepthOf(a) + 1), a.maxDepth))
  }

  function Signed(vc: Credential, proof: string): Credential { vc.(proof := Some(proof)) }

  /** All links carry the allowance of the root. */
  lemma ChainAllowance(digest: Credential -> string, chain: seq<Credential>, i: nat)
    requires IsChain(digest, chain) && i < |chain|
    ensures IsAuthority(chain[i]) && chain[i].authority.value.maxDepth == chain[0].authority.value.maxDepth
  {
    if i > 0 { assert IsLink(digest, chain[0].authority.value, chain[i - 1], chain[i]); }
  }

  /** What `Attenuate` makes from the last link of an accepted chain is, once signed, the next link. */
  lemma AttenuationExtends(digest: Credential -> string, chain: seq<Credential>, g: Grant, proof: string)
    requires IsChain(digest, chain) && Attenuate(digest, chain[|chain| - 1], g).Success?
    ensures IsChain(digest, chain + [Signed(Attenuate(digest, chain[|chain| - 1], g).value, proof)])
  {
    var n := |chain| - 1;
    var child := Signed(Attenuate(digest, chain[n], g).value, proof);
    ChainAllowance(digest, chain, n);
    assert IsLink(digest, chain[0].authority.value, chain[n], child);
    hide IsLink, Attenuate;
    var longer := chain + [child];
    forall i | 1 <= i < |longer| ensures IsLink(digest, longer[0].authority.value, longer[i - 1], longer[i]) {
      if i <= n { assert IsLink(digest, chain[0].authority.value, chain[i - 1], chain[i]); }
    }
  }

  datatype Step = Step(grant: Grant, proof: string)

  /** The chain that repeated attenuation grows from a root, if every step succeeds. */
  function Grown(digest: Credential -> string, root: Credential, steps: seq<Step>): (r: Option<seq<Credential>>)
    ensures r.Some? ==> |r.value| == |steps| + 1
  {
    if steps == [] then Some([root])
    else
      var n := |steps| - 1;
      match Grown(digest, root, steps[..n])
      case None => None
      case Some(chain) =>
        var child := Attenuate(digest, chain[|chain| - 1], steps[n].grant);
        if child.Failure? then None else Some(chain + [Signed(child.value, steps[n].proof)])
  }

  /** It grows by one link at a time, as long as attenuation succeeds. */
  lemma GrownMore(digest: Credential -> string, root: Credential, steps: seq<Step>, s: Step)
    ensures Grown(digest, root, []) == Some([root])
    ensures Grown(digest, root, steps + [s]).Some? <==>
              && Grown(digest, root, steps).Some?
              && Attenuate(digest, Grown(digest, root, steps).value[|steps|], s.grant).Success?
    ensures Grown(digest, root, steps + [s]).Some? ==>
              var chain := Grown(digest, root, steps).value;
              Grown(digest, root, steps + [s]).value
                == chain + [Attenuate(digest, chain[|steps|], s.grant).value.(proof := Some(s.proof))]
  {
    hide Attenuate;
    assert (steps + [s])[..|steps|] == steps;
  }

  /** Whatever attenuation grows from a root, the checker accepts, however long. */
  lemma {:induction false} GrownChainsPass(digest: Credential -> string, root: Credential, steps: seq<Step>)
    requires IsRootLink(root) && Grown(digest, root, steps).Some?
    ensures IsChain(digest, Grown(digest, root, steps).value) && |Grown(digest, root, steps).value| == |steps| + 1
  {
    hide Attenuate, IsLink;
    if steps != [] {
      var n := |steps| - 1;
      GrownChainsPass(digest, root, steps[..n]);
      AttenuationExtends(digest, Grown(digest, root, steps[..n]).value, steps[n].grant, steps[n].proof);
    }
  }

  /**
   What the producer asks beyond the checker: a signed parent, some action, names, and a window of at most
   thirty days inside the parent's.
   */
  ghost predicate Producible(parent: Credential, child: Credential) {
    && parent.proof.Some? && parent.validUntil.Some? && child.validUntil.Some? && child.authority.Some?
    && child.authority.value.actions != {} && child.authority.value.scope != "" && child.issuer != ""
    && child.subject != ""
    && child.validFrom < child.validUntil.value && parent.validUntil.value > child.validFrom
    && child.validUntil.value - child.validFrom <= 2_592_000_000
  }

  function GrantOf(child: Credential): Grant
    requires child.authority.Some? && child.validUntil.Some?
  {
    Grant(child.issuer, child.subject, child.authority.value.actions, child.validFrom, child.validUntil.value)
  }

  /** The converse: the checker accepts a link exactly as `Attenuate` would make it, up to those conditions. */
  lemma AcceptedLinkIsAttenuation(digest: Credential -> string, chain: seq<Credential>, i: nat)
    requires IsChain(digest, chain) && 1 <= i < |chain|
    ensures IsAuthority(chain[i - 1]) && IsAuthority(chain[i]) && chain[i].validUntil.Some?
    ensures Attenuate(digest, chain[i - 1], GrantOf(chain[i])).Success? <==> Producible(chain[i - 1], chain[i])
    ensures Producible(chain[i - 1], chain[i]) ==>
              Attenuate(digest, chain[i - 1], GrantOf(chain[i])).value.authority == chain[i].authority
  {
    assert IsLink(digest, chain[0].authority.value, chain[i - 1], chain[i]);
    ChainAllowance(digest, chain, i - 1);
  }

  // ----- membership -----

  /** A pod's grant of membership and the member's acknowledgement of that very grant. */
  predicate IsPair(digest: Credential -> string, grant: Credential, ack: Credential) {
    && HasType(grant, "MembershipCredential") && HasType(ack, "MembershipCredential")
    && ack.acknowledges == Some(digest(grant)) && ack.issuer == grant.subject && ack.subject == grant.issuer
  }

  // ----- delegation -----

  predicate IsCurrent(vc: Credential, now: int) {
    vc.validFrom <= now && vc.validUntil.Some? && vc.validUntil.value > now
  }

  /** Both in force at one moment, the acknowledgement from the member to the pod and for that very grant. */
  predicate IsMembershipPairComplete(digest: Credential -> string, grant: Credential, ack: Credential, now: int)
    : (complete: bool)
    ensures complete <==>
              && "VerifiableCredential" in grant.types && "MembershipCredential" in grant.types
              && "VerifiableCredential" in ack.types && "MembershipCredential" in ack.types
              && ack.acknowledges == Some(digest(grant)) && ack.issuer == grant.subject && ack.subject == grant.issuer
              && grant.validUntil.Some? && grant.validFrom <= now < grant.validUntil.value
              && ack.validUntil.Some? && ack.validFrom <= now < ack.validUntil.value
  {
    IsPair(digest, grant, ack) && IsCurrent(grant, now) && IsCurrent(ack, now)
  }

  predicate Accepts(a: Credential, hop: Credential, digest: Credential -> string, now: int) {
    && HasType(a, "DelegationCredential") && a.issuer == hop.subject && a.subject == hop.issuer
    && a.delegation.Some? && a.delegation.value.accepts == Some(digest(hop)) && IsCurrent(a, now)
  }

  /**
   A hop of a delegation: it delegates the action, allows the hops below it, is current and is accepted by its
   steward.
   */
  ghost predicate IsHop(digest: Credential -> string, hop: Credential, action: string, below: nat,
                        acceptances: seq<Credential>, now: int)
  {
    && "VerifiableCredential" in hop.types && "DelegationCredential" in hop.types
    && hop.delegation.Some? && hop.delegation.value.scope.Some? && action in hop.delegation.value.scope.value
    && below <= hop.delegation.value.maxDepth.UnwrapOr(0)
    && hop.validFrom <= now && hop.validUntil.Some? && now < hop.validUntil.value
    && exists a :: a in acceptances
         && "VerifiableCredential" in a.types && "DelegationCredential" in a.types
         && a.issuer == hop.subject && a.subject == hop.issuer
         && a.delegation.Some? && a.delegation.value.accepts == Some(digest(hop))
         && a.validFrom <= now && a.validUntil.Some? && now < a.validUntil.value
  }

  ghost predicate IsDelegation(digest: Credential -> string, chain: seq<Credential>, actor: string, action: string,
                               acceptances: seq<Credential>, now: int)
  {
    && |chain| > 0
    && (forall i :: 0 <= i < |chain| ==> IsHop(digest, chain[i], action, |chain| - 1 - i, acceptances, now))
    && (forall i :: 0 <= i < |chain| - 1 ==> chain[i + 1].issuer == chain[i].subject)
    && chain[|chain| - 1].subject == actor
  }

  datatype DelegationFault = NoHops | NotDelegation(n: nat) | NotDelegated(n: nat) | DepthExceeded(n: nat)
    | BrokenHop(n: nat) | NotCurrent(n: nat) | NotAccepted(n: nat) | OtherActor

  method CheckDelegationChain(digest: Credential -> string, chain: seq<Credential>, actor: string, action: string,
                              acceptances: seq<Credential>, now: int)
    returns (r: Result<string, DelegationFault>)
    ensures r.Success? <==> IsDelegation(digest, chain, actor, action, acceptances, now)
    ensures r.Success? ==>
              && |chain| > 0 && r.value == chain[0].issuer && chain[|chain| - 1].subject == actor
              && (forall i, j :: 0 <= i < j < |chain| && j == i + 1 ==> chain[i].subject == chain[j].issuer)
  {
    if chain == [] { return Failure(NoHops); }
    for i := 0 to |chain|
      invariant forall j :: 0 <= j < i ==> IsHop(digest, chain[j], action, |chain| - 1 - j, acceptances, now)
      invariant forall j :: 0 <= j < i && j < |chain| - 1 ==> chain[j + 1].issuer == chain[j].subject
    {
      var hop := chain[i];
      if !HasType(hop, "DelegationCredential") || hop.delegation.None? || hop.delegation.value.scope.None? {
        return Failure(NotDelegation(i + 1));
      }
      if action !in hop.delegation.value.scope.value { return Failure(NotDelegated(i + 1)); }
      if |chain| - 1 - i > hop.delegation.value.maxDepth.UnwrapOr(0) { return Failure(DepthExceeded(i + 1)); }
      if i < |chain| - 1 && chain[i + 1].issuer != hop.subject { return Failure(BrokenHop(i + 2)); }
      if !IsCurrent(hop, now) { return Failure(NotCurrent(i + 1)); }
      if !(exists a :: a in acceptances && Accepts(a, hop, digest, now)) { return Failure(NotAccepted(i + 1)); }
    }
    if chain[|chain| - 1].subject != actor { return Failure(OtherActor); }
    r := Success(chain[0].issuer);
  }
}
