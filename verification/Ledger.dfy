/**
 The mutual-credit ledger in whole cents. Accounts start at zero and a settled entry moves its amount from
 the payer to the payee, so balances sum to zero and each is what its settled entries say.
 */
module Ledger {
  import opened Wrappers
  import opened Totals
  import AuthorityChain

  datatype Kind = Member | Enterprise

  datatype Band = L1 | L2 | L3

  datatype Account = Account(kind: Kind, band: Band, limit: nat, balance: int)

  /** A payment request as the pod signed it. Two requests with one digest are equal. */
  datatype Request = Request(pod: string, merchant: string, invoice: string, unit: string, value: int, totalSale: int,
                             expires: int, offline: bool)

  datatype Tender = Tender(provider: string, dollars: nat)

  datatype Status = Requested | Settled

  datatype Entry = Entry(payer: Option<string>, payee: string, amount: int, invoice: string, request: Option<Request>,
                         status: Status, createdAt: int, offline: bool, tender: Option<Tender>)

  const DAY_MS := 86_400_000

  // ----- sums over entries -----

  /**
   What a sum over the entries measures: the net credits of an account, or a payee's offline credits on one
   UTC day.
   */
  datatype Measure = NetOf(did: string) | OfflineOn(payee: string, day: int)

  function Share(e: Entry, m: Measure): int {
    if e.status != Settled then 0
    else match m
      case NetOf(did) => (if e.payee == did then e.amount else 0) - (if e.payer == Some(did) then e.amount else 0)
      case OfflineOn(payee, day) => if e.payee == payee && e.offline && e.createdAt / DAY_MS == day then e.amount else 0
  }

  function SumOf(entries: seq<Entry>, m: Measure): int {
    if entries == [] then 0 else SumOf(entries[..|entries| - 1], m) + Share(entries[|entries| - 1], m)
  }

  lemma SumAppended(entries: seq<Entry>, e: Entry, m: Measure)
    ensures SumOf(entries + [e], m) == SumOf(entries, m) + Share(e, m)
  {
    assert (entries + [e])[..|entries|] == entries;
  }

  lemma {:induction false} SumUpdated(entries: seq<Entry>, i: nat, e: Entry, m: Measure)
    requires i < |entries|
    ensures SumOf(entries[i := e], m) == SumOf(entries, m) - Share(entries[i], m) + Share(e, m)
  {
    var n := |entries| - 1;
    if i == n {
      assert entries[i := e][..n] == entries[..n];
    } else {
      assert entries[i := e][..n] == entries[..n][i := e];
      SumUpdated(entries[..n], i, e, m);
    }
  }

  /** Offline credits count for a payee on the UTC day in which they were settled. */
  lemma OfflineCounted(entries: seq<Entry>, e: Entry, payee: string, day: int)
    ensures SumOf([], OfflineOn(payee, day)) == 0
    ensures SumOf(entries + [e], OfflineOn(payee, day)) - SumOf(entries, OfflineOn(payee, day)) ==
              if e.status == Settled && e.offline && e.payee == payee
                 && day * 86_400_000 <= e.createdAt < (day + 1) * 86_400_000
              then e.amount else 0
  {
    SumAppended(entries, e, OfflineOn(payee, day));
  }

  /** What an account has is what settled entries paid it, less what they paid out of it. */
  lemma NetCounted(entries: seq<Entry>, e: Entry, did: string)
    ensures SumOf([], NetOf(did)) == 0
    ensures SumOf(entries + [e], NetOf(did)) - SumOf(entries, NetOf(did)) ==
              if e.status != Settled || (e.payee == did && e.payer == Some(did)) then 0
              else if e.payee == did then e.amount else if e.payer == Some(did) then -e.amount else 0
  {
    SumAppended(entries, e, NetOf(did));
  }

  // ----- the books -----

  ghost function Balances(accounts: map<string, Account>): map<string, int> {
    map d | d in accounts :: accounts[d].balance
  }

  ghost predicate ZeroSum(accounts: map<string, Account>) {
    Total(accounts.Keys, Balances(accounts)) == 0
  }

  /** Every balance is the settled inflows of the account minus its settled outflows. */
  ghost predicate Books(accounts: map<string, Account>, entries: seq<Entry>) {
    forall d :: d in accounts ==> accounts[d].balance == SumOf(entries, NetOf(d))
  }

  /** Settled entries are between two different accounts that exist. */
  ghost predicate Parties(accounts: map<string, Account>, entries: seq<Entry>) {
    forall i :: 0 <= i < |entries| && entries[i].status == Settled ==>
      && entries[i].payer.Some? && entries[i].payer.value in accounts && entries[i].payee in accounts
      && entries[i].payer.value != entries[i].payee
  }

  function Moved(accounts: map<string, Account>, from: string, to: string, amount: int): map<string, Account>
    requires from in accounts && to in accounts && from != to
  {
    var paid := accounts[from].(balance := accounts[from].balance - amount);
    accounts[from := paid][to := accounts[to].(balance := accounts[to].balance + amount)]
  }

  /** A transfer of any amount between two accounts keeps the sum of all balances. */
  lemma TransferKeepsSum(accounts: map<string, Account>, from: string, to: string, amount: int)
    requires from in accounts && to in accounts && from != to
    ensures Total(accounts.Keys, Balances(Moved(accounts, from, to, amount)))
              == Total(accounts.Keys, Balances(accounts))
  {
    hide Total;
    var b, b' := Balances(accounts), Balances(Moved(accounts, from, to, amount));
    var rest := accounts.Keys - {from} - {to};
    TotalRemove(accounts.Keys, b, from);
    TotalRemove(accounts.Keys, b', from);
    TotalRemove(accounts.Keys - {from}, b, to);
    TotalRemove(accounts.Keys - {from}, b', to);
    TotalSame(rest, b, b');
  }

  /** The entry as settling leaves it. */
  function Paid(e: Entry, from: string, at: int): Entry { e.(payer := Some(from), status := Settled, createdAt := at) }

  lemma BooksAfter(accounts: map<string, Account>, entries: seq<Entry>, i: nat, from: string, amount: int, at: int,
                   d: string)
    requires i < |entries| && entries[i].status == Requested && from in accounts && entries[i].payee in accounts
    requires from != entries[i].payee
    requires Books(accounts, entries) && d in accounts
    ensures Moved(accounts, from, entries[i].payee, amount)[d].balance - SumOf(entries[i := Paid(entries[i], from, at)],
                                                                               NetOf(d))
            == if d == entries[i].payee then amount - entries[i].amount
               else if d == from then entries[i].amount - amount
               else 0
  {
    SumUpdated(entries, i, Paid(entries[i], from, at), NetOf(d));
  }

  /** Settling a requested entry for some amount keeps the books exactly when the amount is the entry's own. */
  lemma SettlingKeepsBooksIff(accounts: map<string, Account>, entries: seq<Entry>, i: nat, from: string, amount: int,
                              at: int)
    requires i < |entries| && entries[i].status == Requested && from in accounts && entries[i].payee in accounts
    requires from != entries[i].payee
    requires Books(accounts, entries)
    ensures Books(Moved(accounts, from, entries[i].payee, amount), entries[i := Paid(entries[i], from, at)]) <==>
              amount == entries[i].amount
  {
    hide SumOf;
    BooksAfter(accounts, entries, i, from, amount, at, from);
    if amount == entries[i].amount {
      forall d | d in accounts
        ensures Moved(accounts, from, entries[i].payee, amount)[d].balance
                  == SumOf(entries[i := Paid(entries[i], from, at)], NetOf(d))
      {
        BooksAfter(accounts, entries, i, from, amount, at, d);
      }
    }
  }

  /** A payment recorded with the amount that moved always keeps the books. */
  lemma RecordingKeepsBooks(accounts: map<string, Account>, entries: seq<Entry>, e: Entry)
    requires Books(accounts, entries) && e.status == Settled && e.payer.Some?
    requires e.payer.value in accounts && e.payee in accounts && e.payer.value != e.payee
    ensures Books(Moved(accounts, e.payer.value, e.payee, e.amount), entries + [e])
  {
    forall d | d in accounts
      ensures Moved(accounts, e.payer.value, e.payee, e.amount)[d].balance == SumOf(entries + [e], NetOf(d))
    {
      SumAppended(entries, e, NetOf(d));
    }
  }

  /** An account that no settled entry names has nothing in the books. */
  lemma {:induction false} Unnamed(accounts: map<string, Account>, entries: seq<Entry>, d: string)
    requires Parties(accounts, entries) && d !in accounts
    ensures SumOf(entries, NetOf(d)) == 0
  {
    if entries != [] {
      var n := |entries| - 1;
      assert forall i :: 0 <= i < n ==> entries[..n][i] == entries[i];
      assert Parties(accounts, entries[..n]);
      Unnamed(accounts, entries[..n], d);
      var e := entries[n];
      assert e.status == Settled ==> e.payer.Some? && e.payer.value in accounts && e.payee in accounts;
      assert Share(e, NetOf(d)) == 0;
    }
  }

  ghost function Nets(accounts: map<string, Account>, entries: seq<Entry>): map<string, int> {
    map d | d in accounts :: SumOf(entries, NetOf(d))
  }

  /** Consistent books conserve credit: together the accounts hold nothing. */
  lemma {:induction false} BooksSumToZero(accounts: map<string, Account>, entries: seq<Entry>)
    requires Parties(accounts, entries)
    ensures Total(accounts.Keys, Nets(accounts, entries)) == 0
  {
    hide Total;
    var now := Nets(accounts, entries);
    if entries == [] {
      TotalConstant(accounts.Keys, now, 0);
    } else {
      var n := |entries| - 1;
      var e := entries[n];
      assert forall i :: 0 <= i < n ==> entries[..n][i] == entries[i];
      BooksSumToZero(accounts, entries[..n]);
      var before := Nets(accounts, entries[..n]);
      if e.status == Settled {
        var from, to := e.payer.value, e.payee;
        TotalRemove(accounts.Keys, before, from);
        TotalRemove(accounts.Keys, now, from);
        TotalRemove(accounts.Keys - {from}, before, to);
        TotalRemove(accounts.Keys - {from}, now, to);
        TotalSame(accounts.Keys - {from} - {to}, before, now);
      } else {
        TotalSame(accounts.Keys, before, now);
      }
    }
  }

  // ----- authority and bands -----

  /** Issued by the pod itself to the subject, for the pod, and current. */
  predicate IsRoot(vc: AuthorityChain.Credential, pod: string, subject: string, now: int) {
    && "AuthorityCredential" in vc.types && vc.issuer == pod && vc.subject == subject
    && vc.authority.Some? && vc.authority.value.parent == None && vc.authority.value.scope == pod
    && vc.validFrom <= now && vc.validUntil.Some? && vc.validUntil.value > now
  }

  ghost predicate Grants(creds: seq<AuthorityChain.Credential>, pod: string, subject: string, now: int, action: string)
  {
    exists vc :: vc in creds && IsRoot(vc, pod, subject, now) && action in vc.authority.value.actions
  }

  lemma GrantsMore(creds: seq<AuthorityChain.Credential>, vc: AuthorityChain.Credential, pod: string, subject: string,
                   now: int)
    ensures forall a :: Grants(creds + [vc], pod, subject, now, a) <==>
                        || Grants(creds, pod, subject, now, a)
                        || (IsRoot(vc, pod, subject, now) && a in vc.authority.value.actions)
  {
    forall a
      ensures Grants(creds + [vc], pod, subject, now, a) <==>
              Grants(creds, pod, subject, now, a) || (IsRoot(vc, pod, subject, now) && a in vc.authority.value.actions)
    {
      if Grants(creds, pod, subject, now, a) {
        var c :| c in creds && IsRoot(c, pod, subject, now) && a in c.authority.value.actions;
        assert c in creds + [vc];
      }
      assert vc in creds + [vc];
    }
  }

  lemma NoneGranted(pod: string, subject: string, now: int)
    ensures forall a :: !Grants([], pod, subject, now, a)
  {
  }

  /** What holding an action shows: a credential that the pod itself issued to the subject, for the pod, in force. */
  lemma GrantShows(creds: seq<AuthorityChain.Credential>, pod: string, subject: string, now: int, action: string)
    requires Grants(creds, pod, subject, now, action)
    ensures exists vc :: vc in creds
              && "AuthorityCredential" in vc.types && vc.issuer == pod && vc.subject == subject
              && vc.authority.Some? && vc.authority.value.parent == None && vc.authority.value.scope == pod
              && action in vc.authority.value.actions
              && vc.validFrom <= now && vc.validUntil.Some? && now < vc.validUntil.value
  {
  }

  /** And any such credential will do. */
  lemma GrantedBy(creds: seq<AuthorityChain.Credential>, vc: AuthorityChain.Credential, subject: string, now: int)
    requires vc in creds && "AuthorityCredential" in vc.types && vc.subject == subject && vc.authority.Some?
    requires vc.authority.value.parent == None && vc.authority.value.scope == vc.issuer
    requires vc.validFrom <= now && vc.validUntil.Some? && now < vc.validUntil.value
    ensures forall action :: action in vc.authority.value.actions ==> Grants(creds, vc.issuer, subject, now, action)
  {
  }

  /** The actions that the subject holds through root credentials of its own. Nothing passed on counts. */
  method RootPodActions(creds: seq<AuthorityChain.Credential>, pod: string, subject: string, now: int)
    returns (out: set<string>)
    ensures forall a :: a in out <==> Grants(creds, pod, subject, now, a)
    ensures forall a :: a in out ==>
              exists vc :: vc in creds
                && "AuthorityCredential" in vc.types && vc.issuer == pod && vc.subject == subject
                && vc.authority.Some? && vc.authority.value.parent == None && vc.authority.value.scope == pod
                && a in vc.authority.value.actions
                && vc.validFrom <= now && vc.validUntil.Some? && now < vc.validUntil.value
  {
    hide Grants;
    out := {};
    NoneGranted(pod, subject, now);
    assert creds[..0] == [];
    for i := 0 to |creds|
      invariant forall a :: a in out <==> Grants(creds[..i], pod, subject, now, a)
    {
      var vc := creds[i];
      assert creds[..i + 1] == creds[..i] + [vc];
      GrantsMore(creds[..i], vc, pod, subject, now);
      if IsRoot(vc, pod, subject, now) { out := out + vc.authority.value.actions; }
    }
    assert creds[..|creds|] == creds;
    forall a | a in out { GrantShows(creds, pod, subject, now, a); }
  }

  function BandAction(b: Band): string {
    match b case L1 => "credit:limit:L1" case L2 => "credit:limit:L2" case L3 => "credit:limit:L3"
  }

  function BandRank(b: Band): nat { match b case L1 => 0 case L2 => 1 case L3 => 2 }

  /** The band is held, or is the first, and no higher one is held. */
  ghost predicate IsBest(best: Band, actions: set<string>) {
    && (best == L1 || BandAction(best) in actions)
    && (forall b :: BandAction(b) in actions ==> BandRank(b) <= BandRank(best))
  }

  /** The third limit before the second, and that before the first, which everybody has. */
  lemma BestBandIs(best: Band, actions: set<string>)
    ensures IsBest(best, actions) <==>
              best == if "credit:limit:L3" in actions then L3 else if "credit:limit:L2" in actions then L2 else L1
  {
    assert BandRank(L1) < BandRank(L2) < BandRank(L3);
    assert BandAction(L2) == "credit:limit:L2" && BandAction(L3) == "credit:limit:L3";
  }

  method HighestBand(actions: set<string>) returns (best: Band)
    ensures IsBest(best, actions)
    ensures best == if "credit:limit:L3" in actions then L3 else if "credit:limit:L2" in actions then L2 else L1
  {
    best := L1;
    if BandAction(L2) in actions { best := L2; }
    if BandAction(L3) in actions { best := L3; }
  }
}
