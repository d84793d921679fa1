/**
 Payments in mutual credit: the merchant rings up a request, the customer authorizes it, the gateway
 settles it once and records the dollar leg once. The tables are the fields of `Gateway`; every handler is
 one atomic step at one reading of the clock, and a refusal leaves everything as it was.
 */
module Payments {
  import opened Wrappers
  import opened Totals
  import opened Tiers
  import opened Ledger
  import AuthorityChain

  datatype Shop = Shop(owner: Option<string>, accepts: bool)

  /** The steward's log of a credit line that was set by hand, one entry for an account. */
  datatype LimitFlag = LimitFlag(limit: int, reason: string, author: string, at: int)

  datatype Rules = Rules(maxShare: real, minSale: nat, ceiling: nat, offlineAllowance: nat)

  datatype Session = Session(subject: string, tier: Option<string>, authorities: set<string>)

  datatype Refusal = NoAccount | OverLimit | AlreadyPaid | BadAmount | SelfPayment | InvoiceExists
    | MissingAuthority | TierTooLow | BadRequest | NoEnterprise | NoRules | NotOwner | NotMerchant | IdInUse
    | NotAccepting | BelowMinSale | OverShare | MerchantCeiling | OfflineDisabled
    | BadRequestSig | OfflineNotOffered | RequestExpired | InvoiceUnknown | InvoiceMismatch | PayeeMismatch
    | PayerMismatch
    | PresentationRefused(code: string) | BadAuthorizationSig | AmountMismatch | OfflineAllowance
    | NotFound | NotSettled | AlreadyRecorded | TenderMismatch

  datatype Transfer = Transfer(from: string, to: string, unit: string, value: int, invoice: string,
                               createdAt: Option<int>)

  datatype Authorization = Authorization(request: Request, transfer: Transfer, payer: string, offline: bool,
                                         credentials: seq<AuthorityChain.Credential>)

  /** What checking the signatures of an authorization came to. */
  datatype Checked = Checked(requestSigner: Option<string>, presentation: Result<string, string>,
                             signer: Option<string>)

  datatype Receipt = Receipt(transactionId: nat, invoice: string, amount: int, payer: string, payee: string,
                             createdAt: int, balance: int)

  const REQUEST_TTL_MS := 600_000
  const OFFLINE_SYNC_WINDOW_MS := DAY_MS
  const SKEW_MS := 300_000

  // ----- entry lookup -----

  /** The number a text of decimal digits writes. */
  function NumberOf(text: string): Option<nat> {
    if text == [] then None
    else
      var n := |text| - 1;
      if !('0' <= text[n] <= '9') then None
      else if n == 0 then Some((text[0] - '0') as nat)
      else match NumberOf(text[..n])
        case None => None
        case Some(high) => Some(high * 10 + (text[n] - '0') as nat)
  }

  /** Digits are read from the left in base ten, and nothing but digits is read. */
  lemma NumberRead(text: string, d: char)
    ensures NumberOf("") == None
    ensures NumberOf(text + [d]).Some? <==> d in "0123456789" && (text == "" || NumberOf(text).Some?)
    ensures forall k :: 0 <= k < 10 && d == "0123456789"[k] && NumberOf(text + [d]).Some? ==>
              NumberOf(text + [d]).value == k + if text == "" then 0 else 10 * NumberOf(text).value
  {
    assert (text + [d])[..|text|] == text;
  }

  /** Rows are numbered from one. A lookup by text answers to the number of a row and to its invoice. */
  ghost predicate Answers(entries: seq<Entry>, i: int, text: string) {
    0 <= i < |entries| && (entries[i].invoice == text || NumberOf(text) == Some(i + 1))
  }

  /** No row but the one with this invoice answers to it. */
  ghost predicate Unambiguous(entries: seq<Entry>, invoice: string) {
    forall i :: Answers(entries, i, invoice) ==> entries[i].invoice == invoice
  }

  /** What a lookup may come to: some row that answers to the text, or nothing when none does. */
  ghost predicate IsLookup(entries: seq<Entry>, text: string, row: Option<nat>) {
    match row
    case Some(i) => Answers(entries, i, text)
    case None => forall i :: !Answers(entries, i, text)
  }

  ghost function SomeAnswer(entries: seq<Entry>, text: string): (row: Option<nat>)
    ensures IsLookup(entries, text, row)
  {
    if i :| Answers(entries, i, text) then Some(i) else None
  }

  /** The invoice of row `i` is written like the number of a different row, whether there is such a row yet or not. */
  predicate NumbersAnother(invoice: string, i: nat) {
    match NumberOf(invoice)
    case None => false
    case Some(n) => n != 0 && n != i + 1
  }

  // ----- limits in time -----

  predicate InTime(a: Authorization, now: int) {
    if a.offline then
      && a.transfer.createdAt.Some? && a.transfer.createdAt.value <= now + SKEW_MS
      && a.transfer.createdAt.value <= a.request.expires + SKEW_MS
      && now <= a.request.expires + OFFLINE_SYNC_WINDOW_MS
    else a.request.expires > now
  }

  function Least(a: int, b: int): int { if a <= b then a else b }

  function ShareCap(total: int, maxShare: real): int { (total as real * maxShare).Floor }

  /** The share of a sale that may be paid in credits, to the cent. */
  lemma ShareToTheCent(total: int, maxShare: real, value: int)
    requires value <= ShareCap(total, maxShare)
    ensures value as real <= total as real * maxShare
    ensures value == ShareCap(total, maxShare) ==> total as real * maxShare < (value + 1) as real
  {
  }

  lemma ShareWithinSale(total: nat, maxShare: real)
    requires 0.0 <= maxShare <= 1.0
    ensures 0 <= ShareCap(total, maxShare) <= total
  {
    assert total as real * maxShare <= total as real * 1.0;
  }

  // ----- what holds of the entries -----

  /** A requested entry is unpaid and is what its signed request says. */
  ghost predicate RequestedSound(e: Entry) {
    && e.payer == None && !e.offline && e.tender == None
    && e.request.Some? && e.request.value.merchant == e.payee && e.request.value.invoice == e.invoice
    && e.request.value.value == e.amount && 0 < e.amount <= e.request.value.totalSale
  }

  ghost predicate EntriesSound(entries: seq<Entry>) {
    && (forall i :: 0 <= i < |entries| && entries[i].status == Requested ==> RequestedSound(entries[i]))
    && (forall i :: 0 <= i < |entries| ==> entries[i].amount > 0)
    && (forall i, j :: 0 <= i < j < |entries| ==> entries[i].invoice != entries[j].invoice)
  }

  /** The entries settled (or tendered), in the order in which that happened: each once. */
  ghost predicate Once(done: seq<nat>, marked: set<nat>) {
    && (forall i, j :: 0 <= i < j < |done| ==> done[i] != done[j])
    && (forall i :: i in done <==> i in marked)
  }

  ghost function SettledIds(entries: seq<Entry>): set<nat> {
    set i: nat | i < |entries| && entries[i].status == Settled
  }

  ghost function TenderedIds(entries: seq<Entry>): set<nat> { set i: nat | i < |entries| && entries[i].tender.Some? }

  ghost predicate MembersWithinLimit(accounts: map<string, Account>) {
    forall d :: d in accounts && accounts[d].kind == Member ==> accounts[d].balance + accounts[d].limit >= 0
  }

  lemma OnceMore(done: seq<nat>, marked: set<nat>, i: nat)
    requires Once(done, marked) && i !in marked
    ensures Once(done + [i], marked + {i})
  {
    assert i !in done;
  }

  // ----- when an invoice can be told from a number -----

  /**
   A request is sure to be found under its invoice exactly when the invoice is not written like the number of
   another row. Otherwise another row answers as well, and the lookup may come to that one.
   */
  lemma FoundIff(entries: seq<Entry>, i: nat, invoice: string)
    requires EntriesSound(entries) && i < |entries| && entries[i].invoice == invoice
    ensures Unambiguous(entries, invoice) <==> !(NumbersAnother(invoice, i) && NumberOf(invoice).value <= |entries|)
    ensures (forall row :: IsLookup(entries, invoice, row) ==> row == Some(i)) <==> Unambiguous(entries, invoice)
  {
    hide NumberOf;
    assert IsLookup(entries, invoice, Some(i));
    if NumbersAnother(invoice, i) && NumberOf(invoice).value <= |entries| {
      var other: nat := NumberOf(invoice).value - 1;
      assert Answers(entries, other, invoice) && IsLookup(entries, invoice, Some(other));
    }
  }

  ghost predicate OtherInvoices(more: seq<Entry>, invoice: string) { forall e :: e in more ==> e.invoice != invoice }

  /** The invoices that stay findable whatever is rung up later. */
  lemma StaysFoundIff(entries: seq<Entry>, i: nat, invoice: string)
    requires EntriesSound(entries) && i < |entries| && entries[i].invoice == invoice
    ensures (forall more :: OtherInvoices(more, invoice) ==> Unambiguous(entries + more, invoice)) <==>
              !NumbersAnother(invoice, i)
  {
    hide NumberOf;
    if NumbersAnother(invoice, i) {
      var n := NumberOf(invoice).value;
      var more := seq(n, (k: nat) => entries[i].(invoice := invoice + "'"));
      assert OtherInvoices(more, invoice);
      assert Answers(entries + more, n - 1, invoice);
      assert (entries + more)[n - 1].invoice != invoice;
    } else {
      forall more | OtherInvoices(more, invoice) ensures Unambiguous(entries + more, invoice) {
        forall j | Answers(entries + more, j, invoice) ensures (entries + more)[j].invoice == invoice {
        }
      }
    }
  }

  // ----- steps of the handlers -----

  /** The entries of a history are for pairwise different invoices. */
  ghost predicate InvoicesApart(entries: seq<Entry>, done: seq<nat>) {
    && (forall j :: 0 <= j < |done| ==> done[j] < |entries|)
    && (forall j, k :: 0 <= j < k < |done| ==> entries[done[j]].invoice != entries[done[k]].invoice)
  }

  ghost function BestBand(creds: seq<AuthorityChain.Credential>, pod: string, subject: string, now: int): Band {
    if Grants(creds, pod, subject, now, BandAction(L3)) then L3
    else if Grants(creds, pod, subject, now, BandAction(L2)) then L2 else L1
  }

  lemma RootsGiveBand(creds: seq<AuthorityChain.Credential>, pod: string, subject: string, now: int,
                      roots: set<string>, best: Band)
    requires forall x :: x in roots <==> Grants(creds, pod, subject, now, x)
    requires IsBest(best, roots)
    ensures best == BestBand(creds, pod, subject, now)
  {
    hide Grants;
    assert BandAction(L3) in roots <==> Grants(creds, pod, subject, now, BandAction(L3));
    assert BandAction(L2) in roots <==> Grants(creds, pod, subject, now, BandAction(L2));
    assert BandAction(L3) in roots ==> BandRank(L3) <= BandRank(best);
    assert BandAction(L2) in roots ==> BandRank(L2) <= BandRank(best);
  }

  lemma OneCleared(entries: seq<Entry>, invoice: string)
    requires EntriesSound(entries)
    ensures
        forall i, j ::
          0 <= i < |entries| && 0 <= j < |entries| && entries[i].invoice == invoice && entries[j].invoice == invoice ==>
            i == j
    ensures forall i :: 0 <= i < |entries| ==> entries[i].amount > 0
  {
  }

  /** Marking a settled entry as offline changes nothing that the books depend on. */
  lemma AuthorizationRecorded(accounts: map<string, Account>, entries: seq<Entry>, i: nat, offline: bool)
    requires i < |entries| && entries[i].status == Settled
    requires EntriesSound(entries) && Parties(accounts, entries) && Books(accounts, entries)
    ensures var after := entries[i := entries[i].(offline := offline)];
            && EntriesSound(after) && Parties(accounts, after) && Books(accounts, after)
            && SettledIds(after) == SettledIds(entries) && TenderedIds(after) == TenderedIds(entries)
  {
    forall d | d in accounts
      ensures accounts[d].balance == SumOf(entries[i := entries[i].(offline := offline)], NetOf(d))
    {
      SumUpdated(entries, i, entries[i].(offline := offline), NetOf(d));
    }
  }

  lemma TenderAdded(accounts: map<string, Account>, entries: seq<Entry>, i: nat, tender: Tender)
    requires i < |entries| && entries[i].status == Settled && entries[i].tender == None
    requires EntriesSound(entries) && Parties(accounts, entries) && Books(accounts, entries)
    ensures var after := entries[i := entries[i].(tender := Some(tender))];
            && EntriesSound(after) && Parties(accounts, after) && Books(accounts, after)
            && SettledIds(after) == SettledIds(entries) && TenderedIds(after) == TenderedIds(entries) + {i}
            && i !in TenderedIds(entries) && i in SettledIds(entries)
  {
    forall d | d in accounts
      ensures accounts[d].balance == SumOf(entries[i := entries[i].(tender := Some(tender))], NetOf(d))
    {
      SumUpdated(entries, i, entries[i].(tender := Some(tender)), NetOf(d));
    }
  }

  lemma OfflineAfter(entries: seq<Entry>, i: nat, from: string, now: int, offline: bool, m: Measure)
    requires i < |entries| && entries[i].status == Requested && m == OfflineOn(entries[i].payee, now / DAY_MS)
    ensures SumOf(entries[i := Paid(entries[i], from, now).(offline := offline)], m)
              == SumOf(entries, m) + if offline then entries[i].amount else 0
  {
    SumUpdated(entries, i, Paid(entries[i], from, now).(offline := offline), m);
  }

  /** Four fifths of three times the owner's band limit, to the nearest cent. */
  function DefaultCeiling(limit: nat): nat { (limit * 24 + 5) / 10 }

  lemma BestIsOne(actions: set<string>, best: Band)
    requires IsBest(best, actions)
    ensures forall b :: IsBest(b, actions) ==> b == best
  {
    forall b | IsBest(b, actions) ensures b == best {
      assert BandRank(b) == BandRank(best) || b == L1 || best == L1;
    }
  }

  function Raised(accounts: map<string, Account>, did: string, band: Band, limit: nat): map<string, Account> {
    if did in accounts && accounts[did].kind == Member && accounts[did].limit < limit
    then accounts[did := accounts[did].(band := band, limit := limit)]
    else accounts
  }

  lemma KeepsZero(accounts: map<string, Account>, from: string, to: string, amount: int)
    requires from in accounts && to in accounts && from != to && ZeroSum(accounts)
    ensures ZeroSum(Moved(accounts, from, to, amount))
  {
    hide Total;
    TransferKeepsSum(accounts, from, to, amount);
    assert Moved(accounts, from, to, amount).Keys == accounts.Keys;
  }

  lemma KeepsLimits(accounts: map<string, Account>, from: string, to: string, amount: nat)
    requires from in accounts && to in accounts && from != to
    requires MembersWithinLimit(accounts) && accounts[from].balance - amount + accounts[from].limit >= 0
    ensures MembersWithinLimit(Moved(accounts, from, to, amount))
  {
  }

  /** Settling a requested entry keeps what holds of the entries, whatever the amount. */
  lemma EntryPaid(accounts: map<string, Account>, entries: seq<Entry>, i: nat, from: string, amount: int, now: int)
    requires i < |entries| && entries[i].status == Requested && EntriesSound(entries) && Parties(accounts, entries)
    requires from in accounts && entries[i].payee in accounts && from != entries[i].payee
    ensures var after := entries[i := Paid(entries[i], from, now)];
            && EntriesSound(after) && Parties(Moved(accounts, from, entries[i].payee, amount), after)
            && SettledIds(after) == SettledIds(entries) + {i} && i !in SettledIds(entries)
            && TenderedIds(after) == TenderedIds(entries)
  {
  }

  lemma EntryRecorded(accounts: map<string, Account>, entries: seq<Entry>, e: Entry)
    requires EntriesSound(entries) && Parties(accounts, entries) && e.status == Settled && e.payer.Some?
    requires e.tender == None && e.amount > 0
    requires e.payer.value in accounts && e.payee in accounts && e.payer.value != e.payee
    requires forall i :: 0 <= i < |entries| ==> entries[i].invoice != e.invoice
    ensures var after := entries + [e];
            && EntriesSound(after) && Parties(Moved(accounts, e.payer.value, e.payee, e.amount), after)
            && SettledIds(after) == SettledIds(entries) + {|entries|} && TenderedIds(after) == TenderedIds(entries)
  {
    var after := entries + [e];
    assert forall i: nat :: i < |after| ==> after[i] == if i < |entries| then entries[i] else e;
  }

  lemma RequestAdded(accounts: map<string, Account>, entries: seq<Entry>, e: Entry)
    requires EntriesSound(entries) && Parties(accounts, entries) && Books(accounts, entries) && RequestedSound(e)
    requires e.status == Requested
    requires forall i :: 0 <= i < |entries| ==> entries[i].invoice != e.invoice
    ensures var after := entries + [e];
            && EntriesSound(after) && Parties(accounts, after) && Books(accounts, after)
            && SettledIds(after) == SettledIds(entries) && TenderedIds(after) == TenderedIds(entries)
  {
    var after := entries + [e];
    assert forall i: nat :: i < |after| ==> after[i] == if i < |entries| then entries[i] else e;
    forall d | d in accounts ensures accounts[d].balance == SumOf(after, NetOf(d)) {
      SumAppended(entries, e, NetOf(d));
    }
  }

  // ----- the gateway -----

  class Gateway {
    const pod: string
    const unit: string
    const limits: map<Band, nat>
    const shares: map<string, real>
    const offlinePerDay: nat

    var accounts: map<string, Account>
    var entries: seq<Entry>
    var shops: map<string, Shop>
    var limitFlags: map<string, LimitFlag>
    var rules: map<string, Rules>

    ghost var settled: seq<nat>
    ghost var tendered: seq<nat>

    ghost predicate Configured()
    {
      && (forall b: Band :: b in limits)
      && (forall c :: c in shares ==> 0.0 <= shares[c] <= 1.0)
    }

    ghost predicate Valid()
      reads this
    {
      && Configured()
      && Parties(accounts, entries) && Books(accounts, entries)
      && EntriesSound(entries)
      && MembersWithinLimit(accounts)
      && (forall d :: d in rules ==> 0.0 <= rules[d].maxShare <= 1.0)
      && Once(settled, SettledIds(entries)) && Once(tendered, TenderedIds(entries))
      && TenderedIds(entries) <= SettledIds(entries)
    }

    constructor (pod: string, unit: string, limits: map<Band, nat>, shares: map<string, real>, offlinePerDay: nat)
      requires (forall b: Band :: b in limits) && (forall c :: c in shares ==> 0.0 <= shares[c] <= 1.0)
      ensures Valid() && accounts == map[] && entries == [] && shops == map[] && limitFlags == map[] && rules == map[]
      ensures this.pod == pod && this.unit == unit && this.limits == limits && this.shares == shares
      ensures this.offlinePerDay == offlinePerDay
    {
      this.pod, this.unit, this.limits, this.shares, this.offlinePerDay := pod, unit, limits, shares, offlinePerDay;
      accounts, entries, shops, limitFlags, rules := map[], [], map[], map[], map[];
      settled, tendered := [], [];
    }

    /** Whatever has happened, balances sum to zero. */
    lemma BalancesSumToZero()
      requires Valid()
      ensures ZeroSum(accounts)
    {
      hide Total, EntriesSound, MembersWithinLimit, Once;
      BooksSumToZero(accounts, entries);
      assert Nets(accounts, entries) == Balances(accounts);
    }

    method OpenAccount(did: string, kind: Kind, band: Band, limit: nat) returns (account: Account, created: bool)
      requires Valid()
      modifies this`accounts
      ensures Valid()
      ensures created <==> did !in old(accounts)
      ensures accounts == if created then old(accounts)[did := Account(kind, band, limit, 0)] else old(accounts)
      ensures did in accounts && account == accounts[did]
    {
      hide EntriesSound, Once, SumOf, Total;
      if did in accounts { return accounts[did], false; }
      Unnamed(accounts, entries, did);
      account, created := Account(kind, band, limit, 0), true;
      accounts := accounts[did := account];
    }

    method OpenMemberAccount(subject: string, roots: set<string>) returns (r: Result<Account, Refusal>)
      requires Valid()
      modifies this`accounts
      ensures Valid()
      ensures r.Success? <==> "credit:account" in roots
      ensures r.Success? && subject in old(accounts) ==> accounts == old(accounts) && r.value == accounts[subject]
      ensures r.Success? && subject !in old(accounts) ==>
                && accounts == old(accounts)[subject := r.value] && r.value.kind == Member && r.value.balance == 0
                && IsBest(r.value.band, roots) && r.value.limit == limits[r.value.band]
                && r.value.band == (if "credit:limit:L3" in roots then L3
                                    else if "credit:limit:L2" in roots then L2 else L1)
      ensures r.Failure? ==> accounts == old(accounts) && r.error == MissingAuthority
    {
      if "credit:account" !in roots { return Failure(MissingAuthority); }
      var band := HighestBand(roots);
      var account, created := OpenAccount(subject, Member, band, limits[band]);
      r := Success(account);
    }

    /** Opens an enterprise with an account that may not go negative: enterprises spend only what they earn. */
    method CreateEnterprise(session: Session, did: string, category: string, ceiling: Option<nat>,
                            offlineAllowance: Option<nat>, roots: set<string>)
      returns (r: Result<Rules, Refusal>)
      requires Valid()
      modifies this`accounts, this`shops, this`rules
      ensures Valid()
      ensures r.Success? <==>
                && TierOk(session.tier, "T1") && category in shares && "credit:account" in roots && did !in old(shops)
                && did !in old(rules)
      ensures r.Success? ==>
                shops == old(shops)[did := Shop(Some(session.subject), true)] && rules == old(rules)[did := r.value]
      ensures r.Success? ==>
                && accounts.Keys == old(accounts).Keys + {did}
                && (forall d :: d in old(accounts) ==> accounts[d] == old(accounts)[d])
      ensures r.Success? && did !in old(accounts) ==>
                forall band :: IsBest(band, roots) ==> accounts[did] == Account(Enterprise, band, 0, 0)
      ensures r.Success? ==> forall band :: IsBest(band, roots) ==>
                r.value == Rules(shares[category], 0, ceiling.UnwrapOr(DefaultCeiling(limits[band])),
                                 offlineAllowance.UnwrapOr(offlinePerDay))
      ensures r.Success? && ceiling.None? ==>
                var band := if "credit:limit:L3" in roots then L3 else if "credit:limit:L2" in roots then L2 else L1;
                -5 <= 10 * r.value.ceiling - 24 * limits[band] <= 5
      ensures r.Failure? ==> accounts == old(accounts) && shops == old(shops) && rules == old(rules)
    {
      hide EntriesSound, Once, SumOf, Total, Books, Parties, MembersWithinLimit;
      if !TierOk(session.tier, "T1") { return Failure(TierTooLow); }
      if category !in shares { return Failure(BadRequest); }
      if "credit:account" !in roots { return Failure(MissingAuthority); }
      if did in shops || did in rules { return Failure(IdInUse); }
      var band := HighestBand(roots);
      BestIsOne(roots, band);
      var row := Rules(shares[category], 0, ceiling.UnwrapOr(DefaultCeiling(limits[band])),
                       offlineAllowance.UnwrapOr(offlinePerDay));
      var _, _ := OpenAccount(did, Enterprise, band, 0);
      shops := shops[did := Shop(Some(session.subject), true)];
      rules := rules[did := row];
      r := Success(row);
    }

    /**
     Sets the credit line of an enterprise account, for a reason (its text without white space at the ends) that
     goes on record with its author. Member accounts are out of its reach.
     */
    method SetEnterpriseLimit(session: Session, did: string, limit: int, reason: string, now: int)
      returns (r: Result<(), Refusal>)
      requires Valid()
      modifies this`accounts, this`limitFlags
      ensures Valid()
      ensures r.Success? <==>
                && did in shops && limit >= 0 && reason != "" && did in old(accounts)
                && old(accounts)[did].kind == Enterprise
      ensures r.Success? ==> accounts == old(accounts)[did := old(accounts)[did].(limit := limit)]
      ensures r.Success? ==> limitFlags == old(limitFlags)[did := LimitFlag(limit, reason, session.subject, now)]
      ensures r.Failure? ==> accounts == old(accounts) && limitFlags == old(limitFlags)
    {
      hide EntriesSound, Once, SumOf, Total;
      if did !in shops { return Failure(NoEnterprise); }
      if limit < 0 || reason == "" { return Failure(BadRequest); }
      if did !in accounts || accounts[did].kind != Enterprise { return Failure(NoAccount); }
      accounts := accounts[did := accounts[did].(limit := limit)];
      limitFlags := limitFlags[did := LimitFlag(limit, reason, session.subject, now)];
      r := Success(());
    }

    method UpdateRules(session: Session, did: string, maxShare: Option<real>, ceiling: Option<int>,
                       offlineAllowance: Option<int>, minSale: Option<int>)
      returns (r: Result<Rules, Refusal>)
      requires Valid()
      modifies this`rules
      ensures Valid()
      ensures r.Success? <==> did in shops && shops[did].owner == Some(session.subject) && did in old(rules)
                              && (maxShare.Some? ==> 0.0 <= maxShare.value <= 1.0)
                              && ceiling.UnwrapOr(0) >= 0 && offlineAllowance.UnwrapOr(0) >= 0
                              && minSale.UnwrapOr(0) >= 0
      ensures r.Success? ==> rules == old(rules)[did := r.value]
      ensures r.Success? ==> var was := old(rules)[did];
                             r.value == Rules(maxShare.UnwrapOr(was.maxShare), minSale.UnwrapOr(was.minSale),
                                              ceiling.UnwrapOr(was.ceiling),
                                              offlineAllowance.UnwrapOr(was.offlineAllowance))
      ensures r.Failure? ==> rules == old(rules)
    {
      hide EntriesSound, Once, SumOf, Total, Books, Parties, MembersWithinLimit;
      if did !in shops { return Failure(NoEnterprise); }
      if shops[did].owner != Some(session.subject) { return Failure(NotOwner); }
      if did !in rules { return Failure(NoRules); }
      var was := rules[did];
      if maxShare.Some? && !(0.0 <= maxShare.value <= 1.0) { return Failure(BadRequest); }
      if ceiling.UnwrapOr(0) < 0 || offlineAllowance.UnwrapOr(0) < 0 || minSale.UnwrapOr(0) < 0 {
        return Failure(BadRequest);
      }
      var now := Rules(maxShare.UnwrapOr(was.maxShare), minSale.UnwrapOr(was.minSale), ceiling.UnwrapOr(was.ceiling),
                       offlineAllowance.UnwrapOr(was.offlineAllowance));
      rules := rules[did := now];
      r := Success(now);
    }

    /** Raises the band of a member's account, never lowers it; other accounts are left alone. */
    method RaiseBand(did: string, actions: set<string>) returns (band: Band)
      requires Valid()
      modifies this`accounts
      ensures Valid()
      ensures IsBest(band, actions)
      ensures band in limits && accounts == Raised(old(accounts), did, band, limits[band])
      ensures forall d :: d in accounts <==> d in old(accounts)
      ensures forall d :: d in accounts ==>
                accounts[d] == if d == did && old(accounts)[d].kind == Member && old(accounts)[d].limit < limits[band]
                               then old(accounts)[d].(band := band, limit := limits[band])
                               else old(accounts)[d]
    {
      hide EntriesSound, Once, SumOf, Total;
      band := HighestBand(actions);
      accounts := Raised(accounts, did, band, limits[band]);
    }

    ghost predicate Transferable(from: string, to: string, amount: int)
      reads this
    {
      && amount > 0 && from != to && from in accounts && to in accounts
      && accounts[from].balance - amount + accounts[from].limit >= 0
    }

    /**
     The double-entry core. It trusts its caller for the amount: with the number of a requested entry, the
     books balance afterwards exactly when the amount is that entry's own. The sum of all balances is kept regardless.
     */
    method Settle(from: string, to: string, amount: int, invoice: string, entryId: Option<nat>, now: int)
      returns (r: Result<nat, Refusal>)
      requires Valid()
      modifies this`accounts, this`entries, this`settled
      ensures r.Success? <==>
                && old(Transferable(from, to, amount))
                && (entryId.Some? ==>
                      && entryId.value < |old(entries)| && old(entries)[entryId.value].status == Requested
                      && old(entries)[entryId.value].payee == to)
                && (entryId.None? ==> forall i :: 0 <= i < |old(entries)| ==> old(entries)[i].invoice != invoice)
      ensures r.Success? ==>
                && accounts == Moved(old(accounts), from, to, amount) && r.value == entryId.UnwrapOr(|old(entries)|)
                && settled == old(settled) + [r.value]
      ensures r.Success? ==> 0 < amount <= old(accounts)[from].balance + old(accounts)[from].limit
      ensures r.Success? && entryId.Some? ==> entries == old(entries)[r.value := Paid(old(entries)[r.value], from, now)]
      ensures r.Success? && entryId.None? ==>
                entries == old(entries) + [Entry(Some(from), to, amount, invoice, None, Settled, now, false, None)]
      ensures r.Failure? ==> accounts == old(accounts) && entries == old(entries) && settled == old(settled)
      ensures r.Failure? && r.error == AlreadyPaid ==>
                && entryId.Some?
                && (entryId.value >= |entries| || entries[entryId.value].status != Requested
                    || entries[entryId.value].payee != to)
      ensures ZeroSum(accounts)
      ensures r.Success? && entryId.Some? ==> (Valid() <==> amount == old(entries)[r.value].amount)
      ensures r.Failure? || entryId.None? ==> Valid()
    {
      hide EntriesSound, Once, SumOf, Total, Books, Parties, MembersWithinLimit, ZeroSum;
      BalancesSumToZero();
      if amount <= 0 { return Failure(BadAmount); }
      if from == to { return Failure(SelfPayment); }
      if from !in accounts { return Failure(NoAccount); }
      if to !in accounts { return Failure(NoAccount); }
      if accounts[from].balance - amount + accounts[from].limit < 0 { return Failure(OverLimit); }
      KeepsZero(accounts, from, to, amount);
      KeepsLimits(accounts, from, to, amount);
      ghost var marks := SettledIds(entries);
      if entryId.Some? {
        var i := entryId.value;
        if i >= |entries| || entries[i].status != Requested || entries[i].payee != to { return Failure(AlreadyPaid); }
        SettlingKeepsBooksIff(accounts, entries, i, from, amount, now);
        EntryPaid(accounts, entries, i, from, amount, now);
        OnceMore(settled, marks, i);
        accounts, entries, settled :=
            Moved(accounts, from, to, amount), entries[i := Paid(entries[i], from, now)], settled + [i];
        r := Success(i);
      } else {
        if exists i :: 0 <= i < |entries| && entries[i].invoice == invoice { return Failure(InvoiceExists); }
        var e := Entry(Some(from), to, amount, invoice, None, Settled, now, false, None);
        RecordingKeepsBooks(accounts, entries, e);
        EntryRecorded(accounts, entries, e);
        OnceMore(settled, marks, |entries|);
        r := Success(|entries|);
        accounts, entries, settled := Moved(accounts, from, to, amount), entries + [e], settled + [|entries|];
      }
    }

    method FindEntry(text: string) returns (r: Option<nat>)
      ensures IsLookup(entries, text, r)
    {
      var number := NumberOf(text);
      for i := 0 to |entries|
        invariant forall j :: 0 <= j < i ==> !Answers(entries, j, text)
      {
        if entries[i].invoice == text || number == Some(i + 1) { return Some(i); }
      }
      r := None;
    }

    // ----- ringing up -----

    ghost predicate MayRingUp(session: Session, shop: string, staff: bool)
      reads this
    {
      && "pay:receive@" + shop in session.authorities
      && shop in shops && (shops[shop].owner == Some(session.subject) || staff) && shops[shop].accepts
    }

    /**
     The credits that a sale may be paid in: within the asked amount, the shop's share and its room below the
     ceiling.
     */
    ghost function Asked(shop: string, totalSale: int, credit: Option<int>): int
      reads this
      requires shop in rules && shop in accounts
    {
      Least(credit.UnwrapOr(ShareCap(totalSale, rules[shop].maxShare)), rules[shop].ceiling - accounts[shop].balance)
    }

    method CreatePayRequest(session: Session, shop: string, staff: bool, totalSale: int, credit: Option<int>,
                            offline: bool, invoice: string, now: int)
      returns (r: Result<Request, Refusal>)
      requires Valid()
      modifies this`entries
      ensures Valid()
      ensures r.Success? <==>
                && MayRingUp(session, shop, staff) && totalSale > 0
                && shop in rules && totalSale >= rules[shop].minSale && shop in accounts
                && (credit.Some? ==> 0 < credit.value <= ShareCap(totalSale, rules[shop].maxShare))
                && Asked(shop, totalSale, credit) > 0
                && (offline ==> rules[shop].offlineAllowance > 0)
                && (forall i :: 0 <= i < |old(entries)| ==> old(entries)[i].invoice != invoice)
      ensures r.Success? ==>
                r.value == Request(pod, shop, invoice, unit, Asked(shop, totalSale, credit), totalSale,
                                   now + REQUEST_TTL_MS, offline)
      ensures r.Success? ==>
                entries == old(entries)
                             + [Entry(None, shop, r.value.value, invoice, Some(r.value), Requested, now, false, None)]
      ensures r.Success? ==>
                0 < r.value.value <= totalSale && accounts[shop].balance + r.value.value <= rules[shop].ceiling
      ensures r.Success? ==>
                && "pay:receive@" + shop in session.authorities
                && shop in shops && shops[shop].accepts && (staff || shops[shop].owner == Some(session.subject))
      ensures r.Success? ==>
                && r.value.value as real <= totalSale as real * rules[shop].maxShare
                && (credit.Some? ==> r.value.value <= credit.value)
                && (|| r.value.value == rules[shop].ceiling - accounts[shop].balance
                    || credit == Some(r.value.value)
                    || (credit.None? && totalSale as real * rules[shop].maxShare < (r.value.value + 1) as real))
                && r.value.expires == now + 600_000
      ensures r.Failure? ==> entries == old(entries)
    {
      hide Once, SumOf, Total, MembersWithinLimit, ShareCap, EntriesSound, Books, Parties;
      if "pay:receive@" + shop !in session.authorities { return Failure(MissingAuthority); }
      var owner := shop in shops && shops[shop].owner == Some(session.subject);
      if !owner && !staff { return Failure(NotMerchant); }
      if shop !in shops { return Failure(NoEnterprise); }
      if !shops[shop].accepts { return Failure(NotAccepting); }
      if totalSale <= 0 { return Failure(BadRequest); }
      if shop !in rules { return Failure(NoRules); }
      if totalSale < rules[shop].minSale { return Failure(BelowMinSale); }
      ShareWithinSale(totalSale, rules[shop].maxShare);
      var cap := ShareCap(totalSale, rules[shop].maxShare);
      if credit.Some? && credit.value <= 0 { return Failure(BadRequest); }
      if credit.Some? && credit.value > cap { return Failure(OverShare); }
      if shop !in accounts { return Failure(NoAccount); }
      var value := Least(credit.UnwrapOr(cap), rules[shop].ceiling - accounts[shop].balance);
      ShareToTheCent(totalSale, rules[shop].maxShare, value);
      if value <= 0 { return Failure(MerchantCeiling); }
      if offline && rules[shop].offlineAllowance == 0 { return Failure(OfflineDisabled); }
      if exists i :: 0 <= i < |entries| && entries[i].invoice == invoice { return Failure(InvoiceExists); }
      var request := Request(pod, shop, invoice, unit, value, totalSale, now + REQUEST_TTL_MS, offline);
      var e := Entry(None, shop, value, invoice, Some(request), Requested, now, false, None);
      RequestAdded(accounts, entries, e);
      entries := entries + [e];
      r := Success(request);
    }

    // ----- paying -----

    /** Who must sign for an account: its holder, or for an enterprise its owner. */
    function Actor(from: string): Option<string>
      reads this
    {
      if from in accounts && accounts[from].kind == Enterprise then (if from in shops then shops[from].owner else None)
      else Some(from)
    }

    /** What an authorization must be before money is looked at. */
    ghost predicate Cleared(i: nat, a: Authorization, c: Checked, session: Session, now: int)
      reads this
    {
      && c.requestSigner == Some(pod) && a.request.pod == pod
      && (a.offline ==> a.request.offline) && InTime(a, now)
      && i < |entries| && entries[i].invoice == a.request.invoice && entries[i].status == Requested
      && entries[i].request == Some(a.request)
      && a.transfer.invoice == a.request.invoice && a.transfer.to == a.request.merchant == entries[i].payee
      && c.presentation == Success(session.subject) && Actor(a.transfer.from) == Some(session.subject)
      && a.payer == a.transfer.from
      && c.signer == Some(session.subject)
      && Grants(a.credentials, pod, session.subject, now, "credit:account")
      && a.transfer.unit == unit && a.transfer.value == entries[i].amount
    }

    method CheckAuthorization(a: Authorization, c: Checked, session: Session, now: int)
      returns (r: Result<nat, Refusal>, roots: set<string>, ghost row: Option<nat>)
      requires Valid()
      ensures IsLookup(entries, a.request.invoice, row)
      ensures r.Success? <==> row.Some? && Cleared(row.value, a, c, session, now)
      ensures r.Success? ==> row == Some(r.value)
      ensures r.Success? ==> forall x :: x in roots <==> Grants(a.credentials, pod, session.subject, now, x)
      ensures r.Failure? && r.error == AlreadyPaid ==>
                exists i ::
                  0 <= i < |entries| && entries[i].invoice == a.request.invoice && entries[i].status == Settled
    {
      hide Once, SumOf, Total, MembersWithinLimit, Books, Parties, Grants, NumberOf;
      roots, row := {}, SomeAnswer(entries, a.request.invoice);
      if c.requestSigner != Some(pod) || a.request.pod != pod { return Failure(BadRequestSig), roots, row; }
      if a.offline && !a.request.offline { return Failure(OfflineNotOffered), roots, row; }
      if !InTime(a, now) { return Failure(RequestExpired), roots, row; }
      var found := FindEntry(a.request.invoice);
      row := found;
      if found.None? || entries[found.value].invoice != a.request.invoice {
        return Failure(InvoiceUnknown), roots, row;
      }
      var i := found.value;
      var e := entries[i];
      if e.status == Settled { return Failure(AlreadyPaid), roots, row; }
      if e.request != Some(a.request) { return Failure(BadRequestSig), roots, row; }
      if a.transfer.invoice != a.request.invoice { return Failure(InvoiceMismatch), roots, row; }
      if a.transfer.to != a.request.merchant || a.transfer.to != e.payee { return Failure(PayeeMismatch), roots, row; }
      if a.transfer.from in accounts && accounts[a.transfer.from].kind == Enterprise && a.transfer.from !in shops {
        return Failure(NoEnterprise), roots, row;
      }
      var actor := Actor(a.transfer.from);
      if actor.None? { return Failure(PayerMismatch), roots, row; }
      if c.presentation.Failure? { return Failure(PresentationRefused(c.presentation.error)), roots, row; }
      if c.presentation.value != actor.value || c.presentation.value != session.subject || a.payer != a.transfer.from {
        return Failure(PayerMismatch), roots, row;
      }
      if c.signer != actor { return Failure(BadAuthorizationSig), roots, row; }
      roots := RootPodActions(a.credentials, pod, actor.value, now);
      if "credit:account" !in roots { return Failure(MissingAuthority), roots, row; }
      if a.transfer.unit != unit || a.transfer.value != e.amount || a.request.value != e.amount {
        return Failure(AmountMismatch), roots, row;
      }
      r := Success(i);
    }

    /** The accounts once the payer's band has been raised to what its own credentials show. */
    ghost function RaisedFor(a: Authorization, session: Session, now: int): map<string, Account>
      reads this
      requires Configured()
    {
      var band := BestBand(a.credentials, pod, session.subject, now);
      Raised(accounts, a.transfer.from, band, limits[band])
    }

    /** What the accounts and the shop's rules must allow. */
    ghost predicate Affordable(i: nat, a: Authorization, accounts: map<string, Account>, now: int)
      reads this
    {
      && i < |entries|
      && var from, to, amount := a.transfer.from, a.transfer.to, entries[i].amount;
      && from in accounts && to in accounts && from != to
      && accounts[from].balance - amount + accounts[from].limit >= 0
      && to in rules && accounts[to].balance + amount <= rules[to].ceiling
      && (a.offline ==> SumOf(entries, OfflineOn(to, now / DAY_MS)) + amount <= rules[to].offlineAllowance)
    }

    lemma ClearedFacts(i: nat, a: Authorization, c: Checked, session: Session, now: int)
      requires Valid() && Cleared(i, a, c, session, now)
      ensures i < |entries| && entries[i].status == Requested && a.transfer.to == entries[i].payee
    {
    }

    /** The checks on locked rows: limit, ceiling and offline allowance. */
    method CheckFunds(i: nat, a: Authorization, now: int) returns (refusal: Option<Refusal>)
      requires i < |entries| && a.transfer.from in accounts
      ensures refusal.None? && a.transfer.from != a.transfer.to <==> Affordable(i, a, accounts, now)
      ensures refusal.Some? ==> refusal.value != AlreadyPaid
    {
      hide SumOf;
      var from, to, amount := a.transfer.from, a.transfer.to, entries[i].amount;
      if to !in accounts { return Some(NoAccount); }
      if accounts[from].balance - amount + accounts[from].limit < 0 { return Some(OverLimit); }
      if to !in rules { return Some(NoRules); }
      if accounts[to].balance + amount > rules[to].ceiling { return Some(MerchantCeiling); }
      if a.offline && SumOf(entries, OfflineOn(to, now / DAY_MS)) + amount > rules[to].offlineAllowance {
        return Some(OfflineAllowance);
      }
      refusal := None;
    }

    method MoveCredits(i: nat, from: string, offline: bool, now: int) returns (r: Result<Receipt, Refusal>)
      requires Valid() && i < |entries| && entries[i].status == Requested
      modifies this`accounts, this`entries, this`settled
      ensures Valid()
      ensures r.Success? <==> old(Transferable(from, entries[i].payee, entries[i].amount))
      ensures r.Success? ==> var e := old(entries)[i];
                && from in accounts && e.payee in accounts && from != e.payee && from in old(accounts)
                && e.payee in old(accounts)
                && accounts == Moved(old(accounts), from, e.payee, e.amount)
                && entries == old(entries)[i := Paid(e, from, now).(offline := offline)]
                && settled == old(settled) + [i]
                && r.value == Receipt(i, e.invoice, e.amount, from, e.payee, now, accounts[from].balance)
                && SumOf(entries, OfflineOn(e.payee, now / DAY_MS))
                     == old(SumOf(entries, OfflineOn(entries[i].payee, now / DAY_MS))) + if offline then e.amount else 0
      ensures r.Failure? ==>
                && accounts == old(accounts) && entries == old(entries) && settled == old(settled)
                && r.error != AlreadyPaid
    {
      hide Once, SumOf, Total, MembersWithinLimit, Books, Parties, EntriesSound, ZeroSum;
      var e := entries[i];
      ghost var books := entries;
      var paid := Settle(from, e.payee, e.amount, e.invoice, Some(i), now);
      if paid.Failure? { return Failure(paid.error); }
      AuthorizationRecorded(accounts, entries, i, offline);
      OfflineAfter(books, i, from, now, offline, OfflineOn(e.payee, now / DAY_MS));
      entries := entries[i := entries[i].(offline := offline)];
      assert entries == books[i := Paid(books[i], from, now).(offline := offline)];
      r := Success(Receipt(i, e.invoice, e.amount, from, e.payee, now, accounts[from].balance));
    }

    /** The transaction that moves the credits of a cleared authorization. */
    method PayCleared(i: nat, a: Authorization, session: Session, now: int, roots: set<string>)
      returns (r: Result<Receipt, Refusal>)
      requires Valid()
      requires i < |entries| && entries[i].status == Requested && a.transfer.to == entries[i].payee
      requires forall x :: x in roots <==> Grants(a.credentials, pod, session.subject, now, x)
      modifies this`accounts, this`entries, this`settled
      ensures Valid()
      ensures r.Success? <==> old(Affordable(i, a, RaisedFor(a, session, now), now))
      ensures r.Success? ==> var e := old(entries)[i];
                && a.transfer.from in accounts && a.transfer.from != a.transfer.to
                && old(accounts).Keys == accounts.Keys == old(RaisedFor(a, session, now)).Keys
                && a.transfer.to in accounts
                && accounts == Moved(old(RaisedFor(a, session, now)), a.transfer.from, a.transfer.to, e.amount)
                && entries == old(entries)[i := Paid(e, a.transfer.from, now).(offline := a.offline)]
                && settled == old(settled) + [i]
                && r.value == Receipt(i, e.invoice, e.amount, a.transfer.from, a.transfer.to, now,
                                      accounts[a.transfer.from].balance)
      ensures r.Success? ==>
                && accounts[a.transfer.from].balance + accounts[a.transfer.from].limit >= 0
                && a.transfer.to in rules && accounts[a.transfer.to].balance <= rules[a.transfer.to].ceiling
                && (a.offline ==>
                      SumOf(entries, OfflineOn(a.transfer.to, now / DAY_MS)) <= rules[a.transfer.to].offlineAllowance)
      ensures r.Failure? ==>
                && accounts == old(accounts) && entries == old(entries) && settled == old(settled)
                && r.error != AlreadyPaid
    {
      hide Once, SumOf, Total, MembersWithinLimit, Books, Parties, EntriesSound, Grants, ZeroSum;
      var from, to, amount := a.transfer.from, a.transfer.to, entries[i].amount;
      if from !in accounts { return Failure(NoAccount); }
      var before := accounts;
      if accounts[from].kind == Member {
        var band := RaiseBand(from, roots);
        RootsGiveBand(a.credentials, pod, session.subject, now, roots, band);
      }
      assert accounts == old(RaisedFor(a, session, now));
      var refusal := CheckFunds(i, a, now);
      if refusal.Some? { accounts := before; return Failure(refusal.value); }
      OneCleared(entries, a.request.invoice);
      r := MoveCredits(i, from, a.offline, now);
      if r.Failure? { accounts := before; }
    }

    /** What an authorization that clears has shown, field by field. */
    lemma ClearedShows(i: nat, a: Authorization, c: Checked, session: Session, now: int)
      requires Cleared(i, a, c, session, now)
      ensures exists vc :: vc in a.credentials
                && "AuthorityCredential" in vc.types && vc.issuer == pod && vc.subject == session.subject
                && vc.authority.Some? && vc.authority.value.parent == None && vc.authority.value.scope == pod
                && "credit:account" in vc.authority.value.actions
                && vc.validFrom <= now && vc.validUntil.Some? && now < vc.validUntil.value
      ensures c.requestSigner == Some(pod) && c.signer == Some(session.subject)
      ensures c.presentation == Success(session.subject)
      ensures i < |entries| && entries[i].status == Requested && entries[i].request == Some(a.request)
      ensures a.request.invoice == a.transfer.invoice == entries[i].invoice
      ensures a.request.merchant == a.transfer.to == entries[i].payee
      ensures a.transfer.value == entries[i].amount && a.transfer.unit == unit && a.payer == a.transfer.from
      ensures a.payer in accounts && accounts[a.payer].kind == Enterprise ==>
                a.payer in shops && shops[a.payer].owner == Some(session.subject)
      ensures a.payer !in accounts || accounts[a.payer].kind == Member ==> a.payer == session.subject
      ensures !a.offline ==> now < a.request.expires
      ensures a.offline ==>
                && a.request.offline && a.transfer.createdAt.Some?
                && a.transfer.createdAt.value <= now + 300_000
                && a.transfer.createdAt.value <= a.request.expires + 300_000
                && now <= a.request.expires + 86_400_000
    {
      GrantShows(a.credentials, pod, session.subject, now, "credit:account");
    }

    /** And what is enough for one to clear. */
    lemma ClearsWhen(i: nat, a: Authorization, c: Checked, session: Session, now: int, vc: AuthorityChain.Credential)
      requires vc in a.credentials && "AuthorityCredential" in vc.types && vc.issuer == pod
      requires vc.subject == session.subject && vc.authority.Some? && vc.authority.value.parent == None
      requires vc.authority.value.scope == pod && "credit:account" in vc.authority.value.actions
      requires vc.validFrom <= now && vc.validUntil.Some? && now < vc.validUntil.value
      requires c == Checked(Some(pod), Success(session.subject), Some(session.subject))
      requires i < |entries| && entries[i].status == Requested && entries[i].request == Some(a.request)
      requires a.request.pod == pod && a.request.invoice == a.transfer.invoice == entries[i].invoice
      requires a.request.merchant == a.transfer.to == entries[i].payee
      requires a.transfer.value == entries[i].amount && a.transfer.unit == unit && a.payer == a.transfer.from
      requires if a.payer in accounts && accounts[a.payer].kind == Enterprise
               then a.payer in shops && shops[a.payer].owner == Some(session.subject)
               else a.payer == session.subject
      requires if !a.offline then now < a.request.expires
               else && a.request.offline && a.transfer.createdAt.Some?
                    && a.transfer.createdAt.value <= now + 300_000
                    && a.transfer.createdAt.value <= a.request.expires + 300_000
                    && now <= a.request.expires + 86_400_000
      ensures Cleared(i, a, c, session, now)
    {
      GrantedBy(a.credentials, vc, session.subject, now);
    }

    /** The pod itself has issued the payer a credential of its own for the action, and it is in force. */
    ghost predicate LimitCredential(a: Authorization, session: Session, now: int, action: string) {
      exists vc :: vc in a.credentials
        && "AuthorityCredential" in vc.types && vc.issuer == pod && vc.subject == session.subject
        && vc.authority.Some? && vc.authority.value.parent == None && vc.authority.value.scope == pod
        && action in vc.authority.value.actions
        && vc.validFrom <= now && vc.validUntil.Some? && now < vc.validUntil.value
    }

    lemma LimitIsGranted(a: Authorization, session: Session, now: int, action: string)
      ensures LimitCredential(a, session, now, action) <==> Grants(a.credentials, pod, session.subject, now, action)
    {
      if Grants(a.credentials, pod, session.subject, now, action) {
        GrantShows(a.credentials, pod, session.subject, now, action);
      }
      forall vc |
        && vc in a.credentials
        && "AuthorityCredential" in vc.types && vc.issuer == pod && vc.subject == session.subject
        && vc.authority.Some? && vc.authority.value.parent == None && vc.authority.value.scope == pod
        && action in vc.authority.value.actions
        && vc.validFrom <= now && vc.validUntil.Some? && now < vc.validUntil.value
        ensures Grants(a.credentials, pod, session.subject, now, action)
      {
        GrantedBy(a.credentials, vc, session.subject, now);
      }
    }

    /**
     The limit that a payer's own root credentials give: nothing passed on or issued by others raises it. Nobody
     else's account is touched.
     */
    lemma LimitShown(a: Authorization, session: Session, now: int, did: string)
      requires Valid() && did in accounts
      ensures var after := RaisedFor(a, session, now);
              && did in after && after[did].balance == accounts[did].balance && after[did].kind == accounts[did].kind
              && (did != a.transfer.from ==> after[did] == accounts[did])
              && after[did].limit >= accounts[did].limit
      ensures var limit := RaisedFor(a, session, now)[did].limit;
              limit != accounts[did].limit ==>
                && accounts[did].kind == Member
                && (|| limit == limits[L1]
                    || exists vc :: vc in a.credentials
                         && "AuthorityCredential" in vc.types && vc.issuer == pod && vc.subject == session.subject
                         && vc.authority.Some? && vc.authority.value.parent == None && vc.authority.value.scope == pod
                         && vc.validFrom <= now && vc.validUntil.Some? && now < vc.validUntil.value
                         && (|| ("credit:limit:L2" in vc.authority.value.actions && limit == limits[L2])
                             || ("credit:limit:L3" in vc.authority.value.actions && limit == limits[L3])))
      ensures did == a.transfer.from && accounts[did].kind == Member ==>
                var after := RaisedFor(a, session, now);
                && (LimitCredential(a, session, now, "credit:limit:L3") ==> after[did].limit >= limits[L3])
                && (LimitCredential(a, session, now, "credit:limit:L2") && limits[L2] <= limits[L3] ==>
                      after[did].limit >= limits[L2])
    {
      hide Grants, EntriesSound, Once, SumOf, Books, Parties, MembersWithinLimit;
      forall action ensures LimitCredential(a, session, now, action) <==>
                              Grants(a.credentials, pod, session.subject, now, action)
      {
        LimitIsGranted(a, session, now, action);
      }
    }

    /**
     Pays a request. It succeeds exactly when the row that the lookup came to is cleared and affordable.
     Afterwards the payer is within its limit, the payee within its ceiling and within its offline allowance of
     the day, and the books balance.
     */
    method AuthorizePayment(a: Authorization, c: Checked, session: Session, now: int)
      returns (r: Result<Receipt, Refusal>, ghost row: Option<nat>)
      requires Valid()
      modifies this`accounts, this`entries, this`settled
      ensures Valid()
      ensures IsLookup(old(entries), a.request.invoice, row)
      ensures r.Success? <==>
                && row.Some? && old(Cleared(row.value, a, c, session, now))
                && old(Affordable(row.value, a, RaisedFor(a, session, now), now))
      ensures r.Success? ==> var i := row.value; var e := old(entries)[i];
                && accounts == Moved(old(RaisedFor(a, session, now)), a.transfer.from, a.transfer.to, e.amount)
                && entries == old(entries)[i := Paid(e, a.transfer.from, now).(offline := a.offline)]
                && settled == old(settled) + [i]
                && r.value == Receipt(i, e.invoice, e.amount, a.transfer.from, a.transfer.to, now,
                                      accounts[a.transfer.from].balance)
      ensures r.Success? ==>
                && accounts[a.transfer.from].balance + accounts[a.transfer.from].limit >= 0
                && accounts[a.transfer.to].balance <= rules[a.transfer.to].ceiling
                && (a.offline ==>
                      SumOf(entries, OfflineOn(a.transfer.to, now / DAY_MS)) <= rules[a.transfer.to].offlineAllowance)
      ensures r.Success? ==>
                exists vc :: vc in a.credentials
                  && "AuthorityCredential" in vc.types && vc.issuer == pod && vc.subject == session.subject
                  && vc.authority.Some? && vc.authority.value.parent == None && vc.authority.value.scope == pod
                  && "credit:account" in vc.authority.value.actions
                  && vc.validFrom <= now && vc.validUntil.Some? && now < vc.validUntil.value
      ensures r.Success? ==> var from := a.transfer.from;
                && from in old(accounts)
                && if old(accounts)[from].kind == Enterprise
                   then from in shops && shops[from].owner == Some(session.subject)
                   else from == session.subject
      ensures r.Success? ==> var from, e := a.transfer.from, old(entries)[row.value];
                && c.requestSigner == Some(pod) && c.presentation == Success(session.subject)
                && c.signer == Some(session.subject) && a.payer == from
                && e.request == Some(a.request) && e.invoice == a.request.invoice && e.payee == a.request.merchant
                && a.transfer == Transfer(from, e.payee, unit, e.amount, e.invoice, a.transfer.createdAt)
      ensures r.Success? && !a.offline ==> now < a.request.expires
      ensures r.Success? && a.offline ==>
                && a.request.offline && a.transfer.createdAt.Some? && now <= a.request.expires + 86_400_000
                && a.transfer.createdAt.value <= now + 300_000
                && a.transfer.createdAt.value <= a.request.expires + 300_000
      ensures r.Success? ==> var from, to, amount := a.transfer.from, a.transfer.to, old(entries)[row.value].amount;
                forall did :: did in old(accounts) ==>
                  && did in accounts
                  && accounts[did].balance - old(accounts)[did].balance ==
                       (if did == to then amount else if did == from then -amount else 0)
                  && (did != from ==> accounts[did].limit == old(accounts)[did].limit)
      ensures r.Success? && accounts[a.transfer.from].limit != old(accounts)[a.transfer.from].limit ==>
                var limit := accounts[a.transfer.from].limit;
                && limit > old(accounts)[a.transfer.from].limit && old(accounts)[a.transfer.from].kind == Member
                && (|| limit == limits[L1]
                    || exists vc :: vc in a.credentials
                         && "AuthorityCredential" in vc.types && vc.issuer == pod && vc.subject == session.subject
                         && vc.authority.Some? && vc.authority.value.parent == None && vc.authority.value.scope == pod
                         && vc.validFrom <= now && vc.validUntil.Some? && now < vc.validUntil.value
                         && (|| ("credit:limit:L2" in vc.authority.value.actions && limit == limits[L2])
                             || ("credit:limit:L3" in vc.authority.value.actions && limit == limits[L3])))
      ensures r.Failure? ==> accounts == old(accounts) && entries == old(entries) && settled == old(settled)
      ensures r.Failure? && r.error == AlreadyPaid ==>
                exists i ::
                  0 <= i < |entries| && entries[i].invoice == a.request.invoice && entries[i].status == Settled
    {
      hide SumOf, Cleared, Affordable, RaisedFor, IsLookup, Valid;
      var checked, roots, found := CheckAuthorization(a, c, session, now);
      row := found;
      if checked.Failure? { return Failure(checked.error), row; }
      ClearedFacts(checked.value, a, c, session, now);
      ClearedShows(checked.value, a, c, session, now);
      forall did | did in accounts { LimitShown(a, session, now, did); }
      r := PayCleared(checked.value, a, session, now, roots);
    }

    /** Records the dollars of a settled sale, once, and only if they make up the rest of it to the cent. */
    method RecordTender(i: nat, tender: Tender) returns (r: Result<(), Refusal>)
      requires Valid() && i < |entries|
      modifies this`entries, this`tendered
      ensures Valid()
      ensures r.Success? <==>
                && old(entries)[i].status == Settled && old(entries)[i].tender == None
                && var e := old(entries)[i];
                e.request.Some? ==> -1 <= tender.dollars + e.amount - e.request.value.totalSale <= 1
      ensures r.Success? ==>
                && entries == old(entries)[i := old(entries)[i].(tender := Some(tender))]
                && tendered == old(tendered) + [i]
      ensures r.Failure? ==> entries == old(entries) && tendered == old(tendered)
      ensures r.Failure? ==>
                r.error == if entries[i].status != Settled then NotSettled
                           else if entries[i].tender.Some? then AlreadyRecorded else TenderMismatch
    {
      hide Once, SumOf, Total, MembersWithinLimit, Books, Parties, EntriesSound;
      var e := entries[i];
      if e.status != Settled { return Failure(NotSettled); }
      if e.tender.Some? { return Failure(AlreadyRecorded); }
      if e.request.Some? {
        var due := e.request.value.totalSale - e.amount;
        if tender.dollars - due > 1 || due - tender.dollars > 1 { return Failure(TenderMismatch); }
      }
      TenderAdded(accounts, entries, i, tender);
      OnceMore(tendered, TenderedIds(entries), i);
      entries := entries[i := e.(tender := Some(tender))];
      tendered := tendered + [i];
      r := Success(());
    }

    /** Who may act for a shop: its owner, or staff whose registered credential came with the request. */
    predicate ActsFor(session: Session, payee: string, staff: set<string>)
      reads this
    {
      payee != "" && ((payee in shops && shops[payee].owner == Some(session.subject)) || payee in staff)
    }

    /**
     Takes the dollars for the sale that a text names, by number or by invoice. The row that the lookup came to
     decides who may record them and what they must make up.
     */
    method TakeTender(session: Session, staff: set<string>, text: string, tender: Tender)
      returns (r: Result<nat, Refusal>, ghost row: Option<nat>)
      requires Valid()
      modifies this`entries, this`tendered
      ensures Valid()
      ensures IsLookup(old(entries), text, row)
      ensures r.Success? <==>
                && row.Some? && var e := old(entries)[row.value];
                && e.payee != ""
                && (e.payee in staff || (e.payee in shops && shops[e.payee].owner == Some(session.subject)))
                && e.status == Settled && e.tender == None
                && (e.request.Some? ==> -1 <= tender.dollars + e.amount - e.request.value.totalSale <= 1)
      ensures r.Success? ==>
                && r.value == row.value
                && entries == old(entries)[r.value := old(entries)[r.value].(tender := Some(tender))]
                && tendered == old(tendered) + [r.value]
      ensures r.Failure? ==>
                entries == old(entries) && tendered == old(tendered) && (r.error == NotFound <==> row.None?)
    {
      hide Once, SumOf, Total, MembersWithinLimit, Books, Parties, EntriesSound, NumberOf;
      var found := FindEntry(text);
      row := found;
      if found.None? { return Failure(NotFound), row; }
      if !ActsFor(session, entries[found.value].payee, staff) { return Failure(NotMerchant), row; }
      var recorded := RecordTender(found.value, tender);
      if recorded.Failure? { return Failure(recorded.error), row; }
      r := Success(found.value);
    }

    /** Over any run: no invoice is settled twice and no settled sale is tendered twice. */
    lemma PaidOnce()
      requires Valid()
      ensures InvoicesApart(entries, settled)
      ensures forall i: nat :: i < |entries| ==> (entries[i].status == Settled <==> i in settled)
      ensures forall j, k :: 0 <= j < k < |tendered| ==> tendered[j] != tendered[k]
      ensures forall i :: i in tendered ==> i in settled
    {
      hide SumOf, Books, Parties, MembersWithinLimit;
      assert forall i: nat :: i in SettledIds(entries) <==> i < |entries| && entries[i].status == Settled;
      forall i | i in tendered ensures i in settled {
        assert i in TenderedIds(entries);
        assert i in SettledIds(entries);
      }
      forall j | 0 <= j < |settled| ensures settled[j] < |entries| {
        assert settled[j] in settled;
        assert settled[j] in SettledIds(entries);
      }
      forall j, k | 0 <= j < k < |settled| ensures entries[settled[j]].invoice != entries[settled[k]].invoice {
        OneCleared(entries, entries[settled[j]].invoice);
      }
      forall i: nat | i < |entries| ensures entries[i].status == Settled <==> i in settled {
        assert i in SettledIds(entries) <==> entries[i].status == Settled;
      }
    }
  }

  /** Settling for another amount than the entry's breaks the books, as two accounts and one request show. */
  lemma OtherAmountBreaksBooks() returns (accounts: map<string, Account>, entries: seq<Entry>)
    ensures "payer" in accounts && "shop" in accounts && |entries| == 1 && entries[0].status == Requested
    ensures entries[0].payee == "shop"
    ensures Books(accounts, entries) && entries[0].amount == 500
    ensures !Books(Moved(accounts, "payer", "shop", 400), entries[0 := Paid(entries[0], "payer", 0)])
  {
    accounts := map["payer" := Account(Member, L1, 1000, 0), "shop" := Account(Enterprise, L1, 0, 0)];
    entries := [Entry(None, "shop", 500, "inv", None, Requested, 0, false, None)];
    forall d | d in accounts ensures accounts[d].balance == SumOf(entries, NetOf(d)) {
      SumAppended([], entries[0], NetOf(d));
      assert [] + [entries[0]] == entries;
    }
    SettlingKeepsBooksIff(accounts, entries, 0, "payer", 400, 0);
  }

  const SAME_LIMITS: map<Band, nat> := map[L1 := 500, L2 := 500, L3 := 500]

  lemma EveryBand(b: Band)
    ensures b in SAME_LIMITS && SAME_LIMITS[b] == 500
  {
    match b case L1 => case L2 => case L3 =>
  }

  /** A gateway with one shop, which takes up to all of a sale in credits. */
  method OneShop(owner: Session) returns (g: Gateway)
    requires owner.tier == Some("T1")
    ensures fresh(g) && g.Valid() && g.pod == "pod" && g.unit == "credit" && g.limits == SAME_LIMITS
    ensures g.accounts == map["shop" := Account(Enterprise, L1, 0, 0)] && g.entries == []
    ensures g.shops == map["shop" := Shop(Some(owner.subject), true)]
    ensures g.rules == map["shop" := Rules(1.0, 0, 1000, 0)]
  {
    hide Gateway.Valid;
    forall b: Band ensures b in SAME_LIMITS { EveryBand(b); }
    g := new Gateway("pod", "credit", SAME_LIMITS, map["all" := 1.0], 0);
    assert IsBest(L1, {"credit:account"});
    var row := g.CreateEnterprise(owner, "shop", "all", Some(1000), None, {"credit:account"});
  }

  /** And one member. */
  method OneShopOneMember(owner: Session) returns (g: Gateway)
    requires owner.tier == Some("T1")
    ensures fresh(g) && g.Valid() && g.pod == "pod" && g.unit == "credit" && g.limits == SAME_LIMITS
    ensures "payer" in g.accounts && g.accounts["payer"] == Account(Member, L1, 500, 0)
    ensures "shop" in g.accounts && g.accounts["shop"].balance == 0 && g.entries == []
    ensures "shop" in g.shops && g.shops["shop"] == Shop(Some(owner.subject), true)
    ensures "shop" in g.rules && g.rules["shop"] == Rules(1.0, 0, 1000, 0)
  {
    hide Gateway.Valid;
    g := OneShop(owner);
    var roots := {"credit:account"};
    assert IsBest(L1, roots);
    BestIsOne(roots, L1);
    EveryBand(L1);
    var account := g.OpenMemberAccount("payer", roots);
  }

  /** The shop rings up under "first" and then under "1". */
  method RingUpTwice() returns (g: Gateway, request: Request)
    ensures fresh(g) && g.Valid() && g.pod == "pod" && g.unit == "credit" && g.limits == SAME_LIMITS
    ensures "payer" in g.accounts && g.accounts["payer"] == Account(Member, L1, 500, 0)
    ensures "shop" in g.accounts && g.accounts["shop"].balance == 0 && "shop" in g.rules
    ensures g.rules["shop"].ceiling == 1000
    ensures request == Request("pod", "shop", "1", "credit", 100, 100, REQUEST_TTL_MS, false)
    ensures |g.entries| == 2 && g.entries[0].invoice == "first"
    ensures g.entries[1] == Entry(None, "shop", 100, "1", Some(request), Requested, 0, false, None)
  {
    hide Gateway.Valid;
    var owner := Session("owner", Some("T1"), {"pay:receive@" + "shop"});
    g := OneShopOneMember(owner);
    assert ShareCap(100, 1.0) == 100;
    var first := g.CreatePayRequest(owner, "shop", false, 100, Some(100), false, "first", 0);
    assert first.Success? && g.entries[0].invoice == "first";
    var second := g.CreatePayRequest(owner, "shop", false, 100, Some(100), false, "1", 0);
    request := second.value;
  }

  /**
   An invoice made of digits can be hidden by the row of that number: the second request is cleared and affordable,
   yet a lookup may come to the first row, and then the payment is refused.
   */
  method HiddenInvoice() returns (g: Gateway, a: Authorization, c: Checked, session: Session)
    ensures fresh(g) && g.Valid() && g.Cleared(1, a, c, session, 0) && g.Affordable(1, a, g.RaisedFor(a, session, 0), 0)
    ensures !Unambiguous(g.entries, a.request.invoice) && NumbersAnother(a.request.invoice, 1)
    ensures IsLookup(g.entries, a.request.invoice, Some(0)) && IsLookup(g.entries, a.request.invoice, Some(1))
    ensures !g.Cleared(0, a, c, session, 0)
  {
    hide Gateway.Valid, SumOf;
    var request;
    g, request := RingUpTwice();
    session := Session("payer", None, {});
    var authority := AuthorityChain.Authority("pod", {"credit:account"}, None, None, None);
    var held := AuthorityChain.Credential({"AuthorityCredential"}, "pod", "payer", 0, Some(1), Some(authority), None,
                                          None, None, None);
    a := Authorization(request, Transfer("payer", "shop", "credit", 100, "1", None), "payer", false, [held]);
    c := Checked(Some("pod"), Success("payer"), Some("payer"));
  }
}
