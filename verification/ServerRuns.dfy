/** What holds after every run of the server, whatever requests it gets:
    re-registrations, forged batches and redemptions included. */
module ServerRuns {
  import opened Basics
  import opened Proto
  import opened Server

  function Run(c: Crypto, steps: seq<Step>): State {
    if steps == [] then EMPTY else Next(c, Run(c, Init(steps)), Last(steps))
  }

  /** An accepted event, with the device id and the key it was accepted under. */
  datatype Record = Record(dev: string, key: string, e: Event)

  /** What one step adds to the accepted history. */
  function NewRecords(c: Crypto, st: State, step: Step): (rs: seq<Record>)
    ensures |rs| <= 1
  {
    if step.Ingest? && Verdict(c, st, step.dev, step.se).Ok?
    then [Record(step.dev, Verdict(c, st, step.dev, step.se).value.pubkey, step.se.e)]
    else []
  }

  /** Every event ever accepted, in order, across all devices. */
  function History(c: Crypto, steps: seq<Step>): seq<Record> {
    if steps == [] then [] else History(c, Init(steps)) + NewRecords(c, Run(c, Init(steps)), Last(steps))
  }

  // ===================================================== at most once crediting

  ghost predicate OnceEach(st: State, h: seq<Record>) {
    && (forall i, j :: 0 <= i < j < |h| ==> h[i].e.id != h[j].e.id)
    && (forall i :: 0 <= i < |h| ==> h[i].e.id in st.seen)
    && st.accepted == |h| == |st.seen|
  }

  lemma {:induction false} OnceEachStep(c: Crypto, st: State, h: seq<Record>, step: Step)
    requires OnceEach(st, h)
    ensures OnceEach(Next(c, st, step), h + NewRecords(c, st, step))
  {
    var rs := NewRecords(c, st, step);
    if rs != [] {
      OnceEachAccept(st, h, Next(c, st, step), rs[0]);
      assert h + rs == h + [rs[0]];
    } else {
      assert h + rs == h;
    }
  }

  lemma {:induction false} OnceEachAccept(st: State, h: seq<Record>, st': State, r: Record)
    requires OnceEach(st, h) && r.e.id !in st.seen
    requires st'.seen == st.seen + {r.e.id} && st'.accepted == st.accepted + 1
    ensures OnceEach(st', h + [r])
  {
  }

  /** At most once: no event id is accepted twice in any run, not even across
      devices or after a re-registration resets a chain head, and `accepted`
      is the size of the seen set. */
  lemma {:induction false} AcceptedAtMostOnce(c: Crypto, steps: seq<Step>)
    ensures OnceEach(Run(c, steps), History(c, steps))
  {
    if steps == [] {
    } else {
      AcceptedAtMostOnce(c, Init(steps));
      OnceEachStep(c, Run(c, Init(steps)), History(c, Init(steps)), Last(steps));
    }
  }

  /** Every seen id belongs to an accepted event. */
  lemma {:induction false} SeenFromHistory(c: Crypto, steps: seq<Step>, id: string) returns (r: Record)
    requires id in Run(c, steps).seen
    ensures r in History(c, steps) && r.e.id == id
  {
    var st, step := Run(c, Init(steps)), Last(steps);
    if id in st.seen {
      r := SeenFromHistory(c, Init(steps), id);
    } else {
      r := NewRecords(c, st, step)[0];
    }
  }

  // ============================================================= conservation

  function SumRedeemed(rs: seq<Redemption>): int {
    if rs == [] then 0 else SumRedeemed(Init(rs)) + Last(rs).amountMicros
  }

  /** Earned money is either still on a balance or was paid out. */
  ghost predicate Conserved(st: State) {
    Total(st.balances) + SumRedeemed(st.redemptions) == 5000 * Total(st.impressions)
  }

  lemma {:induction false} ConservedStep(c: Crypto, st: State, step: Step)
    requires Conserved(st)
    ensures Conserved(Next(c, st, step))
  {
    match step {
      case Register(dev, hex) => ConservedRegister(c, st, dev, hex);
      case Ingest(dev, se) => ConservedIngest(c, st, dev, se);
      case Redeem(acct, rail, amount) => ConservedRedeem(st, acct, rail, amount);
    }
  }

  lemma {:induction false} ConservedRegister(c: Crypto, st: State, dev: string, hex: string)
    requires Conserved(st)
    ensures Conserved(Registered(c, st, dev, hex))
  {
    var acct := AccountOf(dev);
    TotalUpdate(st.balances, acct, At(st.balances, acct));
    TotalUpdate(st.impressions, acct, At(st.impressions, acct));
  }

  lemma {:induction false} ConservedIngest(c: Crypto, st: State, dev: string, se: SignedEvent)
    requires Conserved(st)
    ensures Conserved(Ingested(c, st, dev, se))
  {
    if Verdict(c, st, dev, se).Ok? {
      ConservedAccept(c, st, dev, st.devices[dev], se.e);
    }
  }

  lemma {:induction false} ConservedAccept(c: Crypto, st: State, dev: string, rec: DeviceRec, e: Event)
    requires Conserved(st)
    ensures Conserved(Accept(c, st, dev, rec, e))
  {
    var acct, n := rec.accountId, Credit(e);
    TotalUpdate(st.balances, acct, At(st.balances, acct) + DevEarn(n));
    TotalUpdate(st.impressions, acct, At(st.impressions, acct) + n);
  }

  lemma {:induction false} ConservedRedeem(st: State, acct: Option<string>, rail: string, amount: Option<int>)
    requires Conserved(st)
    ensures Conserved(Redeemed(st, acct, rail, amount))
  {
    var p := PayoutFor(st, acct, amount);
    if p.Some? {
      TotalUpdate(st.balances, p.value.acct, st.balances[p.value.acct] - p.value.amount);
      assert Init(Redeemed(st, acct, rail, amount).redemptions) == st.redemptions;
    }
  }

  /** Conservation over an unbounded number of accounts: balances plus
      redemptions are 5000 micros for each impression on record. */
  lemma {:induction false} Conservation(c: Crypto, steps: seq<Step>)
    ensures Conserved(Run(c, steps))
  {
    if steps == [] {
    } else {
      Conservation(c, Init(steps));
      ConservedStep(c, Run(c, Init(steps)), Last(steps));
    }
  }

  // ================================================ balances agree with the ledger

  /** What one ledger entry does to the earned balance of an account. */
  function BalanceEffect(entry: LedgerEntry, acct: string): int {
    (if entry.kind == "imp_earn" && entry.credit == acct then entry.amountMicros else 0)
    - (if entry.kind == "redeem" && entry.debit == acct then entry.amountMicros else 0)
  }

  /** Earnings credited minus redemptions debited, from the ledger alone. */
  function LedgerBalance(ledger: seq<LedgerEntry>, acct: string): int {
    if ledger == [] then 0 else LedgerBalance(Init(ledger), acct) + BalanceEffect(Last(ledger), acct)
  }

  /** What one entry contributes to the spend of one event. */
  function SpendEffect(entry: LedgerEntry, id: string): int {
    if entry.reference == id && (entry.kind == "imp_earn" || entry.kind == "ad_spend_house") then entry.amountMicros else 0
  }

  /** What the advertiser was charged for one event, from the ledger alone. */
  function SpendFor(ledger: seq<LedgerEntry>, id: string): int {
    if ledger == [] then 0 else SpendFor(Init(ledger), id) + SpendEffect(Last(ledger), id)
  }

  lemma {:induction false} LedgerAppend(ledger: seq<LedgerEntry>, entry: LedgerEntry, key: string)
    ensures LedgerBalance(ledger + [entry], key) == LedgerBalance(ledger, key) + BalanceEffect(entry, key)
    ensures SpendFor(ledger + [entry], key) == SpendFor(ledger, key) + SpendEffect(entry, key)
  {
    assert Init(ledger + [entry]) == ledger;
  }

  /** The two entries of an impression event: half to the developer's account,
      and together 10000 micros per impression. */
  lemma {:induction false} ImpressionLedger(ledger: seq<LedgerEntry>, acct: string, e: Event, key: string)
    ensures var ledger' := ledger + ImpressionEntries(acct, e);
      && LedgerBalance(ledger', key) == LedgerBalance(ledger, key) + (if key == acct then DevEarn(Credit(e)) else 0)
      && SpendFor(ledger', key) == SpendFor(ledger, key) + (if key == e.id then 10000 * Credit(e) else 0)
  {
    var es := ImpressionEntries(acct, e);
    if es == [] {
      assert ledger + es == ledger;
    } else {
      LedgerAppend(ledger, es[0], key);
      LedgerAppend(ledger + [es[0]], es[1], key);
      assert ledger + es == ledger + [es[0]] + [es[1]];
    }
  }

  ghost predicate LedgerAgrees(st: State) {
    forall acct :: At(st.balances, acct) == LedgerBalance(st.ledger, acct)
  }

  ghost predicate NonNegative(st: State) {
    forall acct :: At(st.balances, acct) >= 0
  }

  lemma {:induction false} LedgerAgreesStep(c: Crypto, st: State, step: Step)
    requires LedgerAgrees(st) && NonNegative(st)
    ensures LedgerAgrees(Next(c, st, step)) && NonNegative(Next(c, st, step))
  {
    match step {
      case Register(dev, hex) =>
        assert forall acct :: At(Registered(c, st, dev, hex).balances, acct) == At(st.balances, acct);
      case Ingest(dev, se) =>
        if Verdict(c, st, dev, se).Ok? {
          LedgerAgreesAccept(c, st, dev, st.devices[dev], se.e);
        }
      case Redeem(acct, rail, amount) => LedgerAgreesRedeem(st, acct, rail, amount);
    }
  }

  lemma {:induction false} LedgerAgreesAccept(c: Crypto, st: State, dev: string, rec: DeviceRec, e: Event)
    requires LedgerAgrees(st) && NonNegative(st)
    ensures LedgerAgrees(Accept(c, st, dev, rec, e)) && NonNegative(Accept(c, st, dev, rec, e))
  {
    var st' := Accept(c, st, dev, rec, e);
    forall acct ensures At(st'.balances, acct) == LedgerBalance(st'.ledger, acct) >= 0 {
      assert At(st.balances, acct) == LedgerBalance(st.ledger, acct) && At(st.balances, acct) >= 0;
      ImpressionLedger(st.ledger, rec.accountId, e, acct);
    }
  }

  lemma {:induction false} LedgerAgreesRedeem(st: State, acct: Option<string>, rail: string, amount: Option<int>)
    requires LedgerAgrees(st) && NonNegative(st)
    ensures LedgerAgrees(Redeemed(st, acct, rail, amount)) && NonNegative(Redeemed(st, acct, rail, amount))
  {
    var st', p := Redeemed(st, acct, rail, amount), PayoutFor(st, acct, amount);
    if p.Some? {
      forall a ensures At(st'.balances, a) == LedgerBalance(st'.ledger, a) >= 0 {
        assert At(st.balances, a) == LedgerBalance(st.ledger, a) && At(st.balances, a) >= 0;
        LedgerAppend(st.ledger, RedeemEntry(st, p.value), a);
      }
    }
  }

  /** Every account's balance is what the ledger says it earned less what it
      redeemed, and never negative. */
  lemma {:induction false} BalancesMatchLedger(c: Crypto, steps: seq<Step>)
    ensures LedgerAgrees(Run(c, steps)) && NonNegative(Run(c, steps))
  {
    if steps == [] {
    } else {
      BalancesMatchLedger(c, Init(steps));
      LedgerAgreesStep(c, Run(c, Init(steps)), Last(steps));
    }
  }

  ghost predicate SpendMatches(st: State, h: seq<Record>) {
    && (forall i :: 0 <= i < |h| ==> SpendFor(st.ledger, h[i].e.id) == 10000 * Credit(h[i].e))
    && (forall id :: id !in st.seen ==> SpendFor(st.ledger, id) == 0)
  }

  /** What a step adds to the spend of an id: only a new record's own. */
  lemma {:induction false} SpendAdded(c: Crypto, st: State, step: Step, id: string)
    ensures SpendFor(Next(c, st, step).ledger, id) == SpendFor(st.ledger, id) +
      var rs := NewRecords(c, st, step); if rs != [] && id == rs[0].e.id then 10000 * Credit(rs[0].e) else 0
  {
    match step {
      case Register(_, _) =>
      case Ingest(dev, se) =>
        if Verdict(c, st, dev, se).Ok? {
          ImpressionLedger(st.ledger, st.devices[dev].accountId, se.e, id);
        }
      case Redeem(acct, rail, amount) => SpendNotRedeemed(st, acct, rail, amount, id);
    }
  }

  lemma {:induction false} SpendNotRedeemed(st: State, acct: Option<string>, rail: string, amount: Option<int>, id: string)
    ensures SpendFor(Redeemed(st, acct, rail, amount).ledger, id) == SpendFor(st.ledger, id)
  {
    var p := PayoutFor(st, acct, amount);
    if p.Some? {
      LedgerAppend(st.ledger, RedeemEntry(st, p.value), id);
    }
  }

  lemma {:induction false} SpendMatchesStep(c: Crypto, st: State, h: seq<Record>, step: Step)
    requires OnceEach(st, h) && SpendMatches(st, h)
    ensures SpendMatches(Next(c, st, step), h + NewRecords(c, st, step))
  {
    var st', rs := Next(c, st, step), NewRecords(c, st, step);
    forall id ensures SpendFor(st'.ledger, id) == SpendFor(st.ledger, id) + if rs != [] && id == rs[0].e.id then 10000 * Credit(rs[0].e) else 0 {
      SpendAdded(c, st, step, id);
    }
    if rs == [] {
      assert h + rs == h && st.seen <= st'.seen;
    } else {
      assert st'.seen == st.seen + {rs[0].e.id} && rs[0].e.id !in st.seen;
      assert h + rs == h + [rs[0]];
      SpendMatchesRecord(st, st', h, rs[0]);
    }
  }

  lemma {:induction false} SpendMatchesRecord(st: State, st': State, h: seq<Record>, r: Record)
    requires OnceEach(st, h) && SpendMatches(st, h) && r.e.id !in st.seen && st'.seen == st.seen + {r.e.id}
    requires forall id :: SpendFor(st'.ledger, id) == SpendFor(st.ledger, id) + if id == r.e.id then 10000 * Credit(r.e) else 0
    ensures SpendMatches(st', h + [r])
  {
    forall i | 0 <= i < |h + [r]| ensures SpendFor(st'.ledger, (h + [r])[i].e.id) == 10000 * Credit((h + [r])[i].e) {
      assert i < |h| ==> h[i].e.id in st.seen;
    }
  }

  /** Advertisers pay exactly 10000 micros per credited impression of each
      accepted event, and nothing for any other id. */
  lemma {:induction false} SpendPerEvent(c: Crypto, steps: seq<Step>)
    ensures SpendMatches(Run(c, steps), History(c, steps))
  {
    if steps == [] {
    } else {
      SpendPerEvent(c, Init(steps));
      AcceptedAtMostOnce(c, Init(steps));
      SpendMatchesStep(c, Run(c, Init(steps)), History(c, Init(steps)), Last(steps));
    }
  }

  // =============================================== both sides of every entry

  /** Credits minus debits of one account, from the ledger alone. */
  function Net(ledger: seq<LedgerEntry>, acct: string): int {
    if ledger == [] then 0
    else
      var e := Last(ledger);
      Net(Init(ledger), acct) + (if e.credit == acct then e.amountMicros else 0) - (if e.debit == acct then e.amountMicros else 0)
  }

  /** What a step books, entry by entry: half of 10000 micros per impression goes
      from the house to the device's account and the other half stays, and a
      payout goes from the account to `acct:payout`. */
  lemma {:induction false} LedgerBooks(c: Crypto, st: State, step: Step)
    ensures Next(c, st, step).ledger == st.ledger +
      match step {
        case Register(_, _) => []
        case Ingest(dev, se) =>
          if Verdict(c, st, dev, se).Ok? && Credit(se.e) > 0
          then [LedgerEntry("acct:house", st.devices[dev].accountId, 5000 * Credit(se.e), "imp_earn", se.e.id),
                LedgerEntry("acct:house", "acct:house", 5000 * Credit(se.e), "ad_spend_house", se.e.id)]
          else []
        case Redeem(acct, _, amount) =>
          match PayoutFor(st, acct, amount)
          case None => []
          case Some(p) => [LedgerEntry(p.acct, "acct:payout", p.amount, "redeem", "rdm_" + Decimal(st.nextRedemptionId))]
      }
  {
    assert st.ledger + [] == st.ledger;
    match step {
      case Register(_, _) =>
      case Ingest(dev, se) => EarningsBooked(c, st, dev, se);
      case Redeem(_, _, _) =>
    }
  }

  lemma {:induction false} EarningsBooked(c: Crypto, st: State, dev: string, se: SignedEvent)
    ensures Ingested(c, st, dev, se).ledger == st.ledger +
      if Verdict(c, st, dev, se).Ok? && Credit(se.e) > 0
      then [LedgerEntry("acct:house", st.devices[dev].accountId, 5000 * Credit(se.e), "imp_earn", se.e.id),
            LedgerEntry("acct:house", "acct:house", 5000 * Credit(se.e), "ad_spend_house", se.e.id)]
      else []
  {
    assert st.ledger + [] == st.ledger;
  }

  lemma {:induction false} NetAppend(ledger: seq<LedgerEntry>, e: LedgerEntry, acct: string)
    ensures Net(ledger + [e], acct) ==
      Net(ledger, acct) + (if e.credit == acct then e.amountMicros else 0) - (if e.debit == acct then e.amountMicros else 0)
  {
    assert Init(ledger + [e]) == ledger;
  }

  /** Where the money is, by the whole ledger: on each account its balance, on
      `acct:payout` all that was redeemed besides, and on `acct:house` less 5000
      micros for each impression. */
  ghost predicate NetAgrees(st: State) {
    forall acct :: NetAt(st, acct)
  }

  ghost predicate NetAt(st: State, acct: string) {
    Net(st.ledger, acct) == At(st.balances, acct)
      + (if acct == "acct:payout" then SumRedeemed(st.redemptions) else 0)
      - (if acct == "acct:house" then 5000 * Total(st.impressions) else 0)
  }

  lemma {:induction false} NetRegister(c: Crypto, st: State, dev: string, hex: string, acct: string)
    requires NetAt(st, acct)
    ensures NetAt(Registered(c, st, dev, hex), acct)
  {
    TotalUpdate(st.impressions, AccountOf(dev), At(st.impressions, AccountOf(dev)));
  }

  lemma {:induction false} NetIngest(c: Crypto, st: State, dev: string, se: SignedEvent, acct: string)
    requires NetAt(st, acct)
    ensures NetAt(Ingested(c, st, dev, se), acct)
  {
    assert st.ledger + [] == st.ledger;
    if Verdict(c, st, dev, se).Ok? && Credit(se.e) > 0 {
      NetAccept(c, st, dev, st.devices[dev], se.e, acct);
    }
  }

  lemma {:induction false} NetAccept(c: Crypto, st: State, dev: string, rec: DeviceRec, e: Event, acct: string)
    requires NetAt(st, acct) && Credit(e) > 0
    ensures NetAt(Accept(c, st, dev, rec, e), acct)
  {
    var es := ImpressionEntries(rec.accountId, e);
    NetAppend(st.ledger, es[0], acct);
    NetAppend(st.ledger + [es[0]], es[1], acct);
    assert st.ledger + es == st.ledger + [es[0]] + [es[1]];
    TotalUpdate(st.impressions, rec.accountId, At(st.impressions, rec.accountId) + Credit(e));
  }

  lemma {:induction false} NetRedeem(st: State, from: Option<string>, rail: string, amount: Option<int>, acct: string)
    requires NetAt(st, acct)
    ensures NetAt(Redeemed(st, from, rail, amount), acct)
  {
    var p := PayoutFor(st, from, amount);
    if p.Some? {
      NetAppend(st.ledger, RedeemEntry(st, p.value), acct);
      assert Init(Redeemed(st, from, rail, amount).redemptions) == st.redemptions;
    }
  }

  /** In every reachable state the whole ledger says where the money is. */
  lemma {:induction false} NetOfRun(c: Crypto, steps: seq<Step>)
    ensures NetAgrees(Run(c, steps))
  {
    if steps == [] {
    } else {
      var st := Run(c, Init(steps));
      NetOfRun(c, Init(steps));
      forall acct ensures NetAt(Run(c, steps), acct) {
        assert NetAt(st, acct);
        match Last(steps) {
          case Register(dev, hex) => NetRegister(c, st, dev, hex, acct);
          case Ingest(dev, se) => NetIngest(c, st, dev, se, acct);
          case Redeem(from, rail, amount) => NetRedeem(st, from, rail, amount, acct);
        }
      }
    }
  }

  /** The payouts in the ledger, in order. */
  function Payouts(ledger: seq<LedgerEntry>): seq<LedgerEntry> {
    if ledger == [] then []
    else Payouts(Init(ledger)) + (if Last(ledger).kind == "redeem" then [Last(ledger)] else [])
  }

  /** Each redemption on record has its payout in the ledger, in the same order. */
  ghost predicate PayoutsMatch(st: State) {
    var ps := Payouts(st.ledger);
    |ps| == |st.redemptions| && forall k :: 0 <= k < |ps| ==>
      ps[k].credit == "acct:payout" && ps[k].amountMicros == st.redemptions[k].amountMicros && ps[k].reference == st.redemptions[k].id
  }

  lemma {:induction false} PayoutsAppend(ledger: seq<LedgerEntry>, e: LedgerEntry)
    ensures Payouts(ledger + [e]) == Payouts(ledger) + (if e.kind == "redeem" then [e] else [])
  {
    assert Init(ledger + [e]) == ledger;
  }

  lemma {:induction false} PayoutsKept(ledger: seq<LedgerEntry>, acct: string, e: Event)
    ensures Payouts(ledger + ImpressionEntries(acct, e)) == Payouts(ledger)
  {
    var es := ImpressionEntries(acct, e);
    if es == [] {
      assert ledger + es == ledger;
    } else {
      PayoutsAppend(ledger, es[0]);
      PayoutsAppend(ledger + [es[0]], es[1]);
      assert ledger + es == ledger + [es[0]] + [es[1]];
    }
  }

  lemma {:induction false} PayoutsMatchRun(c: Crypto, steps: seq<Step>)
    ensures PayoutsMatch(Run(c, steps))
  {
    if steps == [] {
    } else {
      var st := Run(c, Init(steps));
      PayoutsMatchRun(c, Init(steps));
      match Last(steps) {
        case Register(_, _) =>
        case Ingest(dev, se) => PayoutsIngest(c, st, dev, se);
        case Redeem(from, rail, amount) => PayoutsRedeem(st, from, rail, amount);
      }
    }
  }

  lemma {:induction false} PayoutsIngest(c: Crypto, st: State, dev: string, se: SignedEvent)
    requires PayoutsMatch(st)
    ensures PayoutsMatch(Ingested(c, st, dev, se))
  {
    if Verdict(c, st, dev, se).Ok? {
      PayoutsKept(st.ledger, st.devices[dev].accountId, se.e);
    }
  }

  lemma {:induction false} PayoutsRedeem(st: State, from: Option<string>, rail: string, amount: Option<int>)
    requires PayoutsMatch(st)
    ensures PayoutsMatch(Redeemed(st, from, rail, amount))
  {
    var p := PayoutFor(st, from, amount);
    if p.Some? {
      PayoutsAppend(st.ledger, RedeemEntry(st, p.value));
    }
  }

  // ================================================================ open accounts

  /** Every registered device has a balance and an impression count on record. */
  ghost predicate AccountsOpen(st: State) {
    forall dev :: dev in st.devices ==> st.devices[dev].accountId in st.balances && st.devices[dev].accountId in st.impressions
  }

  lemma {:induction false} AccountsAlwaysOpen(c: Crypto, steps: seq<Step>)
    ensures AccountsOpen(Run(c, steps))
  {
    if steps == [] {
    } else {
      AccountsAlwaysOpen(c, Init(steps));
      AccountsOpenStep(c, Run(c, Init(steps)), Last(steps));
    }
  }

  lemma {:induction false} AccountsOpenStep(c: Crypto, st: State, step: Step)
    requires AccountsOpen(st)
    ensures AccountsOpen(Next(c, st, step))
  {
    match step {
      case Register(_, _) =>
      case Ingest(dev, se) =>
        if Verdict(c, st, dev, se).Ok? {
          AccountsOpenAccept(c, st, dev, st.devices[dev], se.e);
        }
      case Redeem(_, _, _) =>
    }
  }

  lemma {:induction false} AccountsOpenAccept(c: Crypto, st: State, dev: string, rec: DeviceRec, e: Event)
    requires AccountsOpen(st) && dev in st.devices && st.devices[dev] == rec
    ensures AccountsOpen(Accept(c, st, dev, rec, e))
  {
  }

  // ============================================================ tallies, reasons

  function Ingests(steps: seq<Step>): nat {
    if steps == [] then 0 else Ingests(Init(steps)) + (if Last(steps).Ingest? then 1 else 0)
  }

  /** Every event sent is tallied once, as accepted or as rejected. */
  lemma {:induction false} TalliesCount(c: Crypto, steps: seq<Step>)
    ensures Run(c, steps).accepted + Run(c, steps).rejected == Ingests(steps)
  {
    if steps == [] {
    } else {
      TalliesCount(c, Init(steps));
      var st := Run(c, Init(steps));
      if Last(steps).Ingest? && Verdict(c, st, Last(steps).dev, Last(steps).se).Ok? {
        assert Next(c, st, Last(steps)).accepted == st.accepted + 1;
      }
    }
  }

  /** The signature is hex and verifies under the device's key. */
  predicate Signed(c: Crypto, st: State, dev: string, se: SignedEvent) {
    dev in st.devices && HexDecode(se.s).Some? && c.verify(se.e, HexDecode(se.s).value, st.devices[dev].pubkey)
  }

  /** The counter an event must carry. */
  predicate InTurn(rec: DeviceRec, e: Event) {
    match rec.ctrHead
    case None => e.ctr == 0
    case Some(k) => e.ctr == k + 1
  }

  /** Which answer an event gets: each reason exactly when its own check is the
      first to fail. */
  lemma {:induction false} AnswerIs(c: Crypto, st: State, dev: string, se: SignedEvent)
    ensures var v := Verdict(c, st, dev, se);
            var known, hex, signed := dev in st.devices, HexDecode(se.s).Some?, Signed(c, st, dev, se);
            var linked := known && se.e.prev == st.devices[dev].chainHead;
            var inTurn := known && InTurn(st.devices[dev], se.e);
      && (v == Err("unknown device") <==> !known)
      && (v == Err("sig not hex") <==> known && !hex)
      && (v == Err("bad signature") <==> known && hex && !signed)
      && (v == Err("chain fork/gap") <==> signed && !linked)
      && (v == Err("ctr not monotonic") <==> signed && linked && !inTurn)
      && (v == Err("duplicate event id") <==> signed && linked && inTurn && se.e.id in st.seen)
      && (v.Ok? <==> signed && linked && inTurn && se.e.id !in st.seen)
  {
  }

  // =========================================== impressions come from the history

  /** Impressions credited to one device by a history. */
  function CreditsOf(h: seq<Record>, dev: string): nat {
    if h == [] then 0 else CreditsOf(Init(h), dev) + (if Last(h).dev == dev then Credit(Last(h).e) else 0)
  }

  ghost predicate AccountsKept(st: State) {
    forall dev :: dev in st.devices ==> st.devices[dev].accountId == "acct:" + dev
  }

  lemma {:induction false} AccountInjective(a: string, b: string)
    requires AccountOf(a) == AccountOf(b)
    ensures a == b
  {
    assert AccountOf(a)[5..] == a && AccountOf(b)[5..] == b;
  }

  ghost predicate ImpressionsMatch(st: State, h: seq<Record>) {
    AccountsKept(st) && forall dev :: At(st.impressions, AccountOf(dev)) == CreditsOf(h, dev)
  }

  lemma {:induction false} ImpressionsMatchStep(c: Crypto, st: State, h: seq<Record>, step: Step)
    requires ImpressionsMatch(st, h)
    ensures ImpressionsMatch(Next(c, st, step), h + NewRecords(c, st, step))
  {
    var st', rs := Next(c, st, step), NewRecords(c, st, step);
    if rs != [] {
      assert h + rs == h + [rs[0]];
      ImpressionsMatchAccept(c, st, h, rs[0]);
    } else {
      assert h + rs == h;
      ImpressionsUntouched(c, st, step);
    }
  }

  lemma {:induction false} ImpressionsUntouched(c: Crypto, st: State, step: Step)
    requires NewRecords(c, st, step) == []
    ensures forall acct :: At(Next(c, st, step).impressions, acct) == At(st.impressions, acct)
    ensures AccountsKept(st) ==> AccountsKept(Next(c, st, step))
  {
  }

  lemma {:induction false} ImpressionsMatchAccept(c: Crypto, st: State, h: seq<Record>, r: Record)
    requires ImpressionsMatch(st, h) && r.dev in st.devices
    ensures ImpressionsMatch(Accept(c, st, r.dev, st.devices[r.dev], r.e), h + [r])
  {
    var st' := Accept(c, st, r.dev, st.devices[r.dev], r.e);
    assert Init(h + [r]) == h;
    forall dev ensures At(st'.impressions, AccountOf(dev)) == CreditsOf(h + [r], dev) {
      assert At(st.impressions, AccountOf(dev)) == CreditsOf(h, dev);
      if AccountOf(dev) == AccountOf(r.dev) {
        AccountInjective(dev, r.dev);
      }
    }
  }

  /** A device's impression count is the sum over its accepted events. */
  lemma {:induction false} ImpressionsFromHistory(c: Crypto, steps: seq<Step>)
    ensures ImpressionsMatch(Run(c, steps), History(c, steps))
  {
    if steps == [] {
    } else {
      ImpressionsFromHistory(c, Init(steps));
      ImpressionsMatchStep(c, Run(c, Init(steps)), History(c, Init(steps)), Last(steps));
    }
  }

  // ======================================================= hash-chain integrity

  /** The events accepted from `dev` since its latest successful registration. */
  function SinceRegistration(c: Crypto, steps: seq<Step>, dev: string): seq<Event> {
    if steps == [] then []
    else SinceAfter(c, Run(c, Init(steps)), SinceRegistration(c, Init(steps), dev), Last(steps), dev)
  }

  ghost predicate HeadMatches(c: Crypto, rec: DeviceRec, h: seq<Event>) {
    && Chained(c, h)
    && rec.chainHead == HeadOf(c, h)
    && rec.ctrHead == (if h == [] then None else Some(|h| - 1))
  }

  lemma {:induction false} HeadTracksHistory(c: Crypto, steps: seq<Step>, dev: string)
    ensures dev in Run(c, steps).devices ==> HeadMatches(c, Run(c, steps).devices[dev], SinceRegistration(c, steps, dev))
  {
    if steps == [] {
    } else {
      HeadTracksHistory(c, Init(steps), dev);
      HeadTracksStep(c, Run(c, Init(steps)), SinceRegistration(c, Init(steps), dev), Last(steps), dev);
    }
  }

  function SinceAfter(c: Crypto, st: State, earlier: seq<Event>, step: Step, dev: string): seq<Event> {
    match step
    case Register(d, hex) => if d == dev && DecodePubkey(c, hex).Some? then [] else earlier
    case Ingest(d, se) => if d == dev && Verdict(c, st, d, se).Ok? then earlier + [se.e] else earlier
    case Redeem(_, _, _) => earlier
  }

  lemma {:induction false} HeadTracksStep(c: Crypto, st: State, h: seq<Event>, step: Step, dev: string)
    requires dev in st.devices ==> HeadMatches(c, st.devices[dev], h)
    ensures dev in Next(c, st, step).devices ==> HeadMatches(c, Next(c, st, step).devices[dev], SinceAfter(c, st, h, step, dev))
  {
    match step {
      case Register(d, hex) =>
        assert Chained(c, []);
      case Ingest(d, se) => HeadTracksIngest(c, st, h, d, se, dev);
      case Redeem(acct, rail, amount) =>
    }
  }

  lemma {:induction false} HeadTracksIngest(c: Crypto, st: State, h: seq<Event>, d: string, se: SignedEvent, dev: string)
    requires dev in st.devices ==> HeadMatches(c, st.devices[dev], h)
    ensures dev in Ingested(c, st, d, se).devices ==>
      HeadMatches(c, Ingested(c, st, d, se).devices[dev], SinceAfter(c, st, h, Ingest(d, se), dev))
  {
    if Verdict(c, st, d, se).Ok? && d == dev {
      HeadMatchesAccept(c, st.devices[dev], h, se.e);
    }
  }

  lemma {:induction false} HeadMatchesAccept(c: Crypto, rec: DeviceRec, h: seq<Event>, e: Event)
    requires HeadMatches(c, rec, h) && e.prev == rec.chainHead && e.ctr == ExpectedCtr(rec)
    ensures HeadMatches(c, rec.(chainHead := c.chainNext(e), ctrHead := Some(e.ctr)), h + [e])
  {
    ChainedAppend(c, h, e);
  }

  /** Hash-chain integrity: with collision-free digests, equal chain heads mean
      equal accepted histories since registration, on any servers. */
  lemma {:induction false} HeadFixesAcceptedHistory(c: Crypto, run1: seq<Step>, dev1: string, run2: seq<Step>, dev2: string)
    requires CollisionFree(c)
    requires dev1 in Run(c, run1).devices && dev2 in Run(c, run2).devices
    requires Run(c, run1).devices[dev1].chainHead == Run(c, run2).devices[dev2].chainHead
    ensures SinceRegistration(c, run1, dev1) == SinceRegistration(c, run2, dev2)
  {
    HeadTracksHistory(c, run1, dev1);
    HeadTracksHistory(c, run2, dev2);
    HeadDeterminesHistory(c, SinceRegistration(c, run1, dev1), SinceRegistration(c, run2, dev2));
  }

  // ============================================ redemption ids and stored keys

  /** Redemptions are numbered from 1 without gaps, and every stored public key
      is one that decodes again. */
  ghost predicate Storable(c: Crypto, st: State) {
    && st.nextRedemptionId == |st.redemptions| + 1
    && Numbered(st.redemptions)
    && KeysStorable(c, st.devices)
  }

  ghost predicate Numbered(rs: seq<Redemption>) {
    forall i :: 0 <= i < |rs| ==> rs[i].id == "rdm_" + Decimal(i + 1)
  }

  ghost predicate KeysStorable(c: Crypto, devices: map<string, DeviceRec>) {
    forall dev :: dev in devices ==> KeyStorable(c, devices[dev].pubkey)
  }

  predicate KeyStorable(c: Crypto, key: string) {
    IsBytes(key) && |key| == 32 && c.validKey(key)
  }

  lemma {:induction false} AlwaysStorable(c: Crypto, steps: seq<Step>)
    ensures Storable(c, Run(c, steps))
  {
    if steps == [] {
    } else {
      AlwaysStorable(c, Init(steps));
      StorableStep(c, Run(c, Init(steps)), Last(steps));
    }
  }

  lemma {:induction false} StorableStep(c: Crypto, st: State, step: Step)
    requires Storable(c, st)
    ensures Storable(c, Next(c, st, step))
  {
    match step {
      case Register(dev, hex) => StorableRegister(c, st, dev, hex);
      case Ingest(dev, se) => StorableIngest(c, st, dev, se);
      case Redeem(acct, rail, amount) => StorableRedeem(c, st, acct, rail, amount);
    }
  }

  lemma {:induction false} StorableRedeem(c: Crypto, st: State, acct: Option<string>, rail: string, amount: Option<int>)
    requires Storable(c, st)
    ensures Storable(c, Redeemed(st, acct, rail, amount))
  {
  }

  lemma {:induction false} StorableRegister(c: Crypto, st: State, dev: string, hex: string)
    requires Storable(c, st)
    ensures Storable(c, Registered(c, st, dev, hex))
  {
  }

  lemma {:induction false} StorableIngest(c: Crypto, st: State, dev: string, se: SignedEvent)
    requires Storable(c, st)
    ensures Storable(c, Ingested(c, st, dev, se))
  {
  }
}
