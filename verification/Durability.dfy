/** The server over restarts: requests complete, or the process stops between
    any two of a request's store writes and reloads what was written. */
module Durability {
  import opened Basics
  import opened Proto
  import opened Server
  import opened ServerRuns
  import opened Store

  /** A completed request, or one stopped after its first `k` writes and
      followed by a reload. */
  datatype Op = Complete(step: Step) | Stop(step: Step, k: nat)

  function Written(c: Crypto, st: State, op: Op): seq<Write> {
    var ws := Writes(c, st, op.step);
    if op.Stop? && op.k < |ws| then ws[..op.k] else ws
  }

  function StateAfter(c: Crypto, ops: seq<Op>): State {
    if ops == [] then EMPTY
    else
      var st := StateAfter(c, Init(ops));
      Effects(st, Written(c, st, Last(ops)))
  }

  function TablesAfter(c: Crypto, ops: seq<Op>): Tables {
    if ops == [] then NO_ROWS
    else ExecuteAll(TablesAfter(c, Init(ops)), Written(c, StateAfter(c, Init(ops)), Last(ops)))
  }

  /** A completed request leaves memory as the request handler does. */
  lemma {:induction false} CompleteIsNext(c: Crypto, ops: seq<Op>)
    requires ops != [] && Last(ops).Complete?
    ensures StateAfter(c, ops) == Next(c, StateAfter(c, Init(ops)), Last(ops).step)
  {
    StepIsItsWrites(c, StateAfter(c, Init(ops)), Last(ops).step);
  }

  /** At every point of every run the tables hold what memory holds. */
  lemma {:induction false} TablesHoldMemory(c: Crypto, ops: seq<Op>)
    ensures Stores(StateAfter(c, ops), TablesAfter(c, ops)) && Storable(c, StateAfter(c, ops))
  {
    if ops == [] {
    } else {
      TablesHoldMemory(c, Init(ops));
      var st, t, op := StateAfter(c, Init(ops)), TablesAfter(c, Init(ops)), Last(ops);
      var ws := Writes(c, st, op.step);
      StoresPrefix(c, st, t, op.step, if op.Stop? && op.k < |ws| then op.k else |ws|);
      assert ws[..|ws|] == ws;
    }
  }

  /** Restart refinement: at every point of every run, with any number of stops
      before it, reloading the tables yields exactly the state in memory. */
  lemma {:induction false} RestartRefinement(c: Crypto, ops: seq<Op>, m: State)
    requires IsLoad(c, TablesAfter(c, ops), m)
    ensures m == StateAfter(c, ops)
  {
    TablesHoldMemory(c, ops);
    LoadRebuilds(c, StateAfter(c, ops), TablesAfter(c, ops), m);
  }

  // ====================================== what a stopped request leaves behind

  /** By how much the books are off: money on balances and paid out beyond 5000
      micros for each impression. */
  ghost function Gap(st: State): int {
    Total(st.balances) + SumRedeemed(st.redemptions) - 5000 * Total(st.impressions)
  }

  function IngestWrites(c: Crypto, st: State, dev: string, rec: DeviceRec, e: Event): seq<Write> {
    AcceptWrites(c, st, dev, rec, e) + [SetAccepted(st.accepted + 1)]
  }

  /** The state a reload finds when the acceptance of an event was stopped after
      `k` writes: of seven if it carries impressions, of three if not. */
  function AcceptedUpTo(c: Crypto, st: State, dev: string, rec: DeviceRec, e: Event, k: nat): State {
    var full := Accept(c, st, dev, rec, e);
    State(
      if k >= 1 then full.devices else st.devices,
      if k >= 2 then full.seen else st.seen,
      st.ledger + (if k >= 4 then ImpressionEntries(rec.accountId, e)
                   else if k == 3 && Credit(e) > 0 then ImpressionEntries(rec.accountId, e)[..1] else []),
      if k >= 5 then full.balances else st.balances,
      if k >= 6 then full.impressions else st.impressions,
      if k >= WriteCount(e) then st.accepted + 1 else st.accepted,
      st.rejected, st.redemptions, st.nextRedemptionId)
  }

  function WriteCount(e: Event): nat {
    if Credit(e) > 0 then 7 else 3
  }

  lemma {:induction false} AcceptPrefix(c: Crypto, st: State, dev: string, rec: DeviceRec, e: Event, k: nat)
    requires dev in st.devices && st.devices[dev] == rec && k <= WriteCount(e)
    ensures |IngestWrites(c, st, dev, rec, e)| == WriteCount(e)
    ensures Effects(st, IngestWrites(c, st, dev, rec, e)[..k]) == AcceptedUpTo(c, st, dev, rec, e, k)
  {
    if Credit(e) > 0 {
      CreditPrefix(c, st, dev, rec, e, k);
    } else {
      PlainPrefix(c, st, dev, rec, e, k);
    }
  }

  lemma {:induction false} PlainPrefix(c: Crypto, st: State, dev: string, rec: DeviceRec, e: Event, k: nat)
    requires dev in st.devices && st.devices[dev] == rec && Credit(e) == 0 && k <= 3
    ensures |IngestWrites(c, st, dev, rec, e)| == 3
    ensures Effects(st, IngestWrites(c, st, dev, rec, e)[..k]) == AcceptedUpTo(c, st, dev, rec, e, k)
  {
    var ws := IngestWrites(c, st, dev, rec, e);
    assert st.ledger + [] == st.ledger;
    if k > 0 {
      PlainPrefix(c, st, dev, rec, e, k - 1);
      EffectsUpTo(st, ws, k - 1);
    } else {
      assert ws[..0] == [];
    }
  }

  lemma {:induction false} CreditPrefix(c: Crypto, st: State, dev: string, rec: DeviceRec, e: Event, k: nat)
    requires dev in st.devices && st.devices[dev] == rec && Credit(e) > 0 && k <= 7
    ensures |IngestWrites(c, st, dev, rec, e)| == 7
    ensures Effects(st, IngestWrites(c, st, dev, rec, e)[..k]) == AcceptedUpTo(c, st, dev, rec, e, k)
  {
    var ws := IngestWrites(c, st, dev, rec, e);
    if k > 0 {
      CreditPrefix(c, st, dev, rec, e, k - 1);
      EffectsUpTo(st, ws, k - 1);
      var entries := ImpressionEntries(rec.accountId, e);
      assert st.ledger + entries == st.ledger + entries[..1] + [entries[1]];
    } else {
      assert ws[..0] == [] && st.ledger + [] == st.ledger;
    }
  }

  /** The writes of an accepted event, and what the first `k` of them leave. */
  lemma {:induction false} IngestPrefix(c: Crypto, st: State, dev: string, se: SignedEvent, k: nat)
    requires Verdict(c, st, dev, se).Ok? && k <= WriteCount(se.e)
    ensures |Writes(c, st, Ingest(dev, se))| == WriteCount(se.e)
    ensures Effects(st, Writes(c, st, Ingest(dev, se))[..k]) == AcceptedUpTo(c, st, dev, st.devices[dev], se.e, k)
  {
    AcceptPrefix(c, st, dev, st.devices[dev], se.e, k);
  }

  /** If the server stops while accepting an event, money is conserved unless
      it stops after write 5 (balance set, impressions not), balances agree with
      the ledger unless it stops after write 3 or 4 (ledger rows without the
      balance), and `accepted` is the number of seen ids unless it stops between
      the seen id and the tally. Events without impressions only have the last
      of these gaps. */
  lemma {:induction false} StopInAccept(c: Crypto, st: State, dev: string, se: SignedEvent, k: nat)
    requires Verdict(c, st, dev, se).Ok? && k <= WriteCount(se.e)
    requires Conserved(st) && LedgerAgrees(st) && NonNegative(st) && st.accepted == |st.seen|
    ensures |Writes(c, st, Ingest(dev, se))| == WriteCount(se.e)
    ensures var st' := Effects(st, Writes(c, st, Ingest(dev, se))[..k]);
      && (Conserved(st') <==> Credit(se.e) == 0 || k != 5)
      && (LedgerAgrees(st') <==> Credit(se.e) == 0 || (k != 3 && k != 4))
      && (st'.accepted == |st'.seen| <==> k < 2 || k == WriteCount(se.e))
  {
    IngestPrefix(c, st, dev, se, k);
    StopFacts(c, st, dev, st.devices[dev], se.e, k);
  }

  lemma {:induction false} StopFacts(c: Crypto, st: State, dev: string, rec: DeviceRec, e: Event, k: nat)
    requires k <= WriteCount(e) && e.id !in st.seen
    requires Conserved(st) && LedgerAgrees(st) && NonNegative(st) && st.accepted == |st.seen|
    ensures var st' := AcceptedUpTo(c, st, dev, rec, e, k);
      && (Conserved(st') <==> Credit(e) == 0 || k != 5)
      && (LedgerAgrees(st') <==> Credit(e) == 0 || (k != 3 && k != 4))
      && (st'.accepted == |st'.seen| <==> k < 2 || k == WriteCount(e))
  {
    if Credit(e) > 0 {
      StopConserves(c, st, dev, rec, e, k);
      StopLedger(c, st, dev, rec, e, k);
    } else {
      StopWithoutCredit(c, st, dev, rec, e, k);
    }
    StopTally(c, st, dev, rec, e, k);
  }

  lemma {:induction false} StopWithoutCredit(c: Crypto, st: State, dev: string, rec: DeviceRec, e: Event, k: nat)
    requires Credit(e) == 0 && k <= 3
    ensures var st' := AcceptedUpTo(c, st, dev, rec, e, k);
      st'.ledger == st.ledger && st'.balances == st.balances && st'.impressions == st.impressions && st'.redemptions == st.redemptions
  {
  }

  lemma {:induction false} StopTally(c: Crypto, st: State, dev: string, rec: DeviceRec, e: Event, k: nat)
    requires st.accepted == |st.seen| && e.id !in st.seen && k <= WriteCount(e)
    ensures var st' := AcceptedUpTo(c, st, dev, rec, e, k);
      st'.accepted == |st'.seen| <==> k < 2 || k == WriteCount(e)
  {
    assert Accept(c, st, dev, rec, e).seen == st.seen + {e.id};
  }

  lemma {:induction false} StopConserves(c: Crypto, st: State, dev: string, rec: DeviceRec, e: Event, k: nat)
    requires Credit(e) > 0 && k <= 7
    ensures Gap(AcceptedUpTo(c, st, dev, rec, e, k)) == Gap(st) + (if k == 5 then DevEarn(Credit(e)) else 0)
  {
    var acct, n := rec.accountId, Credit(e);
    TotalUpdate(st.balances, acct, At(st.balances, acct) + DevEarn(n));
    TotalUpdate(st.impressions, acct, At(st.impressions, acct) + n);
  }

  lemma {:induction false} StopLedger(c: Crypto, st: State, dev: string, rec: DeviceRec, e: Event, k: nat)
    requires LedgerAgrees(st) && NonNegative(st) && Credit(e) > 0 && k <= 7
    ensures LedgerAgrees(AcceptedUpTo(c, st, dev, rec, e, k)) <==> k != 3 && k != 4
  {
    var st', acct, entries := AcceptedUpTo(c, st, dev, rec, e, k), rec.accountId, ImpressionEntries(rec.accountId, e);
    forall a ensures LedgerBalance(st'.ledger, a) == LedgerBalance(st.ledger, a) + (if k >= 3 && a == acct then DevEarn(Credit(e)) else 0) {
      ImpressionLedger(st.ledger, acct, e, a);
      LedgerAppend(st.ledger, entries[0], a);
      assert entries[..1] == [entries[0]] && st.ledger + [] == st.ledger;
    }
    forall a ensures At(st.balances, a) == LedgerBalance(st.ledger, a) {
    }
    if k == 3 || k == 4 {
      assert At(st'.balances, acct) != LedgerBalance(st'.ledger, acct);
    } else {
      forall a ensures At(st'.balances, a) == LedgerBalance(st'.ledger, a) {
      }
    }
  }

  /** Once its first write is stored, resending the event is refused: an
      acceptance stopped after write 1 to 4 has lost its earnings there. */
  lemma {:induction false} ResendAfterStop(c: Crypto, st: State, dev: string, se: SignedEvent, k: nat)
    requires Verdict(c, st, dev, se).Ok? && k <= WriteCount(se.e)
    ensures |Writes(c, st, Ingest(dev, se))| == WriteCount(se.e)
    ensures var st' := Effects(st, Writes(c, st, Ingest(dev, se))[..k]);
      Verdict(c, st', dev, se).Ok? <==> k == 0
  {
    IngestPrefix(c, st, dev, se, k);
  }

  /** Stopping a redemption after its second write keeps the payout but not the
      debit: only then is money not conserved. The ledger disagrees after
      either of the first two. */
  lemma {:induction false} StopInRedeem(c: Crypto, st: State, acct: Option<string>, rail: string, amount: Option<int>, k: nat)
    requires PayoutFor(st, acct, amount).Some? && k <= 3
    requires Conserved(st) && LedgerAgrees(st)
    ensures |Writes(c, st, Redeem(acct, rail, amount))| == 3
    ensures var st' := Effects(st, Writes(c, st, Redeem(acct, rail, amount))[..k]);
      && (Conserved(st') <==> k != 2)
      && (LedgerAgrees(st') <==> k == 0 || k == 3)
  {
    var step := Redeem(acct, rail, amount);
    var p := PayoutFor(st, acct, amount).value;
    RedeemPrefix(c, st, step, k);
    var st' := RedeemedUpTo(st, step, k);
    TotalUpdate(st.balances, p.acct, st.balances[p.acct] - p.amount);
    assert k >= 2 ==> Init(st'.redemptions) == st.redemptions;
    forall a ensures LedgerBalance(st'.ledger, a) == At(st.balances, a) - (if k >= 1 && a == p.acct then p.amount else 0) {
      assert At(st.balances, a) == LedgerBalance(st.ledger, a);
      LedgerAppend(st.ledger, RedeemEntry(st, p), a);
      assert st.ledger + [] == st.ledger;
    }
    if k == 1 || k == 2 {
      assert At(st'.balances, p.acct) != LedgerBalance(st'.ledger, p.acct);
    }
  }

  function RedeemedUpTo(st: State, step: Step, k: nat): State
    requires step.Redeem? && PayoutFor(st, step.acct, step.amount).Some?
  {
    var full := Redeemed(st, step.acct, step.rail, step.amount);
    st.(ledger := if k >= 1 then full.ledger else st.ledger,
        redemptions := if k >= 2 then full.redemptions else st.redemptions,
        nextRedemptionId := if k >= 2 then full.nextRedemptionId else st.nextRedemptionId,
        balances := if k >= 3 then full.balances else st.balances)
  }

  lemma {:induction false} RedeemPrefix(c: Crypto, st: State, step: Step, k: nat)
    requires step.Redeem? && PayoutFor(st, step.acct, step.amount).Some? && k <= 3
    ensures |Writes(c, st, step)| == 3 && Effects(st, Writes(c, st, step)[..k]) == RedeemedUpTo(st, step, k)
  {
    var ws := Writes(c, st, step);
    if k > 0 {
      RedeemPrefix(c, st, step, k - 1);
      EffectsUpTo(st, ws, k - 1);
    } else {
      assert ws[..0] == [];
    }
  }

  // ===================================== conservation over runs with stops

  /** The operation stops where the books go wrong: an acceptance that credits
      after write 5, a redemption after write 2. */
  predicate SpoilsBooks(c: Crypto, st: State, op: Op) {
    op.Stop? &&
    match op.step
    case Register(_, _) => false
    case Ingest(dev, se) => Verdict(c, st, dev, se).Ok? && Credit(se.e) > 0 && op.k == 5
    case Redeem(acct, _, amount) => PayoutFor(st, acct, amount).Some? && op.k == 2
  }

  /** No operation of the run stops where the books go wrong. */
  predicate BooksSpared(c: Crypto, ops: seq<Op>) {
    ops == [] || (BooksSpared(c, Init(ops)) && !SpoilsBooks(c, StateAfter(c, Init(ops)), Last(ops)))
  }

  lemma {:induction false} GapRegister(c: Crypto, st: State, step: Step, k: nat)
    requires step.Register? && k <= |Writes(c, st, step)|
    ensures Gap(Effects(st, Writes(c, st, step)[..k])) == Gap(st)
  {
    var ws := Writes(c, st, step);
    if k > 0 {
      GapRegister(c, st, step, k - 1);
      EffectsUpTo(st, ws, k - 1);
      GapEnsure(Effects(st, ws[..k - 1]), ws[k - 1]);
    } else {
      assert ws[..0] == [];
    }
  }

  lemma {:induction false} GapEnsure(st: State, w: Write)
    requires w.UpsertDevice? || w.EnsureBalance? || w.EnsureImpressions?
    ensures Gap(Effect(st, w)) == Gap(st)
  {
    if w.EnsureBalance? {
      TotalUpdate(st.balances, w.acct, 0);
    } else if w.EnsureImpressions? {
      TotalUpdate(st.impressions, w.acct, 0);
    }
  }

  lemma {:induction false} GapIngest(c: Crypto, st: State, dev: string, se: SignedEvent, k: nat)
    requires k <= |Writes(c, st, Ingest(dev, se))|
    ensures var credit := if Verdict(c, st, dev, se).Ok? then Credit(se.e) else 0;
      Gap(Effects(st, Writes(c, st, Ingest(dev, se))[..k])) == Gap(st) + (if credit > 0 && k == 5 then DevEarn(credit) else 0)
  {
    if Verdict(c, st, dev, se).Ok? {
      IngestPrefix(c, st, dev, se, 0);
      IngestPrefix(c, st, dev, se, k);
      if Credit(se.e) > 0 {
        StopConserves(c, st, dev, st.devices[dev], se.e, k);
      }
    } else if k == 1 {
      EffectsUpTo(st, Writes(c, st, Ingest(dev, se)), 0);
    }
  }

  lemma {:induction false} GapRedeem(c: Crypto, st: State, step: Step, k: nat)
    requires step.Redeem? && k <= |Writes(c, st, step)|
    ensures var p := PayoutFor(st, step.acct, step.amount);
      Gap(Effects(st, Writes(c, st, step)[..k])) == Gap(st) + (if p.Some? && k == 2 then p.value.amount else 0)
  {
    var p := PayoutFor(st, step.acct, step.amount);
    if p.Some? {
      RedeemPrefix(c, st, step, 0);
      RedeemPrefix(c, st, step, k);
      TotalUpdate(st.balances, p.value.acct, st.balances[p.value.acct] - p.value.amount);
      assert k >= 2 ==> Init(RedeemedUpTo(st, step, k).redemptions) == st.redemptions;
    }
  }

  /** An operation widens the gap exactly if it spoils the books, and none ever
      narrows it. */
  lemma {:induction false} GapStep(c: Crypto, st: State, op: Op)
    ensures var st' := Effects(st, Written(c, st, op));
      Gap(st') >= Gap(st) && (Gap(st') > Gap(st) <==> SpoilsBooks(c, st, op))
  {
    var ws, k := Writes(c, st, op.step), |Written(c, st, op)|;
    assert Written(c, st, op) == ws[..k];
    match op.step {
      case Register(_, _) => GapRegister(c, st, op.step, k);
      case Ingest(dev, se) =>
        GapIngest(c, st, dev, se, k);
        if Verdict(c, st, dev, se).Ok? {
          IngestPrefix(c, st, dev, se, 0);
        }
      case Redeem(acct, _, amount) =>
        GapRedeem(c, st, op.step, k);
        if PayoutFor(st, acct, amount).Some? {
          RedeemPrefix(c, st, op.step, 0);
        }
    }
  }

  lemma {:induction false} GapOfRun(c: Crypto, ops: seq<Op>)
    ensures Gap(StateAfter(c, ops)) >= 0 && (Gap(StateAfter(c, ops)) == 0 <==> BooksSpared(c, ops))
  {
    if ops == [] {
    } else {
      GapOfRun(c, Init(ops));
      GapStep(c, StateAfter(c, Init(ops)), Last(ops));
    }
  }

  /** Conservation over every run with stops: money is conserved if and only if
      no crediting acceptance stopped after write 5 and no redemption after
      write 2. Defects add up and never cancel. */
  lemma {:induction false} ConservedUnlessStopped(c: Crypto, ops: seq<Op>)
    ensures Conserved(StateAfter(c, ops)) <==> BooksSpared(c, ops)
  {
    GapOfRun(c, ops);
  }

  // ============================ balances against the ledger over runs with stops

  /** What an operation adds to the ledger balance of an account beyond its
      balance: earnings whose acceptance stopped after write 3 or 4, less a
      redemption that stopped after write 1 or 2. */
  function SkewOf(c: Crypto, st: State, step: Step, k: nat, acct: string): int {
    match step
    case Register(_, _) => 0
    case Ingest(dev, se) =>
      if Verdict(c, st, dev, se).Ok? && Credit(se.e) > 0 && (k == 3 || k == 4) && st.devices[dev].accountId == acct
      then DevEarn(Credit(se.e)) else 0
    case Redeem(a, _, amount) =>
      var p := PayoutFor(st, a, amount);
      if p.Some? && (k == 1 || k == 2) && p.value.acct == acct then -p.value.amount else 0
  }

  function Skew(c: Crypto, ops: seq<Op>, acct: string): int {
    if ops == [] then 0
    else
      var st := StateAfter(c, Init(ops));
      Skew(c, Init(ops), acct) + SkewOf(c, st, Last(ops).step, |Written(c, st, Last(ops))|, acct)
  }

  /** Ledger balance less balance. */
  function Lead(st: State, acct: string): int {
    LedgerBalance(st.ledger, acct) - At(st.balances, acct)
  }

  lemma {:induction false} LeadRegister(c: Crypto, st: State, step: Step, k: nat, acct: string)
    requires step.Register? && k <= |Writes(c, st, step)|
    ensures Lead(Effects(st, Writes(c, st, step)[..k]), acct) == Lead(st, acct)
  {
    var ws := Writes(c, st, step);
    if k == 0 {
      assert ws[..0] == [];
    } else {
      LeadRegister(c, st, step, k - 1, acct);
      EffectsUpTo(st, ws, k - 1);
    }
  }

  lemma {:induction false} LeadAccept(c: Crypto, st: State, dev: string, rec: DeviceRec, e: Event, k: nat, acct: string)
    requires Credit(e) > 0
    ensures Lead(AcceptedUpTo(c, st, dev, rec, e, k), acct) ==
      Lead(st, acct) + (if (k == 3 || k == 4) && rec.accountId == acct then DevEarn(Credit(e)) else 0)
  {
    var entries := ImpressionEntries(rec.accountId, e);
    ImpressionLedger(st.ledger, rec.accountId, e, acct);
    LedgerAppend(st.ledger, entries[0], acct);
    assert entries[..1] == [entries[0]] && st.ledger + [] == st.ledger;
  }

  lemma {:induction false} LeadIngest(c: Crypto, st: State, dev: string, se: SignedEvent, k: nat, acct: string)
    requires k <= |Writes(c, st, Ingest(dev, se))|
    ensures Lead(Effects(st, Writes(c, st, Ingest(dev, se))[..k]), acct) == Lead(st, acct) + SkewOf(c, st, Ingest(dev, se), k, acct)
  {
    if Verdict(c, st, dev, se).Ok? {
      IngestPrefix(c, st, dev, se, 0);
      IngestPrefix(c, st, dev, se, k);
      if Credit(se.e) > 0 {
        LeadAccept(c, st, dev, st.devices[dev], se.e, k, acct);
      } else {
        StopWithoutCredit(c, st, dev, st.devices[dev], se.e, k);
      }
    } else if k == 1 {
      EffectsUpTo(st, Writes(c, st, Ingest(dev, se)), 0);
    }
  }

  lemma {:induction false} LeadRedeem(c: Crypto, st: State, step: Step, k: nat, acct: string)
    requires step.Redeem? && k <= |Writes(c, st, step)|
    ensures Lead(Effects(st, Writes(c, st, step)[..k]), acct) == Lead(st, acct) + SkewOf(c, st, step, k, acct)
  {
    if PayoutFor(st, step.acct, step.amount).Some? {
      RedeemPrefix(c, st, step, 0);
      RedeemPrefix(c, st, step, k);
      LeadRedeemed(c, st, step, k, acct);
    } else {
      assert Writes(c, st, step)[..k] == [];
    }
  }

  lemma {:induction false} LeadRedeemed(c: Crypto, st: State, step: Step, k: nat, acct: string)
    requires step.Redeem? && PayoutFor(st, step.acct, step.amount).Some? && k <= 3
    ensures Lead(RedeemedUpTo(st, step, k), acct) == Lead(st, acct) + SkewOf(c, st, step, k, acct)
  {
    var p := PayoutFor(st, step.acct, step.amount).value;
    var st' := RedeemedUpTo(st, step, k);
    assert st'.ledger == if k >= 1 then st.ledger + [RedeemEntry(st, p)] else st.ledger;
    assert At(st'.balances, acct) == At(st.balances, acct) - if k >= 3 && acct == p.acct then p.amount else 0;
    RedeemBehind(st.ledger, st, p, acct);
  }

  lemma {:induction false} RedeemBehind(ledger: seq<LedgerEntry>, st: State, p: Payout, acct: string)
    ensures LedgerBalance(ledger + [RedeemEntry(st, p)], acct) == LedgerBalance(ledger, acct) - if acct == p.acct then p.amount else 0
  {
    LedgerAppend(ledger, RedeemEntry(st, p), acct);
  }

  /** Balances against the ledger over every run with stops: for each account the
      ledger runs ahead of the balance by exactly the earnings of acceptances
      stopped after write 3 or 4, less the amounts of redemptions stopped after
      write 1 or 2. These can cancel. */
  lemma {:induction false} LedgerLead(c: Crypto, ops: seq<Op>, acct: string)
    ensures Lead(StateAfter(c, ops), acct) == Skew(c, ops, acct)
  {
    if ops == [] {
    } else {
      var st, op := StateAfter(c, Init(ops)), Last(ops);
      var k := |Written(c, st, op)|;
      LedgerLead(c, Init(ops), acct);
      assert Written(c, st, op) == Writes(c, st, op.step)[..k];
      match op.step {
        case Register(_, _) => LeadRegister(c, st, op.step, k, acct);
        case Ingest(dev, se) => LeadIngest(c, st, dev, se, k, acct);
        case Redeem(_, _, _) => LeadRedeem(c, st, op.step, k, acct);
      }
    }
  }

  /** So balances agree with the ledger exactly when the defects cancel on every
      account. */
  lemma {:induction false} LedgerAgreesIff(c: Crypto, ops: seq<Op>)
    ensures LedgerAgrees(StateAfter(c, ops)) <==> forall acct :: Skew(c, ops, acct) == 0
  {
    var st := StateAfter(c, ops);
    forall acct ensures Lead(st, acct) == Skew(c, ops, acct) {
      LedgerLead(c, ops, acct);
    }
    if LedgerAgrees(st) {
      forall acct ensures Skew(c, ops, acct) == 0 {
        assert At(st.balances, acct) == LedgerBalance(st.ledger, acct) && Lead(st, acct) == 0;
      }
    } else {
      var acct :| At(st.balances, acct) != LedgerBalance(st.ledger, acct);
      assert Lead(st, acct) != 0 && Skew(c, ops, acct) != 0;
    }
  }

  // ============================== at most once, whatever stops and comes back

  /** A change that reached the balance table: what an event earned, or what a
      redemption took (no event id). */
  datatype Move = Move(acct: string, amount: int, event: Option<string>)

  /** The change that the first `k` writes of a step make to the balance table. */
  function Moves(c: Crypto, st: State, step: Step, k: nat): seq<Move> {
    match step
    case Register(_, _) => []
    case Ingest(dev, se) =>
      if Verdict(c, st, dev, se).Ok? && Credit(se.e) > 0 && k >= 5
      then [Move(st.devices[dev].accountId, DevEarn(Credit(se.e)), Some(se.e.id))] else []
    case Redeem(acct, _, amount) =>
      var p := PayoutFor(st, acct, amount);
      if p.Some? && k >= 3 then [Move(p.value.acct, -p.value.amount, None)] else []
  }

  function AllMoves(c: Crypto, ops: seq<Op>): seq<Move> {
    if ops == [] then []
    else
      var st := StateAfter(c, Init(ops));
      AllMoves(c, Init(ops)) + Moves(c, st, Last(ops).step, |Written(c, st, Last(ops))|)
  }

  function MovedTo(moves: seq<Move>, acct: string): int {
    if moves == [] then 0 else MovedTo(Init(moves), acct) + (if Last(moves).acct == acct then Last(moves).amount else 0)
  }

  /** The balance table is the sum of its moves, and no event moved it twice. */
  ghost predicate MovesOnce(st: State, moves: seq<Move>) {
    && (forall acct :: At(st.balances, acct) == MovedTo(moves, acct))
    && (forall i :: 0 <= i < |moves| && moves[i].event.Some? ==> moves[i].event.value in st.seen)
    && (forall i, j :: 0 <= i < j < |moves| && moves[i].event.Some? ==> moves[i].event != moves[j].event)
  }

  lemma {:induction false} MovesAppend(moves: seq<Move>, m: Move, acct: string)
    ensures MovedTo(moves + [m], acct) == MovedTo(moves, acct) + (if m.acct == acct then m.amount else 0)
  {
    assert Init(moves + [m]) == moves;
  }

  /** `ms`, at most one move, is all that changed on the balance table. */
  ghost predicate Moved(st: State, st': State, ms: seq<Move>) {
    && |ms| <= 1
    && (forall acct :: At(st'.balances, acct) == At(st.balances, acct) + (if ms != [] && ms[0].acct == acct then ms[0].amount else 0))
    && st.seen <= st'.seen
    && (ms != [] && ms[0].event.Some? ==> ms[0].event.value in st'.seen && ms[0].event.value !in st.seen)
  }

  lemma {:induction false} PrefixMoves(c: Crypto, st: State, step: Step, k: nat)
    requires k <= |Writes(c, st, step)|
    ensures Moved(st, Effects(st, Writes(c, st, step)[..k]), Moves(c, st, step, k))
  {
    match step {
      case Register(_, _) => QuietEffects(st, Writes(c, st, step)[..k]);
      case Ingest(dev, se) => PrefixMovesIngest(c, st, dev, se, k);
      case Redeem(acct, _, amount) =>
        if PayoutFor(st, acct, amount).Some? {
          RedeemPrefix(c, st, step, k);
        } else {
          assert Writes(c, st, step)[..k] == [];
        }
    }
  }

  lemma {:induction false} PrefixMovesIngest(c: Crypto, st: State, dev: string, se: SignedEvent, k: nat)
    requires k <= |Writes(c, st, Ingest(dev, se))|
    ensures Moved(st, Effects(st, Writes(c, st, Ingest(dev, se))[..k]), Moves(c, st, Ingest(dev, se), k))
  {
    if Verdict(c, st, dev, se).Ok? && Credit(se.e) > 0 {
      AcceptPrefix(c, st, dev, st.devices[dev], se.e, k);
    } else {
      QuietEffects(st, Writes(c, st, Ingest(dev, se))[..k]);
    }
  }

  /** Writes that set no balance change none and forget no seen id. */
  lemma {:induction false} QuietEffects(st: State, ws: seq<Write>)
    requires forall w :: w in ws ==> !w.SetBalance?
    ensures Moved(st, Effects(st, ws), [])
    decreases |ws|
  {
    if ws == [] {
    } else {
      assert ws[0] in ws;
      QuietEffects(Effect(st, ws[0]), ws[1..]);
    }
  }

  lemma {:induction false} MovesOnceStep(st: State, moves: seq<Move>, st': State, ms: seq<Move>)
    requires MovesOnce(st, moves) && Moved(st, st', ms)
    ensures MovesOnce(st', moves + ms)
  {
    if ms == [] {
      assert moves + ms == moves;
    } else {
      assert moves + ms == moves + [ms[0]];
      forall acct ensures At(st'.balances, acct) == MovedTo(moves + ms, acct) {
        MovesAppend(moves, ms[0], acct);
      }
    }
  }

  /** Over every run with stops between any two writes, re-registrations and
      resends included, an event's earnings reach the balance table at most
      once, and nothing but earnings and redemptions ever moves a balance. */
  lemma {:induction false} EarnedAtMostOnce(c: Crypto, ops: seq<Op>)
    ensures MovesOnce(StateAfter(c, ops), AllMoves(c, ops))
  {
    if ops == [] {
    } else {
      EarnedAtMostOnce(c, Init(ops));
      var st, op := StateAfter(c, Init(ops)), Last(ops);
      var ws, k := Writes(c, st, op.step), |Written(c, st, op)|;
      assert Written(c, st, op) == ws[..k];
      PrefixMoves(c, st, op.step, k);
      MovesOnceStep(st, AllMoves(c, Init(ops)), StateAfter(c, ops), Moves(c, st, op.step, k));
    }
  }
}
