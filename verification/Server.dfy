/** The server's requests as steps on its state (server/spnr-server/src/main.rs):
    register a device, ingest one signed event, redeem a balance. A batch is a
    sequence of ingest steps.

    `Writes` lists the store writes of a step in the order they are issued. */
module Server {
  import opened Basics
  import opened Proto

  const PRICE_PER_IMP_MICROS: int := 10_000
  const DEV_SHARE_NUM: int := 1
  const DEV_SHARE_DEN: int := 2
  const ADVERTISER: string := "acct:house"
  const HOUSE: string := "acct:house"
  const PAYOUT: string := "acct:payout"

  datatype DeviceRec = DeviceRec(pubkey: string, accountId: string, chainHead: string, ctrHead: Option<nat>)

  datatype LedgerEntry = LedgerEntry(debit: string, credit: string, amountMicros: int, kind: string, reference: string)

  datatype Redemption = Redemption(id: string, amountMicros: int, rail: string)

  datatype State = State(
    devices: map<string, DeviceRec>,
    seen: set<string>,
    ledger: seq<LedgerEntry>,
    balances: map<string, int>,
    impressions: map<string, nat>,
    accepted: nat,
    rejected: nat,
    redemptions: seq<Redemption>,
    nextRedemptionId: nat)

  const EMPTY := State(map[], {}, [], map[], map[], 0, 0, [], 1)

  /** `Redeem` carries the account the server picked, if there is any. */
  datatype Step =
    | Register(dev: string, pubkeyHex: string)
    | Ingest(dev: string, se: SignedEvent)
    | Redeem(acct: Option<string>, rail: string, amount: Option<int>)

  function AccountOf(dev: string): string {
    "acct:" + dev
  }

  function DecodePubkey(c: Crypto, hex: string): (r: Option<string>)
    ensures r.Some? ==> IsBytes(r.value) && |r.value| == 32 && c.validKey(r.value)
  {
    match HexDecode(hex)
    case Some(b) => if |b| == 32 && c.validKey(b) then Some(b) else None
    case None => None
  }

  // ---------------------------------------------------------------- register

  function Registered(c: Crypto, st: State, dev: string, hex: string): State {
    match DecodePubkey(c, hex)
    case None => st
    case Some(key) =>
      var acct := AccountOf(dev);
      st.(devices := st.devices[dev := DeviceRec(key, acct, GENESIS_PREV, None)],
          balances := st.balances[acct := At(st.balances, acct)],
          impressions := st.impressions[acct := At(st.impressions, acct)])
  }

  // ------------------------------------------------------------------ ingest

  function ExpectedCtr(rec: DeviceRec): nat {
    match rec.ctrHead case Some(k) => k + 1 case None => 0
  }

  /** The checks of `accept_event`, in order. */
  function Verdict(c: Crypto, st: State, dev: string, se: SignedEvent): Result<DeviceRec, string> {
    if dev !in st.devices then Err("unknown device")
    else
      var rec := st.devices[dev];
      match HexDecode(se.s)
      case None => Err("sig not hex")
      case Some(sig) =>
        if !c.verify(se.e, sig, rec.pubkey) then Err("bad signature")
        else if se.e.prev != rec.chainHead then Err("chain fork/gap")
        else if se.e.ctr != ExpectedCtr(rec) then Err("ctr not monotonic")
        else if se.e.id in st.seen then Err("duplicate event id")
        else Ok(rec)
  }

  /** Impressions an event is credited with. */
  function Credit(e: Event): nat {
    if e.ty == Imp then e.n.GetOr(0) else 0
  }

  function DevEarn(n: nat): int {
    PRICE_PER_IMP_MICROS * n * DEV_SHARE_NUM / DEV_SHARE_DEN
  }

  function ImpressionEntries(acct: string, e: Event): seq<LedgerEntry> {
    var n := Credit(e);
    if n > 0 then
      [LedgerEntry(ADVERTISER, acct, DevEarn(n), "imp_earn", e.id),
       LedgerEntry(ADVERTISER, HOUSE, PRICE_PER_IMP_MICROS * n - DevEarn(n), "ad_spend_house", e.id)]
    else []
  }

  function Accept(c: Crypto, st: State, dev: string, rec: DeviceRec, e: Event): State {
    var n := Credit(e);
    var acct := rec.accountId;
    var st' := st.(
      devices := st.devices[dev := rec.(chainHead := c.chainNext(e), ctrHead := Some(e.ctr))],
      seen := st.seen + {e.id},
      ledger := st.ledger + ImpressionEntries(acct, e));
    if n > 0 then
      st'.(balances := st.balances[acct := At(st.balances, acct) + DevEarn(n)],
           impressions := st.impressions[acct := At(st.impressions, acct) + n])
    else st'
  }

  function Ingested(c: Crypto, st: State, dev: string, se: SignedEvent): State {
    match Verdict(c, st, dev, se)
    case Ok(rec) => Accept(c, st, dev, rec, se.e).(accepted := st.accepted + 1)
    case Err(_) => st.(rejected := st.rejected + 1)
  }

  /** A whole request: the events in order, each against the state left by the
      one before. */
  function IngestedAll(c: Crypto, st: State, dev: string, events: seq<SignedEvent>): State {
    if events == [] then st else Ingested(c, IngestedAll(c, st, dev, Init(events)), dev, Last(events))
  }

  // ------------------------------------------------------------------ redeem

  datatype Payout = Payout(acct: string, amount: int)

  /** What a redeem request moves, or nothing if it is refused. */
  function PayoutFor(st: State, acct: Option<string>, amount: Option<int>): (p: Option<Payout>)
    ensures p.Some? ==> p.value.acct in st.balances && 0 < p.value.amount <= st.balances[p.value.acct]
    ensures p.Some? <==> acct.Some? && At(st.balances, acct.value) > 0 && amount.GetOr(0) <= At(st.balances, acct.value)
    ensures p.Some? ==> p.value == Payout(acct.value, if amount.GetOr(0) > 0 then amount.value else st.balances[acct.value])
  {
    if acct.None? || acct.value !in st.balances || st.balances[acct.value] <= 0 then None
    else
      var available := st.balances[acct.value];
      var requested := if amount.Some? && amount.value > 0 then amount.value else available;
      if requested > available then None else Some(Payout(acct.value, requested))
  }

  function RedemptionId(k: nat): string {
    "rdm_" + Decimal(k)
  }

  function RedeemEntry(st: State, p: Payout): LedgerEntry {
    LedgerEntry(p.acct, PAYOUT, p.amount, "redeem", RedemptionId(st.nextRedemptionId))
  }

  function Redeemed(st: State, acct: Option<string>, rail: string, amount: Option<int>): State {
    match PayoutFor(st, acct, amount)
    case None => st
    case Some(p) =>
      st.(ledger := st.ledger + [RedeemEntry(st, p)],
          balances := st.balances[p.acct := st.balances[p.acct] - p.amount],
          redemptions := st.redemptions + [Redemption(RedemptionId(st.nextRedemptionId), p.amount, rail)],
          nextRedemptionId := st.nextRedemptionId + 1)
  }

  function Next(c: Crypto, st: State, step: Step): State {
    match step
    case Register(dev, hex) => Registered(c, st, dev, hex)
    case Ingest(dev, se) => Ingested(c, st, dev, se)
    case Redeem(acct, rail, amount) => Redeemed(st, acct, rail, amount)
  }

  // ------------------------------------------------------------ store writes

  /** One SQL statement of the write-through, each atomic. */
  datatype Write =
    | UpsertDevice(dev: string, rec: DeviceRec)
    | EnsureBalance(acct: string)
    | EnsureImpressions(acct: string)
    | UpdateHead(dev: string, head: string, ctr: Option<nat>)
    | InsertSeen(id: string)
    | InsertLedger(entry: LedgerEntry)
    | SetBalance(acct: string, micros: int)
    | SetImpressions(acct: string, n: nat)
    | InsertRedemption(r: Redemption)
    | SetAccepted(n: nat)
    | SetRejected(n: nat)

  function LedgerWrites(entries: seq<LedgerEntry>): (ws: seq<Write>)
    ensures |ws| == |entries| && forall i :: 0 <= i < |ws| ==> ws[i] == InsertLedger(entries[i])
  {
    seq(|entries|, i requires 0 <= i < |entries| => InsertLedger(entries[i]))
  }

  function AcceptWrites(c: Crypto, st: State, dev: string, rec: DeviceRec, e: Event): seq<Write> {
    var st' := Accept(c, st, dev, rec, e);
    [UpdateHead(dev, c.chainNext(e), Some(e.ctr)), InsertSeen(e.id)]
    + LedgerWrites(ImpressionEntries(rec.accountId, e))
    + (if Credit(e) > 0
       then [SetBalance(rec.accountId, At(st'.balances, rec.accountId)), SetImpressions(rec.accountId, At(st'.impressions, rec.accountId))]
       else [])
  }

  function Writes(c: Crypto, st: State, step: Step): seq<Write> {
    match step
    case Register(dev, hex) =>
      (match DecodePubkey(c, hex)
       case None => []
       case Some(key) =>
         var acct := AccountOf(dev);
         [UpsertDevice(dev, DeviceRec(key, acct, GENESIS_PREV, None)), EnsureBalance(acct), EnsureImpressions(acct)])
    case Ingest(dev, se) =>
      (match Verdict(c, st, dev, se)
       case Ok(rec) => AcceptWrites(c, st, dev, rec, se.e) + [SetAccepted(st.accepted + 1)]
       case Err(_) => [SetRejected(st.rejected + 1)])
    case Redeem(acct, rail, amount) =>
      (match PayoutFor(st, acct, amount)
       case None => []
       case Some(p) =>
         [InsertLedger(RedeemEntry(st, p)),
          InsertRedemption(Redemption(RedemptionId(st.nextRedemptionId), p.amount, rail)),
          SetBalance(p.acct, st.balances[p.acct] - p.amount)])
  }

  /** What a write means for the state a reload would find. */
  function Effect(st: State, w: Write): State {
    match w
    case UpsertDevice(dev, rec) => st.(devices := st.devices[dev := rec])
    case EnsureBalance(acct) => if acct in st.balances then st else st.(balances := st.balances[acct := 0])
    case EnsureImpressions(acct) => if acct in st.impressions then st else st.(impressions := st.impressions[acct := 0])
    case UpdateHead(dev, head, ctr) =>
      if dev in st.devices then st.(devices := st.devices[dev := st.devices[dev].(chainHead := head, ctrHead := ctr)]) else st
    case InsertSeen(id) => st.(seen := st.seen + {id})
    case InsertLedger(entry) => st.(ledger := st.ledger + [entry])
    case SetBalance(acct, micros) => st.(balances := st.balances[acct := micros])
    case SetImpressions(acct, n) => st.(impressions := st.impressions[acct := n])
    case InsertRedemption(r) => st.(redemptions := st.redemptions + [r], nextRedemptionId := st.nextRedemptionId + 1)
    case SetAccepted(n) => st.(accepted := n)
    case SetRejected(n) => st.(rejected := n)
  }

  function Effects(st: State, ws: seq<Write>): State
    decreases |ws|
  {
    if ws == [] then st else Effects(Effect(st, ws[0]), ws[1..])
  }

  lemma {:induction false} EffectsConcat(st: State, a: seq<Write>, b: seq<Write>)
    ensures Effects(st, a + b) == Effects(Effects(st, a), b)
    decreases |a|
  {
    if a == [] {
      assert a + b == b;
    } else {
      EffectsConcat(Effect(st, a[0]), a[1..], b);
      assert (a + b)[1..] == a[1..] + b;
    }
  }

  lemma {:induction false} EffectsUpTo(st: State, ws: seq<Write>, k: nat)
    requires k < |ws|
    ensures Effects(st, ws[..k + 1]) == Effect(Effects(st, ws[..k]), ws[k])
  {
    assert ws[..k + 1] == ws[..k] + [ws[k]];
    EffectsConcat(st, ws[..k], [ws[k]]);
    assert Effects(Effects(st, ws[..k]), [ws[k]]) == Effects(Effect(Effects(st, ws[..k]), ws[k]), [ws[k]][1..]);
  }

  /** Nothing a step does to memory escapes its writes: replaying them on the
      old state gives the new one. */
  lemma {:induction false} StepIsItsWrites(c: Crypto, st: State, step: Step)
    ensures Effects(st, Writes(c, st, step)) == Next(c, st, step)
  {
    match step {
      case Register(dev, hex) => RegisterIsItsWrites(c, st, dev, hex);
      case Ingest(dev, se) =>
        match Verdict(c, st, dev, se) {
          case Ok(rec) =>
            AcceptIsItsWrites(c, st, dev, rec, se.e);
            EffectsConcat(st, AcceptWrites(c, st, dev, rec, se.e), [SetAccepted(st.accepted + 1)]);
          case Err(_) =>
        }
      case Redeem(acct, rail, amount) => RedeemIsItsWrites(c, st, step);
    }
  }

  lemma {:induction false} RegisterIsItsWrites(c: Crypto, st: State, dev: string, hex: string)
    ensures Effects(st, Writes(c, st, Register(dev, hex))) == Registered(c, st, dev, hex)
  {
    var ws := Writes(c, st, Register(dev, hex));
    if ws != [] {
      Effects3(st, ws);
      var st' := Effects(st, ws);
      assert st'.balances == Registered(c, st, dev, hex).balances;
      assert st'.impressions == Registered(c, st, dev, hex).impressions;
    }
  }

  lemma {:induction false} RedeemIsItsWrites(c: Crypto, st: State, step: Step)
    requires step.Redeem?
    ensures Effects(st, Writes(c, st, step)) == Next(c, st, step)
  {
    if PayoutFor(st, step.acct, step.amount).Some? {
      Effects3(st, Writes(c, st, step));
    }
  }

  lemma {:induction false} Effects3(st: State, ws: seq<Write>)
    requires |ws| == 3
    ensures Effects(st, ws) == Effect(Effect(Effect(st, ws[0]), ws[1]), ws[2])
  {
    var st1 := Effect(st, ws[0]);
    assert Effects(st, ws) == Effects(st1, ws[1..]);
    assert Effects(st1, ws[1..]) == Effects(Effect(st1, ws[1]), ws[2..]);
    assert Effects(Effect(st1, ws[1]), ws[2..]) == Effect(Effect(st1, ws[1]), ws[2]);
  }

  lemma {:induction false} AcceptIsItsWrites(c: Crypto, st: State, dev: string, rec: DeviceRec, e: Event)
    requires dev in st.devices && st.devices[dev] == rec
    ensures Effects(st, AcceptWrites(c, st, dev, rec, e)) == Accept(c, st, dev, rec, e)
  {
    var ws := AcceptWrites(c, st, dev, rec, e);
    if Credit(e) > 0 {
      Effects3(st, ws[..3]);
      Effects3(Effects(st, ws[..3]), ws[3..]);
      EffectsConcat(st, ws[..3], ws[3..]);
      assert ws == ws[..3] + ws[3..];
    } else {
      assert Effects(st, ws) == Effect(Effect(st, ws[0]), ws[1]) by {
        assert Effects(Effect(st, ws[0]), ws[1..]) == Effects(Effect(Effect(st, ws[0]), ws[1]), ws[2..]);
      }
    }
  }
}
