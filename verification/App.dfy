/** The running server: `Connection` is the SQLite store whose rows the helpers
    update in place, `AppState` the in-memory view that writes through to it. */
module App {
  import opened Basics
  import opened Proto
  import opened Server
  import opened ServerRuns
  import opened Store

  // ============================================================== the store

  class Connection {
    var devices: map<string, DeviceRow>
    var ledger: seq<LedgerEntry>
    var redemptions: map<string, RedemptionRow>
    var seenEvents: set<string>
    var balances: map<string, int>
    var impressions: map<string, nat>
    var kv: map<string, nat>

    ghost function View(): Tables
      reads this
    {
      Tables(devices, ledger, redemptions, seenEvents, balances, impressions, kv)
    }

    /** A fresh database. */
    constructor ()
      ensures View() == NO_ROWS
    {
      devices, ledger, redemptions, seenEvents := map[], [], map[], {};
      balances, impressions, kv := map[], map[], map[];
    }

    method Upsert(dev: string, rec: DeviceRec)
      modifies this
      ensures View() == Execute(old(View()), UpsertDevice(dev, rec))
    {
      devices := devices[dev := DeviceRow(HexEncode(rec.pubkey), rec.accountId, rec.chainHead, rec.ctrHead)];
    }

    method UpdateDeviceHead(dev: string, head: string, ctr: Option<nat>)
      modifies this
      ensures View() == Execute(old(View()), UpdateHead(dev, head, ctr))
    {
      if dev in devices {
        devices := devices[dev := devices[dev].(chainHead := head, ctrHead := ctr)];
      }
    }

    method EnsureBalanceRow(acct: string)
      modifies this
      ensures View() == Execute(old(View()), EnsureBalance(acct))
    {
      if acct !in balances {
        balances := balances[acct := 0];
      }
    }

    method EnsureImpressionsRow(acct: string)
      modifies this
      ensures View() == Execute(old(View()), EnsureImpressions(acct))
    {
      if acct !in impressions {
        impressions := impressions[acct := 0];
      }
    }

    method PutBalance(acct: string, micros: int)
      modifies this
      ensures View() == Execute(old(View()), SetBalance(acct, micros))
    {
      balances := balances[acct := micros];
    }

    method PutImpressions(acct: string, n: nat)
      modifies this
      ensures View() == Execute(old(View()), SetImpressions(acct, n))
    {
      impressions := impressions[acct := n];
    }

    method AppendLedger(entry: LedgerEntry)
      modifies this
      ensures View() == Execute(old(View()), InsertLedger(entry))
    {
      ledger := ledger + [entry];
    }

    method AddSeen(id: string)
      modifies this
      ensures View() == Execute(old(View()), InsertSeen(id))
    {
      seenEvents := seenEvents + {id};
    }

    method AddRedemption(r: Redemption)
      modifies this
      ensures View() == Execute(old(View()), InsertRedemption(r))
    {
      if r.id !in redemptions {
        redemptions := redemptions[r.id := RedemptionRow(r.amountMicros, r.rail)];
      }
    }

    method PutAccepted(n: nat)
      modifies this
      ensures View() == Execute(old(View()), SetAccepted(n))
    {
      kv := kv["accepted" := n];
    }

    method PutRejected(n: nat)
      modifies this
      ensures View() == Execute(old(View()), SetRejected(n))
    {
      kv := kv["rejected" := n];
    }

    /** Rebuilds memory from the rows, which come in no particular order. */
    method Load(c: Crypto) returns (m: State)
      ensures IsLoad(c, View(), m)
    {
      var devs := LoadDevices(c, devices);
      var rs, max := LoadRedemptions(redemptions);
      rs := SortByNumber(rs, redemptions);
      var accepted := if "accepted" in kv then kv["accepted"] else 0;
      var rejected := if "rejected" in kv then kv["rejected"] else 0;
      m := State(devs, seenEvents, ledger, balances, impressions, accepted, rejected, rs, max + 1);
    }
  }

  method LoadDevices(c: Crypto, rows: map<string, DeviceRow>) returns (devices: map<string, DeviceRec>)
    ensures LoadsDevices(c, rows, devices)
  {
    devices := map[];
    var todo := rows.Keys;
    while todo != {}
      invariant todo <= rows.Keys
      invariant forall dev :: dev in devices <==> dev in rows && dev !in todo && DecodePubkey(c, rows[dev].pubkeyHex).Some?
      invariant forall dev :: dev in devices ==> devices[dev] == RecOf(rows[dev], DecodePubkey(c, rows[dev].pubkeyHex).value)
      decreases todo
    {
      var dev :| dev in todo;
      var key := DecodePubkey(c, rows[dev].pubkeyHex);
      if key.Some? {
        devices := devices[dev := DeviceRec(key.value, rows[dev].accountId, rows[dev].chainHead, rows[dev].ctrHead)];
      }
      todo := todo - {dev};
    }
  }

  /** Collects the redemption rows and the running maximum of their numbers. */
  method LoadRedemptions(rows: map<string, RedemptionRow>) returns (rs: seq<Redemption>, max: nat)
    ensures StoresRedemptions(rs, rows) && IsMaxNumber(rows, max)
  {
    rs, max := [], 0;
    var todo := rows.Keys;
    assert |rows.Keys| == |rows|;
    while todo != {}
      invariant todo <= rows.Keys && |rs| + |todo| == |rows|
      invariant forall i :: 0 <= i < |rs| ==> RowMatches(rs[i], rows) && rs[i].id !in todo
      invariant forall i, j :: 0 <= i < j < |rs| ==> rs[i].id != rs[j].id
      invariant forall id :: id in rows && id !in todo ==> NumberOf(id).GetOr(0) <= max
      invariant max == 0 || exists id :: id in rows && NumberOf(id) == Some(max)
      decreases todo
    {
      var id :| id in todo;
      var number := NumberOf(id);
      if number.Some? && number.value > max {
        max := number.value;
      }
      rs := rs + [Redemption(id, rows[id].amountMicros, rows[id].rail)];
      todo := todo - {id};
    }
  }

  /** Stable insertion by number. */
  function Insert(rs: seq<Redemption>, r: Redemption): seq<Redemption> {
    if rs == [] || SortKey(Last(rs)) <= SortKey(r) then rs + [r]
    else Insert(Init(rs), r) + [Last(rs)]
  }

  lemma {:induction false} InsertSorted(rs: seq<Redemption>, r: Redemption)
    requires SortedByNumber(rs)
    ensures SortedByNumber(Insert(rs, r)) && |Insert(rs, r)| == |rs| + 1
    ensures forall x :: x in Insert(rs, r) <==> x in rs || x == r
  {
    if rs == [] {
    } else {
      assert rs == Init(rs) + [Last(rs)];
      if SortKey(Last(rs)) > SortKey(r) {
        InsertSorted(Init(rs), r);
        forall x | x in Insert(Init(rs), r) ensures SortKey(x) <= SortKey(Last(rs)) {
        }
      }
    }
  }

  lemma {:induction false} InsertDistinct(rs: seq<Redemption>, r: Redemption)
    requires SortedByNumber(rs)
    requires forall i, j :: 0 <= i < j < |rs| ==> rs[i].id != rs[j].id
    requires forall i :: 0 <= i < |rs| ==> rs[i].id != r.id
    ensures var out := Insert(rs, r); forall i, j :: 0 <= i < j < |out| ==> out[i].id != out[j].id
  {
    if rs != [] && SortKey(Last(rs)) > SortKey(r) {
      InsertDistinct(Init(rs), r);
      InsertSorted(Init(rs), r);
      forall x | x in Insert(Init(rs), r) ensures x.id != Last(rs).id {
      }
    }
  }

  method SortByNumber(rs: seq<Redemption>, ghost rows: map<string, RedemptionRow>) returns (out: seq<Redemption>)
    requires StoresRedemptions(rs, rows)
    ensures LoadsRedemptions(rows, out)
  {
    out := [];
    for i := 0 to |rs|
      invariant |out| == i && SortedByNumber(out)
      invariant forall x :: x in out <==> x in rs[..i]
      invariant forall a, b :: 0 <= a < b < |out| ==> out[a].id != out[b].id
    {
      forall a | 0 <= a < |out| ensures out[a].id != rs[i].id {
        assert out[a] in rs[..i];
      }
      InsertSorted(out, rs[i]);
      InsertDistinct(out, rs[i]);
      out := Insert(out, rs[i]);
      assert rs[..i + 1] == rs[..i] + [rs[i]];
    }
    forall a | 0 <= a < |out| ensures RowMatches(out[a], rows) {
      assert out[a] in rs[..|rs|];
    }
  }

  // ======================================================= checks and totals

  /** The per-account net map of any list of entries is what the entries say
      and sums to zero, transfers from an account to itself included. */
  method NetPerAccount(ledger: seq<LedgerEntry>) returns (net: map<string, int>)
    ensures forall acct :: At(net, acct) == Net(ledger, acct)
    ensures Total(net) == 0
  {
    net := map[];
    for i := 0 to |ledger|
      invariant forall acct :: At(net, acct) == Net(ledger[..i], acct)
      invariant Total(net) == 0
    {
      var e := ledger[i];
      assert Init(ledger[..i + 1]) == ledger[..i];
      TotalUpdate(net, e.debit, At(net, e.debit) - e.amountMicros);
      net := net[e.debit := At(net, e.debit) - e.amountMicros];
      TotalUpdate(net, e.credit, At(net, e.credit) + e.amountMicros);
      net := net[e.credit := At(net, e.credit) + e.amountMicros];
    }
    assert ledger[..|ledger|] == ledger;
  }

  /** The balance check of the ledger holds for every list of entries. */
  method LedgerSumsToZero(ledger: seq<LedgerEntry>) returns (ok: bool)
    ensures ok
  {
    var net := NetPerAccount(ledger);
    var sum := SumValues(net);
    ok := sum == 0;
  }

  /** An account with the largest balance; any one of them on a tie. */
  ghost predicate IsPrimary(balances: map<string, int>, pick: Option<string>) {
    && (pick.None? <==> balances == map[])
    && (pick.Some? ==> pick.value in balances && forall a :: a in balances ==> balances[a] <= balances[pick.value])
  }

  method PrimaryAccount(balances: map<string, int>) returns (pick: Option<string>)
    ensures IsPrimary(balances, pick)
  {
    pick := None;
    var todo := balances.Keys;
    while todo != {}
      invariant todo <= balances.Keys
      invariant pick.None? <==> todo == balances.Keys
      invariant pick.Some? ==> pick.value in balances && forall a :: a in balances && a !in todo ==> balances[a] <= balances[pick.value]
      decreases todo
    {
      var a :| a in todo;
      if pick.None? || balances[a] >= balances[pick.value] {
        pick := Some(a);
      }
      todo := todo - {a};
    }
  }

  // ========================================================== the live server

  /** Reasons of the rejected events of a request, in order. */
  function Reasons(c: Crypto, st: State, dev: string, events: seq<SignedEvent>): seq<string> {
    if events == [] then []
    else
      var v := Verdict(c, IngestedAll(c, st, dev, Init(events)), dev, Last(events));
      Reasons(c, st, dev, Init(events)) + (if v.Err? then [v.error] else [])
  }

  lemma {:induction false} IngestAccepted(c: Crypto, st: State, dev: string, se: SignedEvent)
    requires dev in st.devices && Verdict(c, st, dev, se) == Ok(st.devices[dev])
    ensures var rec := st.devices[dev];
      && Next(c, st, Ingest(dev, se)) == Accept(c, st, dev, rec, se.e).(accepted := st.accepted + 1)
      && Writes(c, st, Ingest(dev, se)) == AcceptWrites(c, st, dev, rec, se.e) + [SetAccepted(st.accepted + 1)]
  {
  }

  lemma {:induction false} IngestRejected(c: Crypto, st: State, dev: string, se: SignedEvent)
    requires Verdict(c, st, dev, se).Err?
    ensures Next(c, st, Ingest(dev, se)) == st.(rejected := st.rejected + 1)
    ensures Writes(c, st, Ingest(dev, se)) == [SetRejected(st.rejected + 1)]
  {
  }

  lemma {:induction false} RedeemCases(c: Crypto, st: State, step: Step)
    requires step.Redeem?
    ensures match PayoutFor(st, step.acct, step.amount)
      case None => Next(c, st, step) == st && Writes(c, st, step) == []
      case Some(p) =>
        var entry, r := RedeemEntry(st, p), Redemption(RedemptionId(st.nextRedemptionId), p.amount, step.rail);
        && Next(c, st, step) == st.(
             ledger := st.ledger + [entry],
             balances := st.balances[p.acct := st.balances[p.acct] - p.amount],
             redemptions := st.redemptions + [r],
             nextRedemptionId := st.nextRedemptionId + 1)
        && Writes(c, st, step) == [InsertLedger(entry), InsertRedemption(r), SetBalance(p.acct, st.balances[p.acct] - p.amount)]
  {
  }

  lemma {:induction false} BatchStep(c: Crypto, st: State, dev: string, events: seq<SignedEvent>, i: nat)
    requires i < |events|
    ensures var before := IngestedAll(c, st, dev, events[..i]);
      && IngestedAll(c, st, dev, events[..i + 1]) == Next(c, before, Ingest(dev, events[i]))
      && Reasons(c, st, dev, events[..i + 1]) == Reasons(c, st, dev, events[..i]) +
           match Verdict(c, before, dev, events[i]) { case Ok(_) => [] case Err(e) => [e] }
  {
    assert Init(events[..i + 1]) == events[..i];
  }

  lemma {:induction false} Execute3(t: Tables, a: Write, b: Write, c: Write)
    ensures ExecuteAll(t, [a, b, c]) == Execute(Execute(Execute(t, a), b), c)
  {
    assert [a, b, c][1..] == [b, c] && [b, c][1..] == [c] && [c][1..] == [];
    assert ExecuteAll(Execute(t, a), [b, c]) == ExecuteAll(Execute(Execute(t, a), b), [c]);
    assert ExecuteAll(Execute(Execute(t, a), b), [c]) == ExecuteAll(Execute(Execute(Execute(t, a), b), c), []);
  }

  class AppState {
    const crypto: Crypto
    const db: Connection
    var devices: map<string, DeviceRec>
    var seen: set<string>
    var ledger: seq<LedgerEntry>
    var balances: map<string, int>
    var impressions: map<string, nat>
    var accepted: nat
    var rejected: nat
    var redemptions: seq<Redemption>
    var nextRedemptionId: nat

    ghost function View(): State
      reads this
    {
      State(devices, seen, ledger, balances, impressions, accepted, rejected, redemptions, nextRedemptionId)
    }

    /** Memory and store agree, so a reload at any time gives back memory. */
    ghost predicate Valid()
      reads this, db
    {
      Storable(crypto, View()) && Stores(View(), db.View())
    }

    /** Opens a database and rebuilds memory from it. If the tables hold some
        state, that state is what memory holds afterwards. */
    constructor (c: Crypto, conn: Connection, ghost st: State)
      requires Storable(c, st) && Stores(st, conn.View())
      ensures crypto == c && db == conn && View() == st && Valid()
    {
      crypto := c;
      db := conn;
      var m := conn.Load(c);
      devices, seen, ledger := m.devices, m.seen, m.ledger;
      balances, impressions := m.balances, m.impressions;
      accepted, rejected := m.accepted, m.rejected;
      redemptions, nextRedemptionId := m.redemptions, m.nextRedemptionId;
      new;
      LoadRebuilds(c, st, conn.View(), m);
    }

    method HandleRegister(dev: string, pubkeyHex: string) returns (ok: bool, acct: string)
      requires Valid()
      modifies this, db
      ensures Valid() && View() == Next(crypto, old(View()), Register(dev, pubkeyHex))
      ensures db.View() == ExecuteAll(old(db.View()), Writes(crypto, old(View()), Register(dev, pubkeyHex)))
      ensures ok == DecodePubkey(crypto, pubkeyHex).Some? && acct == AccountOf(dev)
    {
      Mirrored(View(), db.View(), Register(dev, pubkeyHex));
      acct := AccountOf(dev);
      var key := DecodePubkey(crypto, pubkeyHex);
      ok := key.Some?;
      if ok {
        InsertDevice(dev, DeviceRec(key.value, acct, GENESIS_PREV, None));
      }
    }

    method InsertDevice(dev: string, rec: DeviceRec)
      modifies this, db
      ensures View() == old(View()).(
        devices := old(devices)[dev := rec],
        balances := old(balances)[rec.accountId := At(old(balances), rec.accountId)],
        impressions := old(impressions)[rec.accountId := At(old(impressions), rec.accountId)])
      ensures db.View() == ExecuteAll(old(db.View()), [UpsertDevice(dev, rec), EnsureBalance(rec.accountId), EnsureImpressions(rec.accountId)])
    {
      ghost var t := db.View();
      var acct := rec.accountId;
      devices := devices[dev := rec];
      balances := balances[acct := At(balances, acct)];
      impressions := impressions[acct := At(impressions, acct)];
      db.Upsert(dev, rec);
      db.EnsureBalanceRow(acct);
      db.EnsureImpressionsRow(acct);
      Execute3(t, UpsertDevice(dev, rec), EnsureBalance(acct), EnsureImpressions(acct));
    }

    /** Completed steps keep memory and store in agreement. */
    lemma {:induction false} Mirrored(st: State, t: Tables, step: Step)
      requires Storable(crypto, st) && Stores(st, t)
      ensures Storable(crypto, Next(crypto, st, step))
      ensures Stores(Next(crypto, st, step), ExecuteAll(t, Writes(crypto, st, step)))
    {
      var ws := Writes(crypto, st, step);
      StoresPrefix(crypto, st, t, step, |ws|);
      assert ws[..|ws|] == ws;
      StepIsItsWrites(crypto, st, step);
    }

    /** Verifies one event and, if it is accepted, advances the device, marks
        the id seen and books the impressions. The tally is the caller's. */
    method AcceptEvent(dev: string, se: SignedEvent) returns (r: Result<(), string>)
      modifies this, db
      ensures r.Ok? ==> dev in old(devices) && Verdict(crypto, old(View()), dev, se) == Ok(old(devices)[dev])
      ensures r.Ok? ==> View() == Accept(crypto, old(View()), dev, old(devices)[dev], se.e)
      ensures r.Ok? ==> db.View() == ExecuteAll(old(db.View()), AcceptWrites(crypto, old(View()), dev, old(devices)[dev], se.e))
      ensures r.Err? ==> Verdict(crypto, old(View()), dev, se) == Err(r.error)
      ensures r.Err? ==> View() == old(View()) && db.View() == old(db.View())
    {
      if dev !in devices {
        return Err("unknown device");
      }
      var rec := devices[dev];
      var sig := HexDecode(se.s);
      if sig.None? {
        return Err("sig not hex");
      }
      if !crypto.verify(se.e, sig.value, rec.pubkey) {
        return Err("bad signature");
      }
      if se.e.prev != rec.chainHead {
        return Err("chain fork/gap");
      }
      var expected := if rec.ctrHead.Some? then rec.ctrHead.value + 1 else 0;
      if se.e.ctr != expected {
        return Err("ctr not monotonic");
      }
      if se.e.id in seen {
        return Err("duplicate event id");
      }
      Book(dev, rec, se.e);
      return Ok(());
    }

    method Book(dev: string, rec: DeviceRec, e: Event)
      requires dev in devices && devices[dev] == rec
      modifies this, db
      ensures View() == Accept(crypto, old(View()), dev, rec, e)
      ensures db.View() == ExecuteAll(old(db.View()), AcceptWrites(crypto, old(View()), dev, rec, e))
    {
      ghost var st := View();
      var head := crypto.chainNext(e);
      var entries := BookMemory(dev, rec, head, e);
      WriteThrough(dev, head, e, entries, rec.accountId, AcceptWrites(crypto, st, dev, rec, e));
    }

    method BookMemory(dev: string, rec: DeviceRec, head: string, e: Event) returns (entries: seq<LedgerEntry>)
      requires dev in devices && devices[dev] == rec && head == crypto.chainNext(e)
      modifies this
      ensures View() == Accept(crypto, old(View()), dev, rec, e)
      ensures entries == ImpressionEntries(rec.accountId, e)
    {
      devices := devices[dev := rec.(chainHead := head, ctrHead := Some(e.ctr))];
      seen := seen + {e.id};
      var n := if e.ty == Imp then e.n.GetOr(0) else 0;
      entries := [];
      if n > 0 {
        entries := BookEarnings(rec.accountId, n, e.id);
      }
      ledger := ledger + entries;
    }

    /** Double entry: half of the spend to the account, the rest to the house. */
    method BookEarnings(acct: string, n: nat, id: string) returns (entries: seq<LedgerEntry>)
      modifies this`balances, this`impressions
      ensures entries == [LedgerEntry(ADVERTISER, acct, DevEarn(n), "imp_earn", id),
                          LedgerEntry(ADVERTISER, HOUSE, PRICE_PER_IMP_MICROS * n - DevEarn(n), "ad_spend_house", id)]
      ensures balances == old(balances)[acct := At(old(balances), acct) + DevEarn(n)]
      ensures impressions == old(impressions)[acct := At(old(impressions), acct) + n]
    {
      var spend := PRICE_PER_IMP_MICROS * n;
      var devEarn := spend * DEV_SHARE_NUM / DEV_SHARE_DEN;
      entries := [LedgerEntry(ADVERTISER, acct, devEarn, "imp_earn", id),
                  LedgerEntry(ADVERTISER, HOUSE, spend - devEarn, "ad_spend_house", id)];
      balances := balances[acct := At(balances, acct) + devEarn];
      impressions := impressions[acct := At(impressions, acct) + n];
    }

    /** Issues the writes of an acceptance, in order. */
    method WriteThrough(dev: string, head: string, e: Event, entries: seq<LedgerEntry>, acct: string, ghost ws: seq<Write>)
      requires |entries| == 0 || |entries| == 2
      requires |ws| == 2 + 2 * |entries| && ws[0] == UpdateHead(dev, head, Some(e.ctr)) && ws[1] == InsertSeen(e.id)
      requires forall i :: 0 <= i < |entries| ==> ws[2 + i] == InsertLedger(entries[i])
      requires entries != [] ==> ws[4] == SetBalance(acct, At(balances, acct)) && ws[5] == SetImpressions(acct, At(impressions, acct))
      modifies db
      ensures db.View() == ExecuteAll(old(db.View()), ws)
    {
      ghost var t := db.View();
      assert ws[..0] == [];
      db.UpdateDeviceHead(dev, head, Some(e.ctr));
      ExecuteUpTo(t, ws, 0);
      db.AddSeen(e.id);
      ExecuteUpTo(t, ws, 1);
      for i := 0 to |entries|
        invariant db.View() == ExecuteAll(t, ws[..2 + i])
      {
        db.AppendLedger(entries[i]);
        ExecuteUpTo(t, ws, 2 + i);
      }
      if entries != [] {
        db.PutBalance(acct, At(balances, acct));
        ExecuteUpTo(t, ws, 4);
        db.PutImpressions(acct, At(impressions, acct));
        ExecuteUpTo(t, ws, 5);
      }
      assert ws[..|ws|] == ws;
    }

    /** One signed event of a request, with its tally. */
    method IngestOne(dev: string, se: SignedEvent) returns (reason: Option<string>)
      modifies this, db
      ensures View() == Next(crypto, old(View()), Ingest(dev, se))
      ensures db.View() == ExecuteAll(old(db.View()), Writes(crypto, old(View()), Ingest(dev, se)))
      ensures reason == match Verdict(crypto, old(View()), dev, se) case Ok(_) => None case Err(e) => Some(e)
    {
      ghost var st, t := View(), db.View();
      var r := AcceptEvent(dev, se);
      if r.Ok? {
        IngestAccepted(crypto, st, dev, se);
        TallyAccepted(t, AcceptWrites(crypto, st, dev, st.devices[dev], se.e));
        reason := None;
      } else {
        IngestRejected(crypto, st, dev, se);
        TallyRejected();
        reason := Some(r.error);
      }
    }

    /** Event `i` of a request, after the ones before it. */
    method IngestNth(dev: string, events: seq<SignedEvent>, i: nat, ghost st: State) returns (reason: Option<string>)
      requires Valid() && i < |events| && View() == IngestedAll(crypto, st, dev, events[..i])
      modifies this, db
      ensures Valid() && View() == IngestedAll(crypto, st, dev, events[..i + 1])
      ensures Reasons(crypto, st, dev, events[..i + 1]) ==
              Reasons(crypto, st, dev, events[..i]) + (if reason.Some? then [reason.value] else [])
    {
      BatchStep(crypto, st, dev, events, i);
      Mirrored(View(), db.View(), Ingest(dev, events[i]));
      reason := IngestOne(dev, events[i]);
    }

    method TallyAccepted(ghost t: Tables, ghost ws: seq<Write>)
      requires db.View() == ExecuteAll(t, ws)
      modifies this`accepted, db
      ensures View() == old(View()).(accepted := old(accepted) + 1)
      ensures db.View() == ExecuteAll(t, ws + [SetAccepted(old(accepted) + 1)])
    {
      accepted := accepted + 1;
      db.PutAccepted(accepted);
      ExecuteConcat(t, ws, SetAccepted(accepted));
    }

    method TallyRejected()
      modifies this`rejected, db
      ensures View() == old(View()).(rejected := old(rejected) + 1)
      ensures db.View() == ExecuteAll(old(db.View()), [SetRejected(old(rejected) + 1)])
    {
      ghost var t := db.View();
      rejected := rejected + 1;
      db.PutRejected(rejected);
      ExecuteConcat(t, [], SetRejected(rejected));
      assert [] + [SetRejected(rejected)] == [SetRejected(rejected)];
    }

    method HandleIngest(dev: string, events: seq<SignedEvent>) returns (ok: nat, bad: nat, reasons: seq<string>)
      requires Valid()
      modifies this, db
      ensures Valid() && View() == IngestedAll(crypto, old(View()), dev, events)
      ensures reasons == Reasons(crypto, old(View()), dev, events)
      ensures ok + bad == |events| && bad == |reasons|
    {
      ok, bad, reasons := 0, 0, [];
      ghost var st := View();
      for i := 0 to |events|
        invariant Valid() && View() == IngestedAll(crypto, st, dev, events[..i])
        invariant reasons == Reasons(crypto, st, dev, events[..i])
        invariant ok + bad == i && bad == |reasons|
      {
        var reason := IngestNth(dev, events, i, st);
        if reason.None? {
          ok := ok + 1;
        } else {
          bad := bad + 1;
          reasons := reasons + [reason.value];
        }
      }
      assert events[..|events|] == events;
    }

    /** Pays out of an account with the largest balance, or refuses. */
    method HandleRedeem(rail: string, amount: Option<int>) returns (paid: Option<Redemption>, ghost pick: Option<string>)
      requires Valid()
      modifies this, db
      ensures IsPrimary(old(balances), pick)
      ensures Valid() && View() == Next(crypto, old(View()), Redeem(pick, rail, amount))
      ensures db.View() == ExecuteAll(old(db.View()), Writes(crypto, old(View()), Redeem(pick, rail, amount)))
      ensures paid.Some? <==> PayoutFor(old(View()), pick, amount).Some?
      ensures paid.Some? ==> paid.value == Last(View().redemptions) && paid.value.rail == rail
    {
      paid := None;
      var primary := PrimaryAccount(balances);
      pick := primary;
      Mirrored(View(), db.View(), Redeem(pick, rail, amount));
      RedeemCases(crypto, View(), Redeem(pick, rail, amount));
      if primary.Some? && balances[primary.value] > 0 {
        var available := balances[primary.value];
        var requested := if amount.Some? && amount.value > 0 then amount.value else available;
        if requested <= available {
          var redemption := PayOut(primary.value, requested, rail);
          paid := Some(redemption);
        }
      }
    }

    /** Books one redemption and writes it through. */
    method PayOut(acct: string, amount: int, rail: string) returns (redemption: Redemption)
      requires acct in balances
      modifies this, db
      ensures redemption == Redemption(RedemptionId(old(nextRedemptionId)), amount, rail)
      ensures var entry := RedeemEntry(old(View()), Payout(acct, amount));
        && View() == old(View()).(
             ledger := old(ledger) + [entry],
             balances := old(balances)[acct := old(balances)[acct] - amount],
             redemptions := old(redemptions) + [redemption],
             nextRedemptionId := old(nextRedemptionId) + 1)
        && db.View() == ExecuteAll(old(db.View()),
             [InsertLedger(entry), InsertRedemption(redemption), SetBalance(acct, old(balances)[acct] - amount)])
    {
      ghost var t := db.View();
      redemption := Redemption(RedemptionId(nextRedemptionId), amount, rail);
      var entry := LedgerEntry(acct, PAYOUT, amount, "redeem", redemption.id);
      PayOutMemory(acct, entry, redemption);
      db.AppendLedger(entry);
      db.AddRedemption(redemption);
      db.PutBalance(acct, balances[acct]);
      Execute3(t, InsertLedger(entry), InsertRedemption(redemption), SetBalance(acct, balances[acct]));
    }

    method PayOutMemory(acct: string, entry: LedgerEntry, redemption: Redemption)
      requires acct in balances
      modifies this
      ensures View() == old(View()).(
        ledger := old(ledger) + [entry],
        balances := old(balances)[acct := old(balances)[acct] - redemption.amountMicros],
        redemptions := old(redemptions) + [redemption],
        nextRedemptionId := old(nextRedemptionId) + 1)
    {
      nextRedemptionId := nextRedemptionId + 1;
      ledger := ledger + [entry];
      balances := balances[acct := balances[acct] - redemption.amountMicros];
      redemptions := redemptions + [redemption];
    }
  }
}
