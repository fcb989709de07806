/** The durable store (server/spnr-server/src/db.rs): its tables, the one-row
    statements that write them, and the load that rebuilds memory. */
module Store {
  import opened Basics
  import opened Proto
  import opened Server
  import opened ServerRuns

  datatype DeviceRow = DeviceRow(pubkeyHex: string, accountId: string, chainHead: string, ctrHead: Option<nat>)

  datatype RedemptionRow = RedemptionRow(amountMicros: int, rail: string)

  /** Tables keyed by their primary key; the ledger in order of its `seq`. */
  datatype Tables = Tables(
    devices: map<string, DeviceRow>,
    ledger: seq<LedgerEntry>,
    redemptions: map<string, RedemptionRow>,
    seenEvents: set<string>,
    balances: map<string, int>,
    impressions: map<string, nat>,
    kv: map<string, nat>)

  const NO_ROWS := Tables(map[], [], map[], {}, map[], map[], map[])

  function RowOf(rec: DeviceRec): DeviceRow {
    DeviceRow(HexEncode(rec.pubkey), rec.accountId, rec.chainHead, rec.ctrHead)
  }

  /** One statement on the tables. Inserting a redemption under a taken id is
      an error that the server only logs. */
  function Execute(t: Tables, w: Write): Tables {
    match w
    case UpsertDevice(dev, rec) => t.(devices := t.devices[dev := RowOf(rec)])
    case EnsureBalance(acct) => if acct in t.balances then t else t.(balances := t.balances[acct := 0])
    case EnsureImpressions(acct) => if acct in t.impressions then t else t.(impressions := t.impressions[acct := 0])
    case UpdateHead(dev, head, ctr) =>
      if dev in t.devices then t.(devices := t.devices[dev := t.devices[dev].(chainHead := head, ctrHead := ctr)]) else t
    case InsertSeen(id) => t.(seenEvents := t.seenEvents + {id})
    case InsertLedger(entry) => t.(ledger := t.ledger + [entry])
    case SetBalance(acct, micros) => t.(balances := t.balances[acct := micros])
    case SetImpressions(acct, n) => t.(impressions := t.impressions[acct := n])
    case InsertRedemption(r) =>
      if r.id in t.redemptions then t else t.(redemptions := t.redemptions[r.id := RedemptionRow(r.amountMicros, r.rail)])
    case SetAccepted(n) => t.(kv := t.kv["accepted" := n])
    case SetRejected(n) => t.(kv := t.kv["rejected" := n])
  }

  function ExecuteAll(t: Tables, ws: seq<Write>): Tables
    decreases |ws|
  {
    if ws == [] then t else ExecuteAll(Execute(t, ws[0]), ws[1..])
  }

  function KvGet(t: Tables, k: string): nat {
    if k in t.kv then t.kv[k] else 0
  }

  // ------------------------------------------------------- redemption ids

  const RDM: string := "rdm_"
  /** Rows whose id is not `rdm_` and a number sort last. */
  const LAST_KEY: nat := 0xFFFF_FFFF_FFFF_FFFF

  function NumberOf(id: string): Option<nat> {
    if RDM <= id then ParseDecimal(id[4..]) else None
  }

  function SortKey(r: Redemption): nat {
    NumberOf(r.id).GetOr(LAST_KEY)
  }

  lemma {:induction false} NumberOfId(k: nat)
    ensures NumberOf(RedemptionId(k)) == Some(k)
  {
    DecimalRoundTrip(k);
    assert RedemptionId(k)[4..] == Decimal(k);
  }

  // ------------------------------------------------------------- refinement

  /** The redemptions are the rows, each once, in some order. */
  ghost predicate StoresRedemptions(rs: seq<Redemption>, rows: map<string, RedemptionRow>) {
    && |rows| == |rs|
    && (forall i :: 0 <= i < |rs| ==> RowMatches(rs[i], rows))
    && (forall i, j :: 0 <= i < j < |rs| ==> rs[i].id != rs[j].id)
  }

  predicate RowMatches(r: Redemption, rows: map<string, RedemptionRow>) {
    r.id in rows && rows[r.id] == RedemptionRow(r.amountMicros, r.rail)
  }

  lemma {:induction false} IdsFillRows(rs: seq<Redemption>, keys: set<string>)
    requires |keys| == |rs|
    requires forall i :: 0 <= i < |rs| ==> rs[i].id in keys
    requires forall i, j :: 0 <= i < j < |rs| ==> rs[i].id != rs[j].id
    ensures forall id :: id in keys ==> exists i :: 0 <= i < |rs| && rs[i].id == id
  {
    if rs == [] {
    } else {
      var last := Last(rs).id;
      IdsFillRows(Init(rs), keys - {last});
      forall id | id in keys ensures exists i :: 0 <= i < |rs| && rs[i].id == id {
        if id == last {
          assert rs[|rs| - 1].id == id;
        } else {
          assert id in keys - {last};
          var i :| 0 <= i < |Init(rs)| && Init(rs)[i].id == id;
          assert rs[i].id == id;
        }
      }
    }
  }

  /** As many rows as redemptions: every row is one of them. */
  lemma {:induction false} RowIndex(rs: seq<Redemption>, rows: map<string, RedemptionRow>, id: string) returns (i: nat)
    requires StoresRedemptions(rs, rows) && id in rows
    ensures i < |rs| && rs[i].id == id
  {
    assert |rows.Keys| == |rows|;
    assert forall i :: 0 <= i < |rs| ==> RowMatches(rs[i], rows);
    IdsFillRows(rs, rows.Keys);
    i :| 0 <= i < |rs| && rs[i].id == id;
  }

  ghost predicate StoresDevices(devices: map<string, DeviceRec>, rows: map<string, DeviceRow>) {
    devices.Keys == rows.Keys && forall dev :: dev in devices ==> rows[dev] == RowOf(devices[dev])
  }

  /** The tables hold exactly this state. */
  ghost predicate Stores(st: State, t: Tables) {
    && StoresDevices(st.devices, t.devices)
    && StoresRedemptions(st.redemptions, t.redemptions)
    && t.ledger == st.ledger && t.seenEvents == st.seen
    && t.balances == st.balances && t.impressions == st.impressions
    && KvGet(t, "accepted") == st.accepted && KvGet(t, "rejected") == st.rejected
  }

  /** Writes the server issues: decodable keys and the next redemption id. */
  predicate Issued(c: Crypto, st: State, w: Write) {
    && (w.UpsertDevice? ==> KeyStorable(c, w.rec.pubkey))
    && (w.InsertRedemption? ==> w.r.id == RedemptionId(st.nextRedemptionId))
  }

  lemma {:induction false} FreshRedemptionId(c: Crypto, st: State, t: Tables)
    requires Storable(c, st) && Stores(st, t)
    ensures RedemptionId(st.nextRedemptionId) !in t.redemptions
  {
    var id := RedemptionId(st.nextRedemptionId);
    if id in t.redemptions {
      var i := RowIndex(st.redemptions, t.redemptions, id);
      NumberOfId(i + 1);
      NumberOfId(st.nextRedemptionId);
    }
  }

  lemma {:induction false} StoresNewRedemption(rs: seq<Redemption>, rows: map<string, RedemptionRow>, r: Redemption)
    requires StoresRedemptions(rs, rows) && r.id !in rows
    ensures StoresRedemptions(rs + [r], rows[r.id := RedemptionRow(r.amountMicros, r.rail)])
  {
    assert forall i :: 0 <= i < |rs| ==> RowMatches(rs[i], rows);
  }

  lemma {:induction false} StoresNewDevice(devices: map<string, DeviceRec>, rows: map<string, DeviceRow>, dev: string, rec: DeviceRec)
    requires StoresDevices(devices, rows)
    ensures StoresDevices(devices[dev := rec], rows[dev := RowOf(rec)])
  {
  }

  lemma {:induction false} StorableEffect(c: Crypto, st: State, w: Write)
    requires Storable(c, st) && Issued(c, st, w)
    ensures Storable(c, Effect(st, w))
  {
    KeysStorableEffect(c, st, w);
    if w.InsertRedemption? {
      assert Numbered(st.redemptions + [w.r]);
    }
  }

  lemma {:induction false} KeysStorableEffect(c: Crypto, st: State, w: Write)
    requires Storable(c, st) && Issued(c, st, w)
    ensures KeysStorable(c, Effect(st, w).devices)
    ensures !w.InsertRedemption? ==> Effect(st, w).redemptions == st.redemptions && Effect(st, w).nextRedemptionId == st.nextRedemptionId
  {
  }

  /** Each single write keeps memory and store in step. */
  lemma {:induction false} StoresWrite(c: Crypto, st: State, t: Tables, w: Write)
    requires Storable(c, st) && Stores(st, t) && Issued(c, st, w)
    ensures Stores(Effect(st, w), Execute(t, w))
  {
    match w {
      case UpsertDevice(_, _) => StoresDeviceWrite(st, t, w);
      case UpdateHead(_, _, _) => StoresDeviceWrite(st, t, w);
      case InsertRedemption(_) =>
        FreshRedemptionId(c, st, t);
        StoresRedemptionWrite(st, t, w);
      case SetAccepted(_) => StoresTally(st, t, w);
      case SetRejected(_) => StoresTally(st, t, w);
      case _ => StoresAccountWrite(st, t, w);
    }
  }

  lemma {:induction false} StoresDeviceWrite(st: State, t: Tables, w: Write)
    requires Stores(st, t) && (w.UpsertDevice? || w.UpdateHead?)
    ensures Stores(Effect(st, w), Execute(t, w))
  {
    if w.UpsertDevice? {
      StoresNewDevice(st.devices, t.devices, w.dev, w.rec);
    } else if w.dev in st.devices {
      StoresNewDevice(st.devices, t.devices, w.dev, st.devices[w.dev].(chainHead := w.head, ctrHead := w.ctr));
    }
  }

  lemma {:induction false} StoresRedemptionWrite(st: State, t: Tables, w: Write)
    requires Stores(st, t) && w.InsertRedemption? && w.r.id !in t.redemptions
    ensures Stores(Effect(st, w), Execute(t, w))
  {
    StoresNewRedemption(st.redemptions, t.redemptions, w.r);
  }

  lemma {:induction false} StoresTally(st: State, t: Tables, w: Write)
    requires Stores(st, t) && (w.SetAccepted? || w.SetRejected?)
    ensures Stores(Effect(st, w), Execute(t, w))
  {
    KvUpdate(t, w.n);
  }

  /** Seen ids, ledger rows, balances and impressions mirror memory directly. */
  lemma {:induction false} StoresAccountWrite(st: State, t: Tables, w: Write)
    requires Stores(st, t)
    requires w.EnsureBalance? || w.EnsureImpressions? || w.InsertSeen? || w.InsertLedger? || w.SetBalance? || w.SetImpressions?
    ensures Stores(Effect(st, w), Execute(t, w))
  {
  }

  lemma {:induction false} KvUpdate(t: Tables, n: nat)
    ensures var t' := t.(kv := t.kv["accepted" := n]);
      KvGet(t', "accepted") == n && KvGet(t', "rejected") == KvGet(t, "rejected")
    ensures var t' := t.(kv := t.kv["rejected" := n]);
      KvGet(t', "rejected") == n && KvGet(t', "accepted") == KvGet(t, "accepted")
  {
    assert "accepted"[0] != "rejected"[0];
  }

  /** Any first part of a step's writes, all of them included, takes the store
      exactly where its effects take the state. */
  lemma {:induction false} StoresPrefix(c: Crypto, st: State, t: Tables, step: Step, k: nat)
    requires Storable(c, st) && Stores(st, t) && k <= |Writes(c, st, step)|
    ensures var ws := Writes(c, st, step)[..k];
      Stores(Effects(st, ws), ExecuteAll(t, ws)) && Storable(c, Effects(st, ws))
  {
    var ws := Writes(c, st, step);
    if k > 0 {
      StoresPrefix(c, st, t, step, k - 1);
      EffectsUpTo(st, ws, k - 1);
      ExecuteUpTo(t, ws, k - 1);
      WritesIssued(c, st, step, k - 1);
      var st1, t1 := Effects(st, ws[..k - 1]), ExecuteAll(t, ws[..k - 1]);
      StoresWrite(c, st1, t1, ws[k - 1]);
      StorableEffect(c, st1, ws[k - 1]);
    } else {
      assert ws[..0] == [];
    }
  }

  lemma {:induction false} ExecuteUpTo(t: Tables, ws: seq<Write>, k: nat)
    requires k < |ws|
    ensures ExecuteAll(t, ws[..k + 1]) == Execute(ExecuteAll(t, ws[..k]), ws[k])
  {
    assert ws[..k + 1] == ws[..k] + [ws[k]];
    ExecuteConcat(t, ws[..k], ws[k]);
  }

  lemma {:induction false} ExecuteConcat(t: Tables, a: seq<Write>, w: Write)
    ensures ExecuteAll(t, a + [w]) == Execute(ExecuteAll(t, a), w)
    decreases |a|
  {
    if a == [] {
      assert a + [w] == [w];
      assert ExecuteAll(t, [w]) == ExecuteAll(Execute(t, w), [w][1..]);
    } else {
      ExecuteConcat(Execute(t, a[0]), a[1..], w);
      assert (a + [w])[1..] == a[1..] + [w];
    }
  }

  /** Every write of a step is well issued in the state before it. */
  lemma {:induction false} WritesIssued(c: Crypto, st: State, step: Step, i: nat)
    requires i < |Writes(c, st, step)|
    ensures var ws := Writes(c, st, step); Issued(c, Effects(st, ws[..i]), ws[i])
  {
    var ws := Writes(c, st, step);
    if ws[i].InsertRedemption? {
      RedemptionWriteAt(c, st, step, i);
      assert ws[..1] == [ws[0]];
      assert Effects(st, [ws[0]]) == Effects(Effect(st, ws[0]), [ws[0]][1..]);
    }
  }

  lemma {:induction false} RedemptionWriteAt(c: Crypto, st: State, step: Step, i: nat)
    requires i < |Writes(c, st, step)| && Writes(c, st, step)[i].InsertRedemption?
    ensures step.Redeem? && i == 1 && Writes(c, st, step)[0].InsertLedger?
    ensures Writes(c, st, step)[1].r.id == RedemptionId(st.nextRedemptionId)
  {
  }

  // ---------------------------------------------------------------- loading

  ghost predicate SortedByNumber(rs: seq<Redemption>) {
    forall i, j :: 0 <= i < j < |rs| ==> SortKey(rs[i]) <= SortKey(rs[j])
  }

  /** `max` is the largest number among the redemption ids, 0 if there is none. */
  ghost predicate IsMaxNumber(rows: map<string, RedemptionRow>, max: nat) {
    && (forall id :: id in rows ==> NumberOf(id).GetOr(0) <= max)
    && (max == 0 || exists id :: id in rows && NumberOf(id) == Some(max))
  }

  function RecOf(row: DeviceRow, key: string): DeviceRec {
    DeviceRec(key, row.accountId, row.chainHead, row.ctrHead)
  }

  /** Rows whose key does not decode are skipped. */
  ghost predicate LoadsDevices(c: Crypto, rows: map<string, DeviceRow>, devices: map<string, DeviceRec>) {
    && (forall dev :: dev in devices <==> dev in rows && DecodePubkey(c, rows[dev].pubkeyHex).Some?)
    && (forall dev :: dev in devices ==> devices[dev] == RecOf(rows[dev], DecodePubkey(c, rows[dev].pubkeyHex).value))
  }

  ghost predicate LoadsRedemptions(rows: map<string, RedemptionRow>, rs: seq<Redemption>) {
    StoresRedemptions(rs, rows) && SortedByNumber(rs)
  }

  /** What `load` may return: rows come in any order, and the redemptions are
      sorted by number afterwards. */
  ghost predicate IsLoad(c: Crypto, t: Tables, m: State) {
    && LoadsDevices(c, t.devices, m.devices)
    && m.seen == t.seenEvents && m.ledger == t.ledger
    && m.balances == t.balances && m.impressions == t.impressions
    && m.accepted == KvGet(t, "accepted") && m.rejected == KvGet(t, "rejected")
    && LoadsRedemptions(t.redemptions, m.redemptions)
    && m.nextRedemptionId >= 1 && IsMaxNumber(t.redemptions, m.nextRedemptionId - 1)
  }

  lemma {:induction false} KeyRoundTrip(c: Crypto, key: string)
    requires KeyStorable(c, key)
    ensures DecodePubkey(c, HexEncode(key)) == Some(key)
  {
    HexRoundTrip(key);
  }

  /** No stored key fails to decode, so no device row is ever skipped. */
  lemma {:induction false} LoadRebuildsDevices(c: Crypto, kept: map<string, DeviceRec>, rows: map<string, DeviceRow>, devices: map<string, DeviceRec>)
    requires KeysStorable(c, kept) && StoresDevices(kept, rows) && LoadsDevices(c, rows, devices)
    ensures devices == kept
  {
    forall dev | dev in kept ensures dev in devices && devices[dev] == kept[dev] {
      KeyRoundTrip(c, kept[dev].pubkey);
      assert rows[dev] == RowOf(kept[dev]);
    }
    assert devices.Keys == kept.Keys;
  }

  /** Reloading the tables of a state gives back that state: devices, seen ids,
      ledger order, balances, impressions, tallies, the order of redemptions
      through the numeric sort, and the next redemption id. */
  lemma {:induction false} LoadRebuilds(c: Crypto, st: State, t: Tables, m: State)
    requires Storable(c, st) && Stores(st, t) && IsLoad(c, t, m)
    ensures m == st
  {
    LoadRebuildsDevices(c, st.devices, t.devices, m.devices);
    LoadRebuildsRedemptions(st.redemptions, t.redemptions, m.redemptions, m.nextRedemptionId);
  }

  lemma {:induction false} LoadRebuildsRedemptions(rs: seq<Redemption>, rows: map<string, RedemptionRow>, loaded: seq<Redemption>, next: nat)
    requires Numbered(rs) && StoresRedemptions(rs, rows) && LoadsRedemptions(rows, loaded)
    requires next >= 1 && IsMaxNumber(rows, next - 1)
    ensures loaded == rs && next == |rs| + 1
  {
    SortRestoresOrder(rs, rows, loaded);
    MaxIsCount(rs, rows, next - 1);
  }

  lemma {:induction false} NumbersOfRows(rs: seq<Redemption>, rows: map<string, RedemptionRow>, id: string)
    requires Numbered(rs) && StoresRedemptions(rs, rows) && id in rows
    ensures NumberOf(id).Some? && 1 <= NumberOf(id).value <= |rs| && id == RedemptionId(NumberOf(id).value)
  {
    var i := RowIndex(rs, rows, id);
    NumberOfId(i + 1);
  }

  lemma {:induction false} MaxIsCount(rs: seq<Redemption>, rows: map<string, RedemptionRow>, max: nat)
    requires Numbered(rs) && StoresRedemptions(rs, rows) && IsMaxNumber(rows, max)
    ensures max == |rs|
  {
    if rs != [] {
      NumberOfId(|rs|);
      assert RowMatches(rs[|rs| - 1], rows);
    }
    if max > 0 {
      var id :| id in rows && NumberOf(id) == Some(max);
      NumbersOfRows(rs, rows, id);
    }
  }

  lemma {:induction false} SortedKeys(rs: seq<Redemption>, rows: map<string, RedemptionRow>, sorted: seq<Redemption>) returns (keys: seq<nat>)
    requires Numbered(rs) && StoresRedemptions(rs, rows)
    requires LoadsRedemptions(rows, sorted)
    ensures |keys| == |rows| && (forall i, j :: 0 <= i < j < |rows| ==> keys[i] < keys[j])
    ensures forall i :: 0 <= i < |rows| ==> 1 <= keys[i] <= |rows| && sorted[i].id == RedemptionId(keys[i])
  {
    var n := |rows|;
    keys := seq(n, i requires 0 <= i < n => SortKey(sorted[i]));
    forall i | 0 <= i < n ensures 1 <= keys[i] <= n && sorted[i].id == RedemptionId(keys[i]) {
      assert RowMatches(sorted[i], rows);
      NumbersOfRows(rs, rows, sorted[i].id);
    }
    forall i, j | 0 <= i < j < n ensures keys[i] < keys[j] {
      assert sorted[i].id != sorted[j].id;
      assert SortKey(sorted[i]) <= SortKey(sorted[j]);
    }
  }

  /** Only one order of the rows is sorted by number: the order of redeeming. */
  lemma {:induction false} SortRestoresOrder(rs: seq<Redemption>, rows: map<string, RedemptionRow>, sorted: seq<Redemption>)
    requires Numbered(rs) && StoresRedemptions(rs, rows)
    requires LoadsRedemptions(rows, sorted)
    ensures sorted == rs
  {
    var n := |rows|;
    var keys := SortedKeys(rs, rows, sorted);
    forall i | 0 <= i < n ensures sorted[i] == rs[i] {
      KeyGap(keys, 0, i);
      KeyGap(keys, i, n - 1);
      assert keys[i] == i + 1;
      assert RowMatches(sorted[i], rows) && RowMatches(rs[i], rows);
    }
  }

  lemma {:induction false} KeyGap(keys: seq<nat>, i: nat, j: nat)
    requires i <= j < |keys|
    requires forall a, b :: 0 <= a < b < |keys| ==> keys[a] < keys[b]
    ensures keys[j] - keys[i] >= j - i
  {
    if i < j {
      KeyGap(keys, i, j - 1);
      assert keys[j - 1] < keys[j];
    }
  }
}
