/** The daemon and a server that may stop between any two store writes of a
    request, lose its memory and reload. Between them the network does anything,
    and devices may register any number of times. */
module SystemStops {
  import opened Basics
  import opened Proto
  import opened Daemon
  import opened Server
  import D = DaemonRuns
  import S = ServerRuns
  import U = Durability
  import Sys = System

  datatype Op = ToDaemon(i: Input) | ToServer(op: U.Op)

  function Inputs(ops: seq<Op>): seq<Input> {
    if ops == [] then []
    else Inputs(Init(ops)) + (if Last(ops).ToDaemon? then [Last(ops).i] else [])
  }

  function ServerOps(ops: seq<Op>): seq<U.Op> {
    if ops == [] then []
    else ServerOps(Init(ops)) + (if Last(ops).ToServer? then [Last(ops).op] else [])
  }

  function DaemonAt(p: Sys.Party, ops: seq<Op>): DaemonState {
    D.Run(p.c, p.key, p.creative, Inputs(ops))
  }

  function ServerAt(p: Sys.Party, ops: seq<Op>): State {
    U.StateAfter(p.c, ServerOps(ops))
  }

  function LogAt(p: Sys.Party, ops: seq<Op>): seq<Event> {
    D.Events(DaemonAt(p, ops).queue)
  }

  ghost predicate Unforgeable(p: Sys.Party, ops: seq<Op>) {
    ops == [] ||
    (Unforgeable(p, Init(ops)) &&
     (Last(ops).ToServer? && Last(ops).op.step.Ingest? ==> Sys.Unforged(p, LogAt(p, Init(ops)), Last(ops).op.step.se)))
  }

  // --------------------------------------------- what reaches the impressions

  /** The operation carries a crediting event of `p.dev` far enough for its
      impressions to be stored: past the sixth write. */
  predicate Books(p: Sys.Party, st: State, op: U.Op) {
    && op.step.Ingest? && op.step.dev == p.dev
    && Verdict(p.c, st, p.dev, op.step.se).Ok? && Credit(op.step.se.e) > 0
    && |U.Written(p.c, st, op)| >= 6
  }

  predicate UnderOwnKey(p: Sys.Party, st: State) {
    p.dev in st.devices && st.devices[p.dev].pubkey == p.key.pubkey
  }

  function NewlyBooked(p: Sys.Party, st: State, op: U.Op): seq<Event> {
    if Books(p, st, op) && UnderOwnKey(p, st) then [op.step.se.e] else []
  }

  function NewlyForeign(p: Sys.Party, st: State, op: U.Op): nat {
    if Books(p, st, op) && !UnderOwnKey(p, st) then Credit(op.step.se.e) else 0
  }

  /** Events of the daemon whose impressions were stored. */
  function Booked(p: Sys.Party, ops: seq<Op>): seq<Event> {
    if ops == [] then []
    else Booked(p, Init(ops)) + (if Last(ops).ToServer? then NewlyBooked(p, ServerAt(p, Init(ops)), Last(ops).op) else [])
  }

  /** Impressions stored for the device id under other keys. */
  function Foreign(p: Sys.Party, ops: seq<Op>): nat {
    if ops == [] then 0
    else Foreign(p, Init(ops)) + (if Last(ops).ToServer? then NewlyForeign(p, ServerAt(p, Init(ops)), Last(ops).op) else 0)
  }

  // ------------------------------------------------------------- the invariant

  /** The record stands somewhere on the log: its head is the chain head of as
      many log events as its counter says. */
  predicate OnLog(p: Sys.Party, log: seq<Event>, st: State) {
    UnderOwnKey(p, st) ==>
      var rec := st.devices[p.dev];
      ExpectedCtr(rec) <= |log| && rec.chainHead == HeadOf(p.c, log[..ExpectedCtr(rec)])
  }

  ghost predicate BookedOnce(log: seq<Event>, booked: seq<Event>, st: State) {
    && (forall i :: 0 <= i < |booked| ==> booked[i] in log && booked[i].ty == Imp && booked[i].id in st.seen)
    && (forall i, j :: 0 <= i < j < |booked| ==> booked[i].id != booked[j].id)
  }

  ghost predicate Accounted(p: Sys.Party, booked: seq<Event>, foreign: nat, st: State) {
    S.AccountsKept(st) && At(st.impressions, AccountOf(p.dev)) == D.SumN(booked) + foreign
  }

  // ------------------------------------------------------ operations that credit

  /** An event accepted under the daemon's key is the one at the record's counter. */
  lemma {:induction false} AcceptedIsAt(p: Sys.Party, log: seq<Event>, st: State, se: SignedEvent)
    requires Chained(p.c, log) && Sys.Unforged(p, log, se)
    requires UnderOwnKey(p, st) && Verdict(p.c, st, p.dev, se).Ok?
    ensures var m := ExpectedCtr(st.devices[p.dev]); m < |log| && log[m] == se.e && se.e.ctr == m
  {
    var m :| 0 <= m < |log| && log[m] == se.e;
    assert log[m].ctr == m;
  }

  lemma {:induction false} AcceptOnLog(p: Sys.Party, log: seq<Event>, st: State, se: SignedEvent, k: nat)
    requires Chained(p.c, log) && OnLog(p, log, st) && Sys.Unforged(p, log, se)
    requires UnderOwnKey(p, st) && Verdict(p.c, st, p.dev, se).Ok?
    ensures se.e in log && OnLog(p, log, U.AcceptedUpTo(p.c, st, p.dev, st.devices[p.dev], se.e, k))
  {
    AcceptedIsAt(p, log, st, se);
    HeadMoves(p, log, st, se.e, k);
  }

  lemma {:induction false} HeadMoves(p: Sys.Party, log: seq<Event>, st: State, e: Event, k: nat)
    requires OnLog(p, log, st) && UnderOwnKey(p, st)
    requires var m := ExpectedCtr(st.devices[p.dev]); m < |log| && log[m] == e && e.ctr == m
    ensures OnLog(p, log, U.AcceptedUpTo(p.c, st, p.dev, st.devices[p.dev], e, k))
  {
    var m := ExpectedCtr(st.devices[p.dev]);
    assert log[..m + 1][m] == e;
  }

  lemma {:induction false} OtherOnLog(p: Sys.Party, log: seq<Event>, st: State, dev: string, e: Event, k: nat)
    requires OnLog(p, log, st) && dev in st.devices && (dev != p.dev || !UnderOwnKey(p, st))
    ensures OnLog(p, log, U.AcceptedUpTo(p.c, st, dev, st.devices[dev], e, k))
  {
  }

  lemma {:induction false} AcceptBookedOnce(log: seq<Event>, booked: seq<Event>, st: State, st': State, more: seq<Event>)
    requires BookedOnce(log, booked, st) && st.seen <= st'.seen && |more| <= 1
    requires more != [] ==> more[0] in log && more[0].ty == Imp && more[0].id in st'.seen && more[0].id !in st.seen
    ensures BookedOnce(log, booked + more, st')
  {
  }

  lemma {:induction false} SumAppend(booked: seq<Event>, e: Event)
    ensures D.SumN(booked + [e]) == D.SumN(booked) + e.n.GetOr(0)
  {
    assert Init(booked + [e]) == booked;
  }

  lemma {:induction false} AcceptAccounts(p: Sys.Party, st: State, dev: string, e: Event, k: nat)
    requires S.AccountsKept(st) && dev in st.devices
    ensures var st' := U.AcceptedUpTo(p.c, st, dev, st.devices[dev], e, k);
      && S.AccountsKept(st')
      && At(st'.impressions, AccountOf(p.dev)) == At(st.impressions, AccountOf(p.dev)) + (if k >= 6 && dev == p.dev then Credit(e) else 0)
  {
    if AccountOf(dev) == AccountOf(p.dev) {
      S.AccountInjective(dev, p.dev);
    }
  }

  lemma {:induction false} IngestOk(p: Sys.Party, log: seq<Event>, booked: seq<Event>, foreign: nat, st: State, op: U.Op)
    requires op.step.Ingest? && Verdict(p.c, st, op.step.dev, op.step.se).Ok?
    requires Chained(p.c, log) && OnLog(p, log, st) && BookedOnce(log, booked, st) && Accounted(p, booked, foreign, st)
    requires Sys.Unforged(p, log, op.step.se)
    ensures var st', more := Effects(st, U.Written(p.c, st, op)), NewlyBooked(p, st, op);
      && OnLog(p, log, st') && BookedOnce(log, booked + more, st')
      && Accounted(p, booked + more, foreign + NewlyForeign(p, st, op), st')
  {
    IngestOnLog(p, log, st, op);
    IngestBookedOnce(p, log, booked, st, op);
    IngestAccounted(p, booked, foreign, st, op);
  }

  lemma {:induction false} IngestOnLog(p: Sys.Party, log: seq<Event>, st: State, op: U.Op)
    requires op.step.Ingest? && Verdict(p.c, st, op.step.dev, op.step.se).Ok?
    requires Chained(p.c, log) && OnLog(p, log, st) && Sys.Unforged(p, log, op.step.se)
    ensures OnLog(p, log, Effects(st, U.Written(p.c, st, op)))
    ensures op.step.dev == p.dev && UnderOwnKey(p, st) ==> op.step.se.e in log
  {
    var dev, se, k := op.step.dev, op.step.se, |U.Written(p.c, st, op)|;
    WrittenOk(p, st, op);
    if dev == p.dev && UnderOwnKey(p, st) {
      AcceptOnLog(p, log, st, se, k);
    } else {
      OtherOnLog(p, log, st, dev, se.e, k);
    }
  }

  lemma {:induction false} IngestBookedOnce(p: Sys.Party, log: seq<Event>, booked: seq<Event>, st: State, op: U.Op)
    requires op.step.Ingest? && Verdict(p.c, st, op.step.dev, op.step.se).Ok?
    requires BookedOnce(log, booked, st)
    requires op.step.dev == p.dev && UnderOwnKey(p, st) ==> op.step.se.e in log
    ensures BookedOnce(log, booked + NewlyBooked(p, st, op), Effects(st, U.Written(p.c, st, op)))
  {
    WrittenOk(p, st, op);
    AcceptBookedOnce(log, booked, st, Effects(st, U.Written(p.c, st, op)), NewlyBooked(p, st, op));
  }

  lemma {:induction false} IngestAccounted(p: Sys.Party, booked: seq<Event>, foreign: nat, st: State, op: U.Op)
    requires op.step.Ingest? && Verdict(p.c, st, op.step.dev, op.step.se).Ok?
    requires Accounted(p, booked, foreign, st)
    ensures Accounted(p, booked + NewlyBooked(p, st, op), foreign + NewlyForeign(p, st, op), Effects(st, U.Written(p.c, st, op)))
  {
    WrittenOk(p, st, op);
    AcceptAccounts(p, st, op.step.dev, op.step.se.e, |U.Written(p.c, st, op)|);
    SumMore(booked, NewlyBooked(p, st, op));
  }

  lemma {:induction false} SumMore(booked: seq<Event>, more: seq<Event>)
    requires |more| <= 1
    ensures D.SumN(booked + more) == D.SumN(booked) + (if more == [] then 0 else more[0].n.GetOr(0))
  {
    if more != [] {
      SumAppend(booked, more[0]);
      assert booked + more == booked + [more[0]];
    } else {
      assert booked + more == booked;
    }
  }

  lemma {:induction false} WrittenOk(p: Sys.Party, st: State, op: U.Op)
    requires op.step.Ingest? && Verdict(p.c, st, op.step.dev, op.step.se).Ok?
    ensures var dev, e, k := op.step.dev, op.step.se.e, |U.Written(p.c, st, op)|;
      && k <= U.WriteCount(e)
      && Effects(st, U.Written(p.c, st, op)) == U.AcceptedUpTo(p.c, st, dev, st.devices[dev], e, k)
  {
    var ws := Writes(p.c, st, op.step);
    U.IngestPrefix(p.c, st, op.step.dev, op.step.se, 0);
    U.IngestPrefix(p.c, st, op.step.dev, op.step.se, |U.Written(p.c, st, op)|);
    assert ws[..|ws|] == ws;
  }

  // --------------------------------------------------- operations that do not

  /** Nothing that matters here changes, except that `dev` may be registered. */
  ghost predicate Quiet(st: State, st': State, dev: string) {
    && st'.seen == st.seen
    && (forall a :: At(st'.impressions, a) == At(st.impressions, a))
    && (st'.devices == st.devices ||
        exists key :: st'.devices == st.devices[dev := DeviceRec(key, AccountOf(dev), GENESIS_PREV, None)])
  }

  lemma {:induction false} RegisterQuiet(c: Crypto, st: State, step: Step, k: nat)
    requires step.Register? && k <= |Writes(c, st, step)|
    ensures Quiet(st, Effects(st, Writes(c, st, step)[..k]), step.dev)
    ensures k == 0 ==> Effects(st, Writes(c, st, step)[..k]) == st
    ensures k >= 1 ==> exists key ::
      Effects(st, Writes(c, st, step)[..k]).devices == st.devices[step.dev := DeviceRec(key, AccountOf(step.dev), GENESIS_PREV, None)]
  {
    var ws := Writes(c, st, step);
    if k > 0 {
      RegisterQuiet(c, st, step, k - 1);
      EffectsUpTo(st, ws, k - 1);
    } else {
      assert ws[..0] == [];
    }
  }

  lemma {:induction false} StepQuiet(c: Crypto, st: State, op: U.Op)
    requires op.step.Ingest? ==> Verdict(c, st, op.step.dev, op.step.se).Err?
    ensures Quiet(st, Effects(st, U.Written(c, st, op)), if op.step.Register? then op.step.dev else "")
    ensures !op.step.Register? ==> Effects(st, U.Written(c, st, op)).devices == st.devices
  {
    var ws, k := Writes(c, st, op.step), |U.Written(c, st, op)|;
    assert U.Written(c, st, op) == ws[..k];
    match op.step {
      case Register(_, _) => RegisterQuiet(c, st, op.step, k);
      case Ingest(_, _) =>
        if k == 1 {
          EffectsUpTo(st, ws, 0);
        }
      case Redeem(acct, _, amount) =>
        if PayoutFor(st, acct, amount).Some? {
          U.RedeemPrefix(c, st, op.step, 0);
          U.RedeemPrefix(c, st, op.step, k);
        }
    }
  }

  lemma {:induction false} QuietKeeps(p: Sys.Party, log: seq<Event>, booked: seq<Event>, foreign: nat, st: State, st': State, dev: string)
    requires OnLog(p, log, st) && BookedOnce(log, booked, st) && Accounted(p, booked, foreign, st) && Quiet(st, st', dev)
    ensures OnLog(p, log, st') && BookedOnce(log, booked, st') && Accounted(p, booked, foreign, st')
  {
    assert log[..0] == [];
  }

  // ------------------------------------------------------------------ all runs

  lemma {:induction false} ServerStep(p: Sys.Party, log: seq<Event>, booked: seq<Event>, foreign: nat, st: State, op: U.Op)
    requires Chained(p.c, log) && OnLog(p, log, st) && BookedOnce(log, booked, st) && Accounted(p, booked, foreign, st)
    requires op.step.Ingest? ==> Sys.Unforged(p, log, op.step.se)
    ensures var st', more := Effects(st, U.Written(p.c, st, op)), NewlyBooked(p, st, op);
      && OnLog(p, log, st') && BookedOnce(log, booked + more, st')
      && Accounted(p, booked + more, foreign + NewlyForeign(p, st, op), st')
  {
    if op.step.Ingest? && Verdict(p.c, st, op.step.dev, op.step.se).Ok? {
      IngestOk(p, log, booked, foreign, st, op);
    } else {
      StepQuiet(p.c, st, op);
      QuietKeeps(p, log, booked, foreign, st, Effects(st, U.Written(p.c, st, op)), if op.step.Register? then op.step.dev else "");
      assert booked + [] == booked;
    }
  }

  lemma {:induction false} DaemonStep(p: Sys.Party, d: DaemonState, i: Input, booked: seq<Event>, st: State)
    requires D.LogKept(p.c, p.key, d) && OnLog(p, D.Events(d.queue), st) && BookedOnce(D.Events(d.queue), booked, st)
    ensures var log' := D.Events(Handled(p.c, p.key, d, i).queue);
      OnLog(p, log', st) && BookedOnce(log', booked, st)
  {
    var log, log' := D.Events(d.queue), D.Events(Handled(p.c, p.key, d, i).queue);
    Sys.LogGrows(p, d, i);
    if UnderOwnKey(p, st) {
      var m := ExpectedCtr(st.devices[p.dev]);
      assert log'[..m] == log[..m];
    }
  }

  lemma {:induction false} OneMore(p: Sys.Party, ops: seq<Op>)
    requires ops != []
    ensures match Last(ops)
      case ToDaemon(i) =>
        && DaemonAt(p, ops) == Handled(p.c, p.key, DaemonAt(p, Init(ops)), i)
        && ServerAt(p, ops) == ServerAt(p, Init(ops))
      case ToServer(op) =>
        && DaemonAt(p, ops) == DaemonAt(p, Init(ops))
        && ServerAt(p, ops) == Effects(ServerAt(p, Init(ops)), U.Written(p.c, ServerAt(p, Init(ops)), op))
  {
    match Last(ops) {
      case ToDaemon(i) =>
        D.RunAppend(p.c, p.key, p.creative, Inputs(Init(ops)), i);
        assert ServerOps(ops) == ServerOps(Init(ops));
      case ToServer(op) =>
        assert Inputs(ops) == Inputs(Init(ops));
        assert Init(ServerOps(Init(ops)) + [op]) == ServerOps(Init(ops));
    }
  }

  /** Over every run with stops: the device's record always stands on the
      daemon's log, no event's impressions are stored twice, and the account
      holds exactly what was stored. */
  lemma {:induction false} StoppedOnLog(p: Sys.Party, ops: seq<Op>)
    requires Unforgeable(p, ops)
    ensures OnLog(p, LogAt(p, ops), ServerAt(p, ops))
    ensures BookedOnce(LogAt(p, ops), Booked(p, ops), ServerAt(p, ops))
    ensures Accounted(p, Booked(p, ops), Foreign(p, ops), ServerAt(p, ops))
  {
    if ops == [] {
    } else {
      var before := Init(ops);
      StoppedOnLog(p, before);
      OneMore(p, ops);
      D.LogAlwaysKept(p.c, p.key, p.creative, Inputs(before));
      match Last(ops) {
        case ToDaemon(i) =>
          DaemonStep(p, DaemonAt(p, before), i, Booked(p, before), ServerAt(p, before));
          assert Booked(p, before) + [] == Booked(p, before);
        case ToServer(op) =>
          ServerStep(p, LogAt(p, before), Booked(p, before), Foreign(p, before), ServerAt(p, before), op);
      }
    }
  }

  // --------------------------------------------------------------- undercount

  lemma {:induction false} SumConcat(a: seq<Event>, b: seq<Event>)
    ensures D.SumN(a + b) == D.SumN(a) + D.SumN(b)
  {
    if b == [] {
      assert a + b == a;
    } else {
      assert Init(a + b) == a + Init(b) && Last(a + b) == Last(b);
      SumConcat(a, Init(b));
    }
  }

  ghost predicate Distinct(es: seq<Event>) {
    forall i, j :: 0 <= i < j < |es| ==> es[i] != es[j]
  }

  function Dropped(es: seq<Event>, j: nat): seq<Event>
    requires j < |es|
  {
    es[..j] + es[j + 1..]
  }

  lemma {:induction false} DropSum(es: seq<Event>, j: nat)
    requires j < |es|
    ensures D.SumN(es) == D.SumN(Dropped(es, j)) + es[j].n.GetOr(0)
  {
    var a, b := es[..j], es[j + 1..];
    assert es == a + ([es[j]] + b);
    SumConcat(a, [es[j]] + b);
    SumConcat([es[j]], b);
    SumConcat(a, b);
    SumAppend([], es[j]);
    assert [] + [es[j]] == [es[j]];
  }

  lemma {:induction false} DropDistinct(es: seq<Event>, j: nat, log: seq<Event>)
    requires j < |es| && log != [] && es[j] == Last(log) && Distinct(es)
    requires forall i :: 0 <= i < |es| ==> es[i] in log
    ensures var rest := Dropped(es, j); Distinct(rest) && forall i :: 0 <= i < |rest| ==> rest[i] in Init(log)
  {
    var rest := Dropped(es, j);
    forall i | 0 <= i < |rest| ensures rest[i] in Init(log) {
      var k := if i < j then i else i + 1;
      assert rest[i] == es[k] && es[k] != es[j];
      InInit(log, es[k]);
    }
  }

  /** Distinct events of a log carry at most what the whole log carries. */
  lemma {:induction false} DistinctSum(es: seq<Event>, log: seq<Event>)
    requires Distinct(es) && forall i :: 0 <= i < |es| ==> es[i] in log
    ensures D.SumN(es) <= D.SumN(log)
    decreases |log|
  {
    assert es == [] || es[0] in log;
    if log == [] {
      assert es == [];
    } else if j :| 0 <= j < |es| && es[j] == Last(log) {
      DropSum(es, j);
      DropDistinct(es, j, log);
      DistinctSum(Dropped(es, j), Init(log));
    } else {
      forall i | 0 <= i < |es| ensures es[i] in Init(log) {
        InInit(log, es[i]);
      }
      DistinctSum(es, Init(log));
    }
  }

  lemma {:induction false} InInit(log: seq<Event>, e: Event)
    requires log != [] && e in log && e != Last(log)
    ensures e in Init(log)
  {
    var i :| 0 <= i < |log| && log[i] == e;
    assert Init(log)[i] == e;
  }

  /** End-to-end undercount with stops: whatever the server forgets and however
      often it reloads, the impressions stored for the device's account, less
      those of other keys, are at most what the daemon counted, and 5000 ms of
      closed WAITING time stand behind each. */
  lemma {:induction false} StoppedUndercount(p: Sys.Party, ops: seq<Op>)
    requires Unforgeable(p, ops)
    ensures var credited := At(ServerAt(p, ops).impressions, AccountOf(p.dev));
      && Foreign(p, ops) <= credited
      && credited - Foreign(p, ops) <= DaemonAt(p, ops).impressionsTotal
      && 5000 * (credited - Foreign(p, ops)) <= D.WaitingMs(Inputs(ops))
  {
    StoppedOnLog(p, ops);
    DistinctSum(Booked(p, ops), LogAt(p, ops));
    D.LogAlwaysKept(p.c, p.key, p.creative, Inputs(ops));
    D.Undercount(p.c, p.key, p.creative, Inputs(ops));
  }

  // ---------------------------------------------------- the same system, unstopped

  /** A run of the system in which every request completes. */
  function Completed(ops: seq<Sys.Op>): seq<Op> {
    if ops == [] then []
    else
      Completed(Init(ops)) +
        match Last(ops) {
          case ToDaemon(i) => [ToDaemon(i)]
          case ToServer(step) => [ToServer(U.Complete(step))]
        }
  }

  /** Without stops this is the system of complete requests. */
  lemma {:induction false} CompletedIsSystem(p: Sys.Party, ops: seq<Sys.Op>)
    ensures Inputs(Completed(ops)) == Sys.Inputs(ops)
    ensures ServerAt(p, Completed(ops)) == Sys.ServerAt(p, ops)
  {
    if ops == [] {
    } else {
      CompletedIsSystem(p, Init(ops));
      CompletedStep(p, Completed(Init(ops)), ops);
    }
  }

  lemma {:induction false} CompletedStep(p: Sys.Party, before: seq<Op>, ops: seq<Sys.Op>)
    requires ops != [] && before == Completed(Init(ops))
    requires Inputs(before) == Sys.Inputs(Init(ops)) && ServerAt(p, before) == Sys.ServerAt(p, Init(ops))
    ensures Inputs(Completed(ops)) == Sys.Inputs(ops) && ServerAt(p, Completed(ops)) == Sys.ServerAt(p, ops)
  {
    Sys.OneMore(p, ops);
    match Last(ops) {
      case ToDaemon(i) => CompletedDaemon(p, before, i);
      case ToServer(step) =>
        CompletedServer(p, before, step);
        assert Sys.Inputs(ops) == Sys.Inputs(Init(ops)) + [];
    }
  }

  lemma {:induction false} CompletedDaemon(p: Sys.Party, before: seq<Op>, i: Input)
    ensures Inputs(before + [ToDaemon(i)]) == Inputs(before) + [i]
    ensures ServerAt(p, before + [ToDaemon(i)]) == ServerAt(p, before)
  {
    assert Init(before + [ToDaemon(i)]) == before;
    assert ServerOps(before) + [] == ServerOps(before);
  }

  lemma {:induction false} CompletedServer(p: Sys.Party, before: seq<Op>, step: Step)
    ensures Inputs(before + [ToServer(U.Complete(step))]) == Inputs(before)
    ensures ServerAt(p, before + [ToServer(U.Complete(step))]) == Next(p.c, ServerAt(p, before), step)
  {
    var ops := before + [ToServer(U.Complete(step))];
    assert Init(ops) == before;
    assert Init(ServerOps(ops)) == ServerOps(before);
    assert Inputs(before) + [] == Inputs(before);
    U.CompleteIsNext(p.c, ServerOps(ops));
  }

  // ------------------------------------------------- what was passed and booked

  /** An event that moved the device's head, and how many of its writes were stored. */
  datatype Pass = Pass(e: Event, written: nat)

  /** The operation registers `p.dev`: at least its first write is stored. */
  predicate Registers(p: Sys.Party, st: State, op: U.Op) {
    op.step.Register? && op.step.dev == p.dev && |U.Written(p.c, st, op)| >= 1
  }

  /** The operation moves the head of `p.dev`. */
  predicate MovesHead(p: Sys.Party, st: State, op: U.Op) {
    op.step.Ingest? && op.step.dev == p.dev && Verdict(p.c, st, p.dev, op.step.se).Ok? && |U.Written(p.c, st, op)| >= 1
  }

  function PassesAfter(p: Sys.Party, st: State, passes: seq<Pass>, op: U.Op): seq<Pass> {
    if Registers(p, st, op) then []
    else if MovesHead(p, st, op) then passes + [Pass(op.step.se.e, |U.Written(p.c, st, op)|)]
    else passes
  }

  /** The events passed since the latest registration, in order. */
  function Passes(p: Sys.Party, ops: seq<Op>): seq<Pass> {
    if ops == [] then []
    else if Last(ops).ToServer? then PassesAfter(p, ServerAt(p, Init(ops)), Passes(p, Init(ops)), Last(ops).op)
    else Passes(p, Init(ops))
  }

  function Registrations(p: Sys.Party, ops: seq<Op>): nat {
    if ops == [] then 0
    else Registrations(p, Init(ops)) + (if Last(ops).ToServer? && Registers(p, ServerAt(p, Init(ops)), Last(ops).op) then 1 else 0)
  }

  function EventsOf(passes: seq<Pass>): seq<Event> {
    if passes == [] then [] else EventsOf(Init(passes)) + [Last(passes).e]
  }

  /** The passed events whose impressions were stored: all but those whose
      acceptance stopped after write 1 to 5. */
  function BookedOf(passes: seq<Pass>): seq<Event> {
    if passes == [] then []
    else BookedOf(Init(passes)) + (if 1 <= Last(passes).written <= 5 then [] else [Last(passes).e])
  }

  ghost predicate PassedOnLog(p: Sys.Party, log: seq<Event>, passes: seq<Pass>, st: State) {
    UnderOwnKey(p, st) ==>
      ExpectedCtr(st.devices[p.dev]) <= |log| && EventsOf(passes) == log[..ExpectedCtr(st.devices[p.dev])]
  }

  lemma {:induction false} PassEnd(passes: seq<Pass>, e: Event, written: nat)
    ensures EventsOf(passes + [Pass(e, written)]) == EventsOf(passes) + [e]
    ensures BookedOf(passes + [Pass(e, written)]) == BookedOf(passes) + (if 1 <= written <= 5 then [] else [e])
  {
    assert Init(passes + [Pass(e, written)]) == passes;
  }

  // ------------------------------------------------------- passes, step by step

  /** Everything else leaves the record of `p.dev` alone. */
  lemma {:induction false} RecordKept(p: Sys.Party, st: State, op: U.Op)
    requires !Registers(p, st, op) && !MovesHead(p, st, op)
    ensures var st' := Effects(st, U.Written(p.c, st, op));
      (p.dev in st'.devices <==> p.dev in st.devices) && (p.dev in st.devices ==> st'.devices[p.dev] == st.devices[p.dev])
  {
    var ws, k := Writes(p.c, st, op.step), |U.Written(p.c, st, op)|;
    assert U.Written(p.c, st, op) == ws[..k];
    if op.step.Ingest? && Verdict(p.c, st, op.step.dev, op.step.se).Ok? {
      WrittenOk(p, st, op);
    } else if op.step.Register? {
      RegisterQuiet(p.c, st, op.step, k);
    } else {
      StepQuiet(p.c, st, op);
    }
  }

  lemma {:induction false} RegistersFresh(p: Sys.Party, st: State, op: U.Op)
    requires Registers(p, st, op)
    ensures var st' := Effects(st, U.Written(p.c, st, op)); p.dev in st'.devices && ExpectedCtr(st'.devices[p.dev]) == 0
  {
    var ws, k := Writes(p.c, st, op.step), |U.Written(p.c, st, op)|;
    assert U.Written(p.c, st, op) == ws[..k];
    RegisterQuiet(p.c, st, op.step, k);
  }

  lemma {:induction false} HeadMoved(p: Sys.Party, st: State, op: U.Op)
    requires MovesHead(p, st, op)
    ensures var st' := Effects(st, U.Written(p.c, st, op));
      && p.dev in st.devices && p.dev in st'.devices && st'.devices[p.dev].pubkey == st.devices[p.dev].pubkey
      && ExpectedCtr(st'.devices[p.dev]) == op.step.se.e.ctr + 1
  {
    WrittenOk(p, st, op);
  }

  lemma {:induction false} PassStep(p: Sys.Party, log: seq<Event>, passes: seq<Pass>, st: State, op: U.Op)
    requires Chained(p.c, log) && PassedOnLog(p, log, passes, st)
    requires op.step.Ingest? ==> Sys.Unforged(p, log, op.step.se)
    ensures PassedOnLog(p, log, PassesAfter(p, st, passes, op), Effects(st, U.Written(p.c, st, op)))
  {
    if Registers(p, st, op) {
      RegistersFresh(p, st, op);
      assert log[..0] == [];
    } else if MovesHead(p, st, op) {
      PassMove(p, log, passes, st, op);
    } else {
      RecordKept(p, st, op);
    }
  }

  lemma {:induction false} PassMove(p: Sys.Party, log: seq<Event>, passes: seq<Pass>, st: State, op: U.Op)
    requires Chained(p.c, log) && PassedOnLog(p, log, passes, st) && MovesHead(p, st, op) && Sys.Unforged(p, log, op.step.se)
    ensures PassedOnLog(p, log, passes + [Pass(op.step.se.e, |U.Written(p.c, st, op)|)], Effects(st, U.Written(p.c, st, op)))
  {
    HeadMoved(p, st, op);
    if UnderOwnKey(p, st) {
      AcceptedIsAt(p, log, st, op.step.se);
      PassEnd(passes, op.step.se.e, |U.Written(p.c, st, op)|);
      var m := ExpectedCtr(st.devices[p.dev]);
      assert log[..m + 1] == log[..m] + [log[m]];
    }
  }

  /** The record's counter is the number of events passed since the latest
      registration, and they are the first events of the log, in order. */
  lemma {:induction false} PassedPrefix(p: Sys.Party, ops: seq<Op>)
    requires Unforgeable(p, ops)
    ensures PassedOnLog(p, LogAt(p, ops), Passes(p, ops), ServerAt(p, ops))
  {
    if ops == [] {
    } else {
      var before := Init(ops);
      PassedPrefix(p, before);
      OneMore(p, ops);
      D.LogAlwaysKept(p.c, p.key, p.creative, Inputs(before));
      match Last(ops) {
        case ToDaemon(i) => PassedDaemon(p, DaemonAt(p, before), i, Passes(p, before), ServerAt(p, before));
        case ToServer(op) => PassStep(p, LogAt(p, before), Passes(p, before), ServerAt(p, before), op);
      }
    }
  }

  lemma {:induction false} PassedDaemon(p: Sys.Party, d: DaemonState, i: Input, passes: seq<Pass>, st: State)
    requires D.LogKept(p.c, p.key, d) && PassedOnLog(p, D.Events(d.queue), passes, st)
    ensures PassedOnLog(p, D.Events(Handled(p.c, p.key, d, i).queue), passes, st)
  {
    var log, log' := D.Events(d.queue), D.Events(Handled(p.c, p.key, d, i).queue);
    Sys.LogGrows(p, d, i);
    if UnderOwnKey(p, st) {
      var m := ExpectedCtr(st.devices[p.dev]);
      assert log'[..m] == log[..m];
    }
  }

  // ------------------------------------------------ booked, after one registration

  ghost predicate FirstBooked(p: Sys.Party, n: nat, passes: seq<Pass>, booked: seq<Event>, st: State) {
    && (n == 0 ==> p.dev !in st.devices && passes == [] && booked == [])
    && (n >= 1 ==> p.dev in st.devices)
    && (n == 1 && UnderOwnKey(p, st) ==> booked == BookedOf(passes))
    && (n == 1 && p.dev in st.devices && !UnderOwnKey(p, st) ==> booked == [])
  }

  lemma {:induction false} FirstBookedStep(p: Sys.Party, log: seq<Event>, n: nat, passes: seq<Pass>, booked: seq<Event>, st: State, op: U.Op)
    requires FirstBooked(p, n, passes, booked, st) && Chained(p.c, log)
    requires op.step.Ingest? ==> Sys.Unforged(p, log, op.step.se)
    requires forall e :: e in log ==> Credit(e) > 0
    ensures FirstBooked(p, n + (if Registers(p, st, op) then 1 else 0), PassesAfter(p, st, passes, op),
                        booked + NewlyBooked(p, st, op), Effects(st, U.Written(p.c, st, op)))
  {
    var more := NewlyBooked(p, st, op);
    if Registers(p, st, op) {
      RegistersFresh(p, st, op);
      assert booked + more == booked;
    } else if MovesHead(p, st, op) {
      HeadMoved(p, st, op);
      FirstBookedMove(p, log, n, passes, booked, st, op);
    } else {
      RecordKept(p, st, op);
      assert booked + more == booked;
    }
  }

  lemma {:induction false} FirstBookedMove(p: Sys.Party, log: seq<Event>, n: nat, passes: seq<Pass>, booked: seq<Event>, st: State, op: U.Op)
    requires FirstBooked(p, n, passes, booked, st) && MovesHead(p, st, op) && Chained(p.c, log) && Sys.Unforged(p, log, op.step.se)
    requires forall e :: e in log ==> Credit(e) > 0
    ensures n == 1 && UnderOwnKey(p, st) ==> booked + NewlyBooked(p, st, op) == BookedOf(PassesAfter(p, st, passes, op))
    ensures !UnderOwnKey(p, st) ==> booked + NewlyBooked(p, st, op) == booked
  {
    if UnderOwnKey(p, st) {
      AcceptedIsAt(p, log, st, op.step.se);
      assert op.step.se.e in log;
      PassEnd(passes, op.step.se.e, |U.Written(p.c, st, op)|);
    } else {
      assert booked + [] == booked;
    }
  }

  lemma {:induction false} LogCredits(p: Sys.Party, ops: seq<Op>)
    ensures forall e :: e in LogAt(p, ops) ==> Credit(e) > 0
  {
    D.LogAlwaysKept(p.c, p.key, p.creative, Inputs(ops));
    forall e | e in LogAt(p, ops) ensures Credit(e) > 0 {
      var i :| 0 <= i < |LogAt(p, ops)| && LogAt(p, ops)[i] == e;
      assert D.WellMade(p.key, DaemonAt(p, ops).queue[i]);
    }
  }

  lemma {:induction false} FirstBookedRun(p: Sys.Party, ops: seq<Op>)
    requires Unforgeable(p, ops)
    ensures FirstBooked(p, Registrations(p, ops), Passes(p, ops), Booked(p, ops), ServerAt(p, ops))
  {
    if ops == [] {
    } else {
      var before := Init(ops);
      FirstBookedRun(p, before);
      OneMore(p, ops);
      match Last(ops) {
        case ToDaemon(i) => assert Booked(p, before) + [] == Booked(p, before);
        case ToServer(op) =>
          D.LogAlwaysKept(p.c, p.key, p.creative, Inputs(before));
          LogCredits(p, before);
          FirstBookedStep(p, LogAt(p, before), Registrations(p, before), Passes(p, before), Booked(p, before), ServerAt(p, before), op);
      }
    }
  }

  /** What is booked, exactly: with a single registration, under the daemon's key,
      the passed events are the first log events up to the record's counter, and
      the booked ones are those, in order, but for each whose acceptance stopped
      after write 1 to 5. */
  lemma {:induction false} BookedExactly(p: Sys.Party, ops: seq<Op>)
    requires Unforgeable(p, ops) && Registrations(p, ops) == 1 && UnderOwnKey(p, ServerAt(p, ops))
    ensures var m := ExpectedCtr(ServerAt(p, ops).devices[p.dev]);
      m <= |LogAt(p, ops)| && EventsOf(Passes(p, ops)) == LogAt(p, ops)[..m] && Booked(p, ops) == BookedOf(Passes(p, ops))
  {
    PassedPrefix(p, ops);
    FirstBookedRun(p, ops);
  }

  // ------------------------------------------------------- progress with stops

  /** On a record under the daemon's key, after any stops and registrations, the
      log event at its counter is accepted exactly when its id is not stored. */
  lemma {:induction false} StoppedProgress(p: Sys.Party, ops: seq<Op>)
    requires Unforgeable(p, ops) && Sys.Authentic(p) && UnderOwnKey(p, ServerAt(p, ops))
    requires ExpectedCtr(ServerAt(p, ops).devices[p.dev]) < |LogAt(p, ops)|
    ensures var st := ServerAt(p, ops);
            var next := DaemonAt(p, ops).queue[ExpectedCtr(st.devices[p.dev])];
      Verdict(p.c, st, p.dev, next).Ok? <==> next.e.id !in st.seen
  {
    var st, log := ServerAt(p, ops), LogAt(p, ops);
    var m := ExpectedCtr(st.devices[p.dev]);
    StoppedOnLog(p, ops);
    var next := LogEntry(p, ops, m);
    NextVerdict(p, st, next);
  }

  lemma {:induction false} LogEntry(p: Sys.Party, ops: seq<Op>, m: nat) returns (next: SignedEvent)
    requires m < |LogAt(p, ops)|
    ensures next == DaemonAt(p, ops).queue[m] && next.s == HexEncode(p.key.sign(next.e))
    ensures next.e.ctr == m && next.e.prev == HeadOf(p.c, LogAt(p, ops)[..m])
  {
    next := DaemonAt(p, ops).queue[m];
    D.LogAlwaysKept(p.c, p.key, p.creative, Inputs(ops));
    assert D.WellMade(p.key, next) && LogAt(p, ops)[m] == next.e;
  }

  lemma {:induction false} NextVerdict(p: Sys.Party, st: State, next: SignedEvent)
    requires UnderOwnKey(p, st) && Sys.Authentic(p) && next.s == HexEncode(p.key.sign(next.e))
    requires next.e.ctr == ExpectedCtr(st.devices[p.dev]) && next.e.prev == st.devices[p.dev].chainHead
    ensures Verdict(p.c, st, p.dev, next).Ok? <==> next.e.id !in st.seen
  {
    HexRoundTrip(p.key.sign(next.e));
  }

  /** A stop behind the first write passes an event over: it is refused from then
      on although its id is not stored, and only registering the device again
      makes it acceptable once more. */
  lemma {:induction false} FirstWriteSkips(c: Crypto, st: State, dev: string, se: SignedEvent, hex: string)
    requires Verdict(c, st, dev, se).Ok? && se.e.ctr == 0 && se.e.prev == GENESIS_PREV
    requires DecodePubkey(c, hex) == Some(st.devices[dev].pubkey)
    ensures var st' := Effects(st, U.Written(c, st, U.Stop(Ingest(dev, se), 1)));
      && dev in st'.devices && ExpectedCtr(st'.devices[dev]) == 1 && se.e.id !in st'.seen
      && Verdict(c, st', dev, se).Err?
      && Verdict(c, Registered(c, st', dev, hex), dev, se).Ok?
  {
    U.IngestPrefix(c, st, dev, se, 1);
  }

  /** Then the next event is accepted instead, so what is booked is not a prefix
      of the log. */
  lemma {:induction false} NextAfterSkip(c: Crypto, st: State, dev: string, se: SignedEvent, next: SignedEvent)
    requires Verdict(c, st, dev, se).Ok? && HexDecode(next.s).Some?
    requires c.verify(next.e, HexDecode(next.s).value, st.devices[dev].pubkey)
    requires next.e.ctr == se.e.ctr + 1 && next.e.prev == c.chainNext(se.e) && next.e.id !in st.seen
    ensures Verdict(c, Effects(st, U.Written(c, st, U.Stop(Ingest(dev, se), 1))), dev, next).Ok?
  {
    U.IngestPrefix(c, st, dev, se, 1);
  }
}
