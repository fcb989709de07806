/** The daemon and the server together. Between them anything may happen to
    envelopes: they may be lost, repeated, reordered, re-batched, sent to other
    devices' queues or mixed with forgeries. */
module System {
  import opened Basics
  import opened Socket
  import opened Proto
  import opened Daemon
  import opened Server
  import D = DaemonRuns
  import S = ServerRuns

  /** One daemon run: its key, its device id, and the digests and signatures
      that both sides compute with. */
  datatype Party = Party(c: Crypto, key: DeviceKey, creative: Option<string>, dev: string)

  /** The daemon handles a datagram, or the server handles one event or request
      from anyone. */
  datatype Op = ToDaemon(i: Input) | ToServer(step: Step)

  function Inputs(ops: seq<Op>): seq<Input> {
    if ops == [] then []
    else Inputs(Init(ops)) + (if Last(ops).ToDaemon? then [Last(ops).i] else [])
  }

  function Steps(ops: seq<Op>): seq<Step> {
    if ops == [] then []
    else Steps(Init(ops)) + (if Last(ops).ToServer? then [Last(ops).step] else [])
  }

  function DaemonAt(p: Party, ops: seq<Op>): DaemonState {
    D.Run(p.c, p.key, p.creative, Inputs(ops))
  }

  function ServerAt(p: Party, ops: seq<Op>): State {
    S.Run(p.c, Steps(ops))
  }

  /** The daemon's emitted log. */
  function LogAt(p: Party, ops: seq<Op>): seq<Event> {
    D.Events(DaemonAt(p, ops).queue)
  }

  /** The events of a history accepted from `dev` under `key`. */
  function AcceptedUnder(h: seq<S.Record>, dev: string, key: string): seq<Event> {
    if h == [] then []
    else AcceptedUnder(Init(h), dev, key) + (if Last(h).dev == dev && Last(h).key == key then [Last(h).e] else [])
  }

  /** Everything the server has accepted from this daemon, over all its
      registrations. */
  function AcceptedAt(p: Party, ops: seq<Op>): seq<Event> {
    AcceptedUnder(S.History(p.c, Steps(ops)), p.dev, p.key.pubkey)
  }

  /** Signatures verify under the daemon's key only for events it has signed. */
  predicate Unforged(p: Party, log: seq<Event>, se: SignedEvent) {
    HexDecode(se.s).Some? && p.c.verify(se.e, HexDecode(se.s).value, p.key.pubkey) ==> se.e in log
  }

  ghost predicate Unforgeable(p: Party, ops: seq<Op>) {
    ops == [] ||
    (Unforgeable(p, Init(ops)) &&
     (Last(ops).ToServer? && Last(ops).step.Ingest? ==> Unforged(p, LogAt(p, Init(ops)), Last(ops).step.se)))
  }

  // ========================================================== prefix safety

  /** The record continues the accepted events. */
  predicate Live(p: Party, rec: DeviceRec, accepted: seq<Event>) {
    rec.chainHead == HeadOf(p.c, accepted) && ExpectedCtr(rec) == |accepted|
  }

  /** The record was reset by a re-registration after events were accepted. */
  predicate Reset(rec: DeviceRec, accepted: seq<Event>) {
    accepted != [] && ExpectedCtr(rec) == 0
  }

  ghost predicate Follows(p: Party, log: seq<Event>, accepted: seq<Event>, st: State) {
    && accepted <= log
    && (forall i :: 0 <= i < |accepted| ==> accepted[i].id in st.seen)
    && (p.dev in st.devices && st.devices[p.dev].pubkey == p.key.pubkey ==>
          Live(p, st.devices[p.dev], accepted) || Reset(st.devices[p.dev], accepted))
  }

  /** What a server step adds to the accepted events of the daemon. */
  function NewlyAccepted(p: Party, st: State, step: Step): seq<Event> {
    AcceptedUnder(S.NewRecords(p.c, st, step), p.dev, p.key.pubkey)
  }

  lemma {:induction false} AcceptedSingleton(r: S.Record, dev: string, key: string)
    ensures AcceptedUnder([r], dev, key) == if r.dev == dev && r.key == key then [r.e] else []
  {
    assert Init([r]) == [];
  }

  /** An event accepted from the daemon is the one right after the accepted
      prefix of its log, and never comes after a reset. */
  lemma {:induction false} AcceptedIsNext(p: Party, log: seq<Event>, accepted: seq<Event>, st: State, se: SignedEvent)
    requires Chained(p.c, log) && Follows(p, log, accepted, st) && Unforged(p, log, se)
    requires p.dev in st.devices && st.devices[p.dev].pubkey == p.key.pubkey && Verdict(p.c, st, p.dev, se).Ok?
    ensures Live(p, st.devices[p.dev], accepted) && |accepted| < |log| && se.e == log[|accepted|]
  {
    var rec := st.devices[p.dev];
    var k :| 0 <= k < |log| && log[k] == se.e;
    assert log[k].ctr == k;
    assert accepted != [] ==> log[0] == accepted[0] && accepted[0].id in st.seen;
  }

  lemma {:induction false} FollowsIngest(p: Party, log: seq<Event>, accepted: seq<Event>, st: State, dev: string, se: SignedEvent)
    requires Chained(p.c, log) && Follows(p, log, accepted, st) && Unforged(p, log, se)
    ensures var step := Ingest(dev, se);
      Follows(p, log, accepted + NewlyAccepted(p, st, step), Next(p.c, st, step))
  {
    var more := NewlyAccepted(p, st, Ingest(dev, se));
    if more == [] {
      assert accepted + more == accepted;
      FollowsOther(p, log, accepted, st, dev, se);
    } else {
      AcceptedSingleton(S.Record(dev, st.devices[dev].pubkey, se.e), p.dev, p.key.pubkey);
      AcceptedIsNext(p, log, accepted, st, se);
      FollowsAccept(p, log, accepted, st, se.e);
      assert more == [se.e];
    }
  }

  lemma {:induction false} FollowsOther(p: Party, log: seq<Event>, accepted: seq<Event>, st: State, dev: string, se: SignedEvent)
    requires Follows(p, log, accepted, st) && NewlyAccepted(p, st, Ingest(dev, se)) == []
    ensures Follows(p, log, accepted, Ingested(p.c, st, dev, se))
  {
    if Verdict(p.c, st, dev, se).Ok? {
      AcceptedSingleton(S.Record(dev, st.devices[dev].pubkey, se.e), p.dev, p.key.pubkey);
    }
  }

  lemma {:induction false} FollowsAccept(p: Party, log: seq<Event>, accepted: seq<Event>, st: State, e: Event)
    requires Chained(p.c, log) && Follows(p, log, accepted, st)
    requires p.dev in st.devices && Live(p, st.devices[p.dev], accepted)
    requires |accepted| < |log| && e == log[|accepted|]
    ensures Follows(p, log, accepted + [e], Accept(p.c, st, p.dev, st.devices[p.dev], e).(accepted := st.accepted + 1))
  {
    assert e.ctr == |accepted|;
    assert accepted + [e] == log[..|accepted| + 1];
  }

  lemma {:induction false} FollowsStep(p: Party, log: seq<Event>, accepted: seq<Event>, st: State, step: Step)
    requires Chained(p.c, log) && Follows(p, log, accepted, st)
    requires step.Ingest? ==> Unforged(p, log, step.se)
    ensures Follows(p, log, accepted + NewlyAccepted(p, st, step), Next(p.c, st, step))
  {
    match step {
      case Ingest(dev, se) => FollowsIngest(p, log, accepted, st, dev, se);
      case Register(_, _) => assert accepted + [] == accepted;
      case Redeem(_, _, _) => assert accepted + [] == accepted;
    }
  }

  lemma {:induction false} AcceptedConcat(a: seq<S.Record>, b: seq<S.Record>, dev: string, key: string)
    ensures AcceptedUnder(a + b, dev, key) == AcceptedUnder(a, dev, key) + AcceptedUnder(b, dev, key)
  {
    if b == [] {
      assert a + b == a;
    } else {
      assert Init(a + b) == a + Init(b) && Last(a + b) == Last(b);
      AcceptedConcat(a, Init(b), dev, key);
    }
  }

  /** How the two sides move with one more operation. */
  lemma {:induction false} OneMore(p: Party, ops: seq<Op>)
    requires ops != []
    ensures var before, op := Init(ops), Last(ops);
      match op
      case ToDaemon(i) =>
        && DaemonAt(p, ops) == Handled(p.c, p.key, DaemonAt(p, before), i)
        && ServerAt(p, ops) == ServerAt(p, before) && AcceptedAt(p, ops) == AcceptedAt(p, before)
      case ToServer(step) =>
        && LogAt(p, ops) == LogAt(p, before) && DaemonAt(p, ops) == DaemonAt(p, before)
        && ServerAt(p, ops) == Next(p.c, ServerAt(p, before), step)
        && AcceptedAt(p, ops) == AcceptedAt(p, before) + NewlyAccepted(p, ServerAt(p, before), step)
  {
    var before, op := Init(ops), Last(ops);
    match op {
      case ToDaemon(i) =>
        D.RunAppend(p.c, p.key, p.creative, Inputs(before), i);
        assert Steps(ops) == Steps(before);
      case ToServer(step) =>
        assert Inputs(ops) == Inputs(before);
        var steps := Steps(before);
        assert Init(steps + [step]) == steps;
        AcceptedConcat(S.History(p.c, steps), S.NewRecords(p.c, ServerAt(p, before), step), p.dev, p.key.pubkey);
    }
  }

  lemma {:induction false} LogGrows(p: Party, d: DaemonState, i: Input)
    requires D.LogKept(p.c, p.key, d)
    ensures D.Events(d.queue) <= D.Events(Handled(p.c, p.key, d, i).queue)
  {
    D.StepKeepsLog(p.c, p.key, d, i);
  }

  /** Prefix safety: whatever the network and everybody else do, across any
      registrations and re-registrations, the events the server has accepted
      from the daemon are exactly a prefix of the daemon's log. */
  lemma {:induction false} PrefixSafety(p: Party, ops: seq<Op>)
    requires Unforgeable(p, ops)
    ensures Follows(p, LogAt(p, ops), AcceptedAt(p, ops), ServerAt(p, ops))
    ensures AcceptedAt(p, ops) <= LogAt(p, ops)
  {
    if ops == [] {
    } else {
      var before := Init(ops);
      PrefixSafety(p, before);
      OneMore(p, ops);
      D.LogAlwaysKept(p.c, p.key, p.creative, Inputs(before));
      match Last(ops) {
        case ToDaemon(i) => LogGrows(p, DaemonAt(p, before), i);
        case ToServer(step) => FollowsStep(p, LogAt(p, before), AcceptedAt(p, before), ServerAt(p, before), step);
      }
    }
  }

  // =============================================================== progress

  /** The daemon's own signatures decode and verify. */
  ghost predicate Authentic(p: Party) {
    forall e :: IsBytes(p.key.sign(e)) && p.c.verify(e, p.key.sign(e), p.key.pubkey)
  }

  /** On a live record the next event of the log is accepted exactly when its
      id has not been seen before. */
  lemma {:induction false} NextAccepted(p: Party, ops: seq<Op>)
    requires Unforgeable(p, ops) && Authentic(p)
    requires p.dev in ServerAt(p, ops).devices
    requires ServerAt(p, ops).devices[p.dev].pubkey == p.key.pubkey
    requires Live(p, ServerAt(p, ops).devices[p.dev], AcceptedAt(p, ops)) && |AcceptedAt(p, ops)| < |LogAt(p, ops)|
    ensures var next := DaemonAt(p, ops).queue[|AcceptedAt(p, ops)|];
      Verdict(p.c, ServerAt(p, ops), p.dev, next).Ok? <==> next.e.id !in ServerAt(p, ops).seen
  {
    var accepted, log, m := AcceptedAt(p, ops), LogAt(p, ops), |AcceptedAt(p, ops)|;
    var next := DaemonAt(p, ops).queue[m];
    D.LogAlwaysKept(p.c, p.key, p.creative, Inputs(ops));
    PrefixSafety(p, ops);
    assert D.WellMade(p.key, next);
    HexRoundTrip(p.key.sign(next.e));
    assert log[m] == next.e && log[..m] == accepted;
    assert next.e.ctr == m && next.e.prev == HeadOf(p.c, accepted);
  }

  /** Successful registrations of one device id. */
  function Registrations(c: Crypto, steps: seq<Step>, dev: string): nat {
    if steps == [] then 0
    else Registrations(c, Init(steps), dev) + (if RegistersDev(c, Last(steps), dev) then 1 else 0)
  }

  predicate RegistersDev(c: Crypto, step: Step, dev: string) {
    step.Register? && step.dev == dev && DecodePubkey(c, step.pubkeyHex).Some?
  }

  ghost predicate FirstRegistration(p: Party, n: nat, accepted: seq<Event>, st: State) {
    && (n == 0 ==> p.dev !in st.devices && accepted == [])
    && (n == 1 && p.dev in st.devices && st.devices[p.dev].pubkey == p.key.pubkey ==> Live(p, st.devices[p.dev], accepted))
    && (n == 1 && p.dev in st.devices && st.devices[p.dev].pubkey != p.key.pubkey ==> accepted == [])
    && (n >= 1 ==> p.dev in st.devices)
  }

  lemma {:induction false} FirstRegistrationStep(p: Party, n: nat, log: seq<Event>, accepted: seq<Event>, st: State, step: Step)
    requires FirstRegistration(p, n, accepted, st) && Chained(p.c, log) && Follows(p, log, accepted, st)
    requires step.Ingest? ==> Unforged(p, log, step.se)
    ensures FirstRegistration(p, n + (if RegistersDev(p.c, step, p.dev) then 1 else 0),
                              accepted + NewlyAccepted(p, st, step), Next(p.c, st, step))
  {
    match step {
      case Ingest(dev, se) => FirstRegistrationIngest(p, n, log, accepted, st, dev, se);
      case Register(_, _) => assert accepted + [] == accepted;
      case Redeem(_, _, _) => assert accepted + [] == accepted;
    }
  }

  lemma {:induction false} FirstRegistrationIngest(p: Party, n: nat, log: seq<Event>, accepted: seq<Event>, st: State, dev: string, se: SignedEvent)
    requires FirstRegistration(p, n, accepted, st) && Chained(p.c, log) && Follows(p, log, accepted, st) && Unforged(p, log, se)
    ensures FirstRegistration(p, n, accepted + NewlyAccepted(p, st, Ingest(dev, se)), Ingested(p.c, st, dev, se))
  {
    var more := NewlyAccepted(p, st, Ingest(dev, se));
    if more == [] {
      assert accepted + more == accepted;
      FirstRegistrationOther(p, n, accepted, st, dev, se);
    } else {
      FirstRegistrationOwn(p, n, log, accepted, st, dev, se);
    }
  }

  lemma {:induction false} FirstRegistrationOther(p: Party, n: nat, accepted: seq<Event>, st: State, dev: string, se: SignedEvent)
    requires FirstRegistration(p, n, accepted, st) && NewlyAccepted(p, st, Ingest(dev, se)) == []
    ensures FirstRegistration(p, n, accepted, Ingested(p.c, st, dev, se))
  {
    if Verdict(p.c, st, dev, se).Ok? {
      AcceptedSingleton(S.Record(dev, st.devices[dev].pubkey, se.e), p.dev, p.key.pubkey);
    }
  }

  lemma {:induction false} FirstRegistrationOwn(p: Party, n: nat, log: seq<Event>, accepted: seq<Event>, st: State, dev: string, se: SignedEvent)
    requires FirstRegistration(p, n, accepted, st) && Chained(p.c, log) && Follows(p, log, accepted, st) && Unforged(p, log, se)
    requires NewlyAccepted(p, st, Ingest(dev, se)) != []
    ensures FirstRegistration(p, n, accepted + NewlyAccepted(p, st, Ingest(dev, se)), Ingested(p.c, st, dev, se))
  {
    AcceptedSingleton(S.Record(dev, st.devices[dev].pubkey, se.e), p.dev, p.key.pubkey);
    AcceptedIsNext(p, log, accepted, st, se);
    assert log[|accepted|].ctr == |accepted|;
    FirstRegistrationAccept(p, n, accepted, st, se.e);
    assert NewlyAccepted(p, st, Ingest(dev, se)) == [se.e];
  }

  lemma {:induction false} FirstRegistrationAccept(p: Party, n: nat, accepted: seq<Event>, st: State, e: Event)
    requires FirstRegistration(p, n, accepted, st) && p.dev in st.devices && st.devices[p.dev].pubkey == p.key.pubkey
    requires Live(p, st.devices[p.dev], accepted) && e.ctr == |accepted|
    ensures FirstRegistration(p, n, accepted + [e], Accept(p.c, st, p.dev, st.devices[p.dev], e).(accepted := st.accepted + 1))
  {
    assert Init(accepted + [e]) == accepted && Last(accepted + [e]) == e;
  }

  lemma {:induction false} RegisteredOnceIsLive(p: Party, ops: seq<Op>)
    requires Unforgeable(p, ops)
    ensures FirstRegistration(p, Registrations(p.c, Steps(ops), p.dev), AcceptedAt(p, ops), ServerAt(p, ops))
  {
    if ops == [] {
    } else {
      var before := Init(ops);
      RegisteredOnceIsLive(p, before);
      PrefixSafety(p, before);
      OneMore(p, ops);
      D.LogAlwaysKept(p.c, p.key, p.creative, Inputs(before));
      match Last(ops) {
        case ToDaemon(i) => assert Steps(ops) == Steps(before);
        case ToServer(step) =>
          assert Init(Steps(before) + [step]) == Steps(before);
          FirstRegistrationStep(p, Registrations(p.c, Steps(before), p.dev), LogAt(p, before), AcceptedAt(p, before), ServerAt(p, before), step);
      }
    }
  }

  /** Event ids are fresh: no two log events share one, and no event accepted
      from elsewhere has the id of a log event. */
  ghost predicate FreshIds(p: Party, ops: seq<Op>) {
    var log, h := LogAt(p, ops), S.History(p.c, Steps(ops));
    && (forall i, j :: 0 <= i < j < |log| ==> log[i].id != log[j].id)
    && (forall r, e :: r in h && e in log && !(r.dev == p.dev && r.key == p.key.pubkey) ==> r.e.id != e.id)
  }

  /** The record continues the log: nothing was accepted yet, or something was
      accepted since the latest registration. */
  predicate NotReset(p: Party, ops: seq<Op>)
    requires p.dev in ServerAt(p, ops).devices
  {
    AcceptedAt(p, ops) == [] || ServerAt(p, ops).devices[p.dev].ctrHead.Some?
  }

  /** Progress, exactly: on a device registered under the daemon's key, any
      number of times, and with fresh ids, the next log event is accepted
      whenever it arrives if nothing was accepted before or something was since
      the latest registration, and in no other case. */
  lemma {:induction false} Progress(p: Party, ops: seq<Op>)
    requires Unforgeable(p, ops) && Authentic(p) && FreshIds(p, ops)
    requires p.dev in ServerAt(p, ops).devices
    requires ServerAt(p, ops).devices[p.dev].pubkey == p.key.pubkey
    requires |AcceptedAt(p, ops)| < |LogAt(p, ops)|
    ensures Verdict(p.c, ServerAt(p, ops), p.dev, DaemonAt(p, ops).queue[|AcceptedAt(p, ops)|]).Ok? <==> NotReset(p, ops)
  {
    var log, m := LogAt(p, ops), |AcceptedAt(p, ops)|;
    PrefixSafety(p, ops);
    if NotReset(p, ops) {
      NextAccepted(p, ops);
      if log[m].id in ServerAt(p, ops).seen {
        var j := SeenIsAccepted(p, ops, m);
      }
    } else {
      D.LogAlwaysKept(p.c, p.key, p.creative, Inputs(ops));
      assert log[m].ctr == m;
    }
  }

  /** A single registration never leaves the record reset. */
  lemma {:induction false} RegisteredOnceNotReset(p: Party, ops: seq<Op>)
    requires Unforgeable(p, ops) && Registrations(p.c, Steps(ops), p.dev) == 1
    requires p.dev in ServerAt(p, ops).devices && ServerAt(p, ops).devices[p.dev].pubkey == p.key.pubkey
    ensures NotReset(p, ops)
  {
    RegisteredOnceIsLive(p, ops);
  }

  /** With fresh ids, a seen id of a log event can only come from that event. */
  lemma {:induction false} SeenIsAccepted(p: Party, ops: seq<Op>, m: nat) returns (j: nat)
    requires Unforgeable(p, ops) && FreshIds(p, ops) && m < |LogAt(p, ops)|
    requires LogAt(p, ops)[m].id in ServerAt(p, ops).seen
    ensures j == m && j < |AcceptedAt(p, ops)|
  {
    var h, log := S.History(p.c, Steps(ops)), LogAt(p, ops);
    PrefixSafety(p, ops);
    var r := S.SeenFromHistory(p.c, Steps(ops), log[m].id);
    assert log[m] in log;
    InAcceptedUnder(h, r, p.dev, p.key.pubkey);
    j :| 0 <= j < |AcceptedAt(p, ops)| && AcceptedAt(p, ops)[j] == r.e;
    assert log[j] == r.e;
  }

  lemma {:induction false} InAcceptedUnder(h: seq<S.Record>, r: S.Record, dev: string, key: string)
    requires r in h && r.dev == dev && r.key == key
    ensures r.e in AcceptedUnder(h, dev, key)
  {
    if r != Last(h) {
      assert r in Init(h) by {
        var i :| 0 <= i < |h| && h[i] == r;
        assert Init(h)[i] == r;
      }
      InAcceptedUnder(Init(h), r, dev, key);
    }
  }

  // ====================================================== loss and catching up

  /** Some event was sent to the server under this device id. */
  predicate Delivered(steps: seq<Step>, dev: string, e: Event) {
    exists s :: s in steps && s.Ingest? && s.dev == dev && s.se.e == e
  }

  lemma {:induction false} AcceptedWasDelivered(c: Crypto, steps: seq<Step>, dev: string, key: string, e: Event)
    requires e in AcceptedUnder(S.History(c, steps), dev, key)
    ensures Delivered(steps, dev, e)
  {
    if steps == [] {
    } else {
      var before, step := Init(steps), Last(steps);
      var st := S.Run(c, before);
      AcceptedConcat(S.History(c, before), S.NewRecords(c, st, step), dev, key);
      if e in AcceptedUnder(S.History(c, before), dev, key) {
        AcceptedWasDelivered(c, before, dev, key, e);
        var s :| s in before && s.Ingest? && s.dev == dev && s.se.e == e;
        assert s in steps;
      } else {
        assert step in steps;
        AcceptedSingleton(S.NewRecords(c, st, step)[0], dev, key);
      }
    }
  }

  /** A lost envelope stalls its device: while log event `k` has never reached
      the server, nothing after it is accepted. */
  lemma {:induction false} LossStalls(p: Party, ops: seq<Op>, k: nat)
    requires Unforgeable(p, ops) && k < |LogAt(p, ops)|
    requires !Delivered(Steps(ops), p.dev, LogAt(p, ops)[k])
    ensures |AcceptedAt(p, ops)| <= k
  {
    PrefixSafety(p, ops);
    if k < |AcceptedAt(p, ops)| {
      AcceptedWasDelivered(p.c, Steps(ops), p.dev, p.key.pubkey, AcceptedAt(p, ops)[k]);
    }
  }

  /** The chain head after the first `m` events of a queue. */
  function HeadAfter(c: Crypto, queue: seq<SignedEvent>, m: nat): string
    requires m <= |queue|
  {
    if m == 0 then GENESIS_PREV else c.chainNext(queue[m - 1].e)
  }

  /** A live device with `m` accepted events of the queue, none of the rest seen. */
  ghost predicate InSync(p: Party, st: State, queue: seq<SignedEvent>, m: nat) {
    && m <= |queue| && p.dev in st.devices && st.devices[p.dev].pubkey == p.key.pubkey
    && st.devices[p.dev].chainHead == HeadAfter(p.c, queue, m) && ExpectedCtr(st.devices[p.dev]) == m
    && (forall i :: m <= i < |queue| ==> queue[i].e.id !in st.seen)
  }

  /** Entry `i` of the queue is signed by the daemon and extends the chain of
      the entries before it. */
  ghost predicate Linked(p: Party, queue: seq<SignedEvent>, i: nat)
    requires i < |queue|
  {
    && D.WellMade(p.key, queue[i])
    && queue[i].e.ctr == i && queue[i].e.prev == HeadAfter(p.c, queue, i)
  }

  /** A queue as the daemon leaves it: linked, no id twice. */
  ghost predicate Resendable(p: Party, queue: seq<SignedEvent>) {
    && Authentic(p)
    && (forall i :: 0 <= i < |queue| ==> Linked(p, queue, i))
    && (forall a, b :: 0 <= a < b < |queue| ==> queue[a].e.id != queue[b].e.id)
  }

  /** `st'` came from `st` by accepting exactly what `InSync` still lacks of the
      first `j` events. */
  ghost predicate CaughtUp(p: Party, st: State, st': State, queue: seq<SignedEvent>, m: nat, j: nat) {
    var m' := if j <= m then m else j;
    InSync(p, st', queue, m') && st'.accepted == st.accepted + (m' - m)
  }

  /** The state after the first `j` events of a queue have been resent. */
  function Resent(c: Crypto, st: State, dev: string, queue: seq<SignedEvent>, j: nat): State
    requires j <= |queue|
  {
    if j == 0 then st else Ingested(c, Resent(c, st, dev, queue, j - 1), dev, queue[j - 1])
  }

  lemma {:induction false} ResentIsIngested(c: Crypto, st: State, dev: string, queue: seq<SignedEvent>, j: nat)
    requires j <= |queue|
    ensures Resent(c, st, dev, queue, j) == IngestedAll(c, st, dev, queue[..j])
  {
    if j > 0 {
      ResentIsIngested(c, st, dev, queue, j - 1);
      assert Init(queue[..j]) == queue[..j - 1] && Last(queue[..j]) == queue[j - 1];
    }
  }

  lemma {:induction false} CatchUpTo(p: Party, st: State, queue: seq<SignedEvent>, m: nat, j: nat)
    requires Resendable(p, queue) && InSync(p, st, queue, m) && j <= |queue|
    ensures CaughtUp(p, st, Resent(p.c, st, p.dev, queue, j), queue, m, j)
  {
    if j > 0 {
      CatchUpTo(p, st, queue, m, j - 1);
      CatchUpStep(p, st, queue, m, j);
    }
  }

  /** Resending the log from its start recovers every loss: the events already
      accepted are refused without effect and all others are accepted. */
  lemma {:induction false} CatchUp(p: Party, st: State, queue: seq<SignedEvent>, m: nat)
    requires Resendable(p, queue) && InSync(p, st, queue, m)
    ensures var st' := IngestedAll(p.c, st, p.dev, queue);
      InSync(p, st', queue, |queue|) && st'.accepted == st.accepted + |queue| - m
  {
    CatchUpTo(p, st, queue, m, |queue|);
    ResentIsIngested(p.c, st, p.dev, queue, |queue|);
    assert queue[..|queue|] == queue;
  }

  lemma {:induction false} CatchUpStep(p: Party, st: State, queue: seq<SignedEvent>, m: nat, j: nat)
    requires Resendable(p, queue) && 0 < j <= |queue|
    ensures CaughtUp(p, st, Resent(p.c, st, p.dev, queue, j - 1), queue, m, j - 1) ==>
            CaughtUp(p, st, Resent(p.c, st, p.dev, queue, j), queue, m, j)
  {
    var before := Resent(p.c, st, p.dev, queue, j - 1);
    if CaughtUp(p, st, before, queue, m, j - 1) {
      CatchUpOne(p, before, queue, if j - 1 <= m then m else j - 1, j - 1);
    }
  }

  lemma {:induction false} CatchUpOne(p: Party, st: State, queue: seq<SignedEvent>, m: nat, i: nat)
    requires Resendable(p, queue) && InSync(p, st, queue, m) && i < |queue| && i <= m
    ensures var st', m' := Ingested(p.c, st, p.dev, queue[i]), if i == m then m + 1 else m;
      InSync(p, st', queue, m') && st'.accepted == st.accepted + (m' - m)
  {
    assert Linked(p, queue, i);
    HexRoundTrip(p.key.sign(queue[i].e));
    assert i < m ==> Verdict(p.c, st, p.dev, queue[i]).Err?;
  }

  /** In every state whose record is not reset, whatever was lost, repeated or
      reordered before: resending the whole queue in order gets every remaining
      event of the log accepted, each once. */
  lemma {:induction false} ResendRecovers(p: Party, ops: seq<Op>)
    requires Unforgeable(p, ops) && Authentic(p) && FreshIds(p, ops)
    requires p.dev in ServerAt(p, ops).devices && NotReset(p, ops)
    requires ServerAt(p, ops).devices[p.dev].pubkey == p.key.pubkey
    ensures var st, queue := ServerAt(p, ops), DaemonAt(p, ops).queue;
            var st' := IngestedAll(p.c, st, p.dev, queue);
      InSync(p, st', queue, |queue|) && st'.accepted == st.accepted + |queue| - |AcceptedAt(p, ops)|
  {
    NotResetInSync(p, ops);
    QueueResendable(p, ops);
    CatchUp(p, ServerAt(p, ops), DaemonAt(p, ops).queue, |AcceptedAt(p, ops)|);
  }

  lemma {:induction false} NotResetInSync(p: Party, ops: seq<Op>)
    requires Unforgeable(p, ops) && FreshIds(p, ops)
    requires p.dev in ServerAt(p, ops).devices && NotReset(p, ops)
    requires ServerAt(p, ops).devices[p.dev].pubkey == p.key.pubkey
    ensures InSync(p, ServerAt(p, ops), DaemonAt(p, ops).queue, |AcceptedAt(p, ops)|)
  {
    var st, queue, log := ServerAt(p, ops), DaemonAt(p, ops).queue, LogAt(p, ops);
    var m := |AcceptedAt(p, ops)|;
    PrefixSafety(p, ops);
    assert log[..m] == AcceptedAt(p, ops);
    HeadAfterLog(p.c, queue, m);
    forall i | m <= i < |queue| ensures queue[i].e.id !in st.seen {
      assert log[i] == queue[i].e;
      if log[i].id in st.seen {
        var j := SeenIsAccepted(p, ops, i);
      }
    }
  }

  lemma {:induction false} HeadAfterLog(c: Crypto, queue: seq<SignedEvent>, m: nat)
    requires m <= |queue|
    ensures HeadAfter(c, queue, m) == HeadOf(c, D.Events(queue)[..m])
  {
  }

  lemma {:induction false} QueueResendable(p: Party, ops: seq<Op>)
    requires Authentic(p) && FreshIds(p, ops)
    ensures Resendable(p, DaemonAt(p, ops).queue)
  {
    var queue, log := DaemonAt(p, ops).queue, LogAt(p, ops);
    D.LogAlwaysKept(p.c, p.key, p.creative, Inputs(ops));
    forall i | 0 <= i < |queue| ensures Linked(p, queue, i) {
      assert log[i] == queue[i].e && D.WellMade(p.key, queue[i]);
      HeadAfterLog(p.c, queue, i);
    }
    forall a, b | 0 <= a < b < |queue| ensures queue[a].e.id != queue[b].e.id {
      assert log[a].id != log[b].id;
    }
  }

  // ==================================================== re-registration

  /** Re-registering a device under its key after any of its events has been
      accepted stops it for good: the reset chain head asks for the first event
      again, whose id is a duplicate. Nothing of its log is accepted any more. */
  lemma {:induction false} ReRegistrationStalls(p: Party, before: seq<Op>, hex: string, later: seq<Op>)
    requires DecodePubkey(p.c, hex) == Some(p.key.pubkey) && AcceptedAt(p, before) != []
    requires Unforgeable(p, before + [ToServer(Register(p.dev, hex))] + later)
    ensures var ops := before + [ToServer(Register(p.dev, hex))] + later;
      AcceptedAt(p, ops) == AcceptedAt(p, before) && StalledRecord(p, ServerAt(p, ops))
  {
    var register := ToServer(Register(p.dev, hex));
    if later == [] {
      assert before + [register] + later == before + [register];
      JustReRegistered(p, before, hex);
    } else {
      var earlier := before + [register] + Init(later);
      assert before + [register] + later == earlier + [Last(later)];
      assert Init(earlier + [Last(later)]) == earlier;
      ReRegistrationStalls(p, before, hex, Init(later));
      StaysStalled(p, earlier, Last(later));
    }
  }

  /** Right after a registration under the daemon's key, the first of a device or
      not, the next log event is accepted exactly if none was before. */
  lemma {:induction false} ProgressAfterRegistration(p: Party, before: seq<Op>, hex: string)
    requires DecodePubkey(p.c, hex) == Some(p.key.pubkey)
    requires var ops := before + [ToServer(Register(p.dev, hex))];
      Unforgeable(p, ops) && Authentic(p) && FreshIds(p, ops) && |AcceptedAt(p, ops)| < |LogAt(p, ops)|
    ensures var ops := before + [ToServer(Register(p.dev, hex))];
      Verdict(p.c, ServerAt(p, ops), p.dev, DaemonAt(p, ops).queue[|AcceptedAt(p, ops)|]).Ok? <==> AcceptedAt(p, before) == []
  {
    var ops := before + [ToServer(Register(p.dev, hex))];
    assert Init(ops) == before;
    OneMore(p, ops);
    JustReRegistered(p, before, hex);
    Progress(p, ops);
  }

  lemma {:induction false} JustReRegistered(p: Party, before: seq<Op>, hex: string)
    requires DecodePubkey(p.c, hex).Some?
    ensures var ops := before + [ToServer(Register(p.dev, hex))];
      AcceptedAt(p, ops) == AcceptedAt(p, before) && StalledRecord(p, ServerAt(p, ops))
  {
    var ops := before + [ToServer(Register(p.dev, hex))];
    assert Init(ops) == before;
    OneMore(p, ops);
    assert AcceptedAt(p, before) + [] == AcceptedAt(p, before);
  }

  lemma {:induction false} StaysStalled(p: Party, ops: seq<Op>, op: Op)
    requires Unforgeable(p, ops + [op]) && Unforgeable(p, ops)
    requires AcceptedAt(p, ops) != [] && StalledRecord(p, ServerAt(p, ops))
    ensures AcceptedAt(p, ops + [op]) == AcceptedAt(p, ops) && StalledRecord(p, ServerAt(p, ops + [op]))
  {
    assert Init(ops + [op]) == ops;
    OneMore(p, ops + [op]);
    if op.ToServer? {
      PrefixSafety(p, ops);
      D.LogAlwaysKept(p.c, p.key, p.creative, Inputs(ops));
      StalledStep(p, LogAt(p, ops), AcceptedAt(p, ops), ServerAt(p, ops), op.step);
    }
  }

  lemma {:induction false} StalledStep(p: Party, log: seq<Event>, accepted: seq<Event>, st: State, step: Step)
    requires Chained(p.c, log) && Follows(p, log, accepted, st) && accepted != []
    requires step.Ingest? ==> Unforged(p, log, step.se)
    requires StalledRecord(p, st)
    ensures accepted + NewlyAccepted(p, st, step) == accepted
    ensures StalledRecord(p, Next(p.c, st, step))
  {
    if step.Ingest? && Verdict(p.c, st, step.dev, step.se).Ok? {
      StalledIngest(p, log, accepted, st, step.dev, step.se);
    }
  }

  predicate StalledRecord(p: Party, st: State) {
    p.dev in st.devices && st.devices[p.dev].pubkey == p.key.pubkey ==> ExpectedCtr(st.devices[p.dev]) == 0
  }

  lemma {:induction false} StalledIngest(p: Party, log: seq<Event>, accepted: seq<Event>, st: State, dev: string, se: SignedEvent)
    requires Chained(p.c, log) && Follows(p, log, accepted, st) && accepted != []
    requires Unforged(p, log, se) && StalledRecord(p, st) && Verdict(p.c, st, dev, se).Ok?
    ensures NewlyAccepted(p, st, Ingest(dev, se)) == []
    ensures StalledRecord(p, Ingested(p.c, st, dev, se))
  {
    AcceptedSingleton(S.Record(dev, st.devices[dev].pubkey, se.e), p.dev, p.key.pubkey);
    if dev == p.dev && st.devices[dev].pubkey == p.key.pubkey {
      AcceptedIsNext(p, log, accepted, st, se);
    }
  }

  // ========================================================== what is answered

  /** With collision-free digests the chain heads of two prefixes of a log differ. */
  lemma {:induction false} HeadsDiffer(c: Crypto, log: seq<Event>, i: nat, m: nat)
    requires CollisionFree(c) && Chained(c, log) && i <= |log| && m <= |log| && i != m
    ensures HeadOf(c, log[..i]) != HeadOf(c, log[..m])
  {
    if i > 0 && m > 0 {
      assert log[..i][i - 1] == log[i - 1] && log[..m][m - 1] == log[m - 1];
      assert log[i - 1].ctr == i - 1 && log[m - 1].ctr == m - 1;
    }
  }

  /** The answer to a log event on a record at position `m` of the log. */
  lemma {:induction false} AnswerAt(p: Party, log: seq<Event>, st: State, se: SignedEvent, i: nat, m: nat)
    requires CollisionFree(p.c) && Authentic(p) && Chained(p.c, log) && i < |log| && m <= |log|
    requires se.e == log[i] && se.s == HexEncode(p.key.sign(se.e))
    requires p.dev in st.devices && st.devices[p.dev].pubkey == p.key.pubkey
    requires ExpectedCtr(st.devices[p.dev]) == m && st.devices[p.dev].chainHead == HeadOf(p.c, log[..m])
    ensures i != m ==> Verdict(p.c, st, p.dev, se) == Err("chain fork/gap")
    ensures i == m && se.e.id in st.seen ==> Verdict(p.c, st, p.dev, se) == Err("duplicate event id")
    ensures i == m && se.e.id !in st.seen ==> Verdict(p.c, st, p.dev, se) == Ok(st.devices[p.dev])
  {
    HexRoundTrip(p.key.sign(se.e));
    assert log[i].ctr == i && log[i].prev == HeadOf(p.c, log[..i]);
    if i != m {
      HeadsDiffer(p.c, log, i, m);
    }
  }

  /** What the queue holds at `i`. */
  lemma {:induction false} QueueEntry(p: Party, ops: seq<Op>, i: nat) returns (se: SignedEvent)
    requires i < |LogAt(p, ops)|
    ensures Chained(p.c, LogAt(p, ops))
    ensures se == DaemonAt(p, ops).queue[i] && se.e == LogAt(p, ops)[i] && se.s == HexEncode(p.key.sign(se.e))
  {
    se := DaemonAt(p, ops).queue[i];
    D.LogAlwaysKept(p.c, p.key, p.creative, Inputs(ops));
    assert D.WellMade(p.key, se);
  }

  /** Where a record that is not reset stands. */
  lemma {:induction false} StandsAt(p: Party, ops: seq<Op>)
    requires Unforgeable(p, ops) && p.dev in ServerAt(p, ops).devices
    requires ServerAt(p, ops).devices[p.dev].pubkey == p.key.pubkey && NotReset(p, ops)
    ensures var rec, m := ServerAt(p, ops).devices[p.dev], |AcceptedAt(p, ops)|;
      m <= |LogAt(p, ops)| && ExpectedCtr(rec) == m && rec.chainHead == HeadOf(p.c, LogAt(p, ops)[..m])
  {
    PrefixSafety(p, ops);
    assert LogAt(p, ops)[..|AcceptedAt(p, ops)|] == AcceptedAt(p, ops);
  }

  /** What the server answers to each log event, whenever it arrives: a resend and
      an event behind a lost one are answered "chain fork/gap". */
  lemma {:induction false} AnswerOnLog(p: Party, ops: seq<Op>, i: nat)
    requires Unforgeable(p, ops) && Authentic(p) && CollisionFree(p.c) && i < |LogAt(p, ops)|
    requires p.dev in ServerAt(p, ops).devices && ServerAt(p, ops).devices[p.dev].pubkey == p.key.pubkey
    requires NotReset(p, ops)
    ensures var st, m := ServerAt(p, ops), |AcceptedAt(p, ops)|;
            var v := Verdict(p.c, st, p.dev, DaemonAt(p, ops).queue[i]);
      && (i != m ==> v == Err("chain fork/gap"))
      && (i == m ==> v == if LogAt(p, ops)[i].id in st.seen then Err("duplicate event id") else Ok(st.devices[p.dev]))
  {
    StandsAt(p, ops);
    var se := QueueEntry(p, ops, i);
    AnswerAt(p, LogAt(p, ops), ServerAt(p, ops), se, i, |AcceptedAt(p, ops)|);
  }

  /** After a re-registration the first log event is answered "duplicate event id"
      and every other one "chain fork/gap". */
  lemma {:induction false} AnswerAfterReset(p: Party, ops: seq<Op>, i: nat)
    requires Unforgeable(p, ops) && Authentic(p) && CollisionFree(p.c) && i < |LogAt(p, ops)|
    requires p.dev in ServerAt(p, ops).devices && ServerAt(p, ops).devices[p.dev].pubkey == p.key.pubkey
    requires !NotReset(p, ops)
    ensures Verdict(p.c, ServerAt(p, ops), p.dev, DaemonAt(p, ops).queue[i]) ==
      if i == 0 then Err("duplicate event id") else Err("chain fork/gap")
  {
    ResetHead(p, ops);
    FirstIsSeen(p, ops);
    var se := QueueEntry(p, ops, i);
    AnswerAt(p, LogAt(p, ops), ServerAt(p, ops), se, i, 0);
  }

  lemma {:induction false} FirstIsSeen(p: Party, ops: seq<Op>)
    requires Unforgeable(p, ops) && AcceptedAt(p, ops) != []
    ensures LogAt(p, ops) != [] && LogAt(p, ops)[0].id in ServerAt(p, ops).seen
  {
    PrefixSafety(p, ops);
    assert LogAt(p, ops)[0] == AcceptedAt(p, ops)[0];
  }

  /** A reset record is back at the genesis head. */
  lemma {:induction false} ResetHead(p: Party, ops: seq<Op>)
    requires p.dev in ServerAt(p, ops).devices && !NotReset(p, ops)
    ensures var rec := ServerAt(p, ops).devices[p.dev];
      ExpectedCtr(rec) == 0 && rec.chainHead == HeadOf(p.c, LogAt(p, ops)[..0])
  {
    S.HeadTracksHistory(p.c, Steps(ops), p.dev);
  }

  // ================================================== end-to-end undercount

  lemma {:induction false} PrefixSum(log: seq<Event>, m: nat)
    requires m <= |log|
    ensures D.SumN(log[..m]) <= D.SumN(log)
  {
    if m < |log| {
      PrefixSum(Init(log), m);
      assert Init(log)[..m] == log[..m];
    } else {
      assert log[..m] == log;
    }
  }

  /** Every impression accepted from the daemon is backed by 5000 ms of closed
      WAITING time over its sessions, and was counted by the daemon itself. */
  lemma {:induction false} AcceptedUndercount(p: Party, ops: seq<Op>)
    requires Unforgeable(p, ops)
    ensures D.SumN(AcceptedAt(p, ops)) <= DaemonAt(p, ops).impressionsTotal
    ensures 5000 * D.SumN(AcceptedAt(p, ops)) <= D.WaitingMs(Inputs(ops))
  {
    PrefixSafety(p, ops);
    D.LogAlwaysKept(p.c, p.key, p.creative, Inputs(ops));
    D.Undercount(p.c, p.key, p.creative, Inputs(ops));
    PrefixSum(LogAt(p, ops), |AcceptedAt(p, ops)|);
    assert LogAt(p, ops)[..|AcceptedAt(p, ops)|] == AcceptedAt(p, ops);
  }

  /** Impressions of events accepted for `dev` under any key but `key`. */
  function ForeignCredits(h: seq<S.Record>, dev: string, key: string): nat {
    if h == [] then 0
    else ForeignCredits(Init(h), dev, key) + (if Last(h).dev == dev && Last(h).key != key then Credit(Last(h).e) else 0)
  }

  lemma {:induction false} CreditsSplit(h: seq<S.Record>, dev: string, key: string)
    requires forall e :: e in AcceptedUnder(h, dev, key) ==> e.ty == Imp
    ensures S.CreditsOf(h, dev) == D.SumN(AcceptedUnder(h, dev, key)) + ForeignCredits(h, dev, key)
  {
    if h == [] {
    } else {
      var a, own := AcceptedUnder(Init(h), dev, key), Last(h).dev == dev && Last(h).key == key;
      var more := if own then [Last(h).e] else [];
      assert AcceptedUnder(h, dev, key) == a + more;
      forall e | e in a ensures e.ty == Imp {
        assert e in a + more;
      }
      CreditsSplit(Init(h), dev, key);
      if own {
        assert Init(a + more) == a && Last(a + more) == Last(h).e && Last(h).e in a + more;
      } else {
        assert a + more == a;
      }
    }
  }

  /** Impressions credited to the device's account for events of other keys. */
  function ForeignAt(p: Party, ops: seq<Op>): nat {
    ForeignCredits(S.History(p.c, Steps(ops)), p.dev, p.key.pubkey)
  }

  lemma {:induction false} AcceptedAreImpressions(p: Party, ops: seq<Op>)
    requires Unforgeable(p, ops)
    ensures forall e :: e in AcceptedAt(p, ops) ==> e.ty == Imp
  {
    PrefixSafety(p, ops);
    D.LogAlwaysKept(p.c, p.key, p.creative, Inputs(ops));
    forall e | e in AcceptedAt(p, ops) ensures e.ty == Imp {
      var i :| 0 <= i < |AcceptedAt(p, ops)| && AcceptedAt(p, ops)[i] == e;
      assert D.WellMade(p.key, DaemonAt(p, ops).queue[i]);
    }
  }

  /** The account, exactly: its impressions are those accepted from the daemon
      plus those accepted for the device id under other keys. */
  lemma {:induction false} AccountIdentity(p: Party, ops: seq<Op>)
    requires Unforgeable(p, ops)
    ensures At(ServerAt(p, ops).impressions, AccountOf(p.dev)) == D.SumN(AcceptedAt(p, ops)) + ForeignAt(p, ops)
  {
    S.ImpressionsFromHistory(p.c, Steps(ops));
    AcceptedAreImpressions(p, ops);
    CreditsSplit(S.History(p.c, Steps(ops)), p.dev, p.key.pubkey);
  }

  /** End-to-end undercount: in every state of the whole system, the impressions
      on the device's account, less those of other keys, are at most what the
      daemon counted, and 5000 ms of closed WAITING time stand behind each. */
  lemma {:induction false} EndToEndUndercount(p: Party, ops: seq<Op>)
    requires Unforgeable(p, ops)
    ensures var credited := At(ServerAt(p, ops).impressions, AccountOf(p.dev));
      && ForeignAt(p, ops) <= credited
      && credited - ForeignAt(p, ops) <= DaemonAt(p, ops).impressionsTotal
      && 5000 * (credited - ForeignAt(p, ops)) <= D.WaitingMs(Inputs(ops))
  {
    AccountIdentity(p, ops);
    AcceptedUndercount(p, ops);
  }

  /** Without any event of another key the bound holds for the whole account. */
  lemma {:induction false} OwnKeyUndercount(p: Party, ops: seq<Op>)
    requires Unforgeable(p, ops)
    requires forall r :: r in S.History(p.c, Steps(ops)) && r.dev == p.dev ==> r.key == p.key.pubkey
    ensures var credited := At(ServerAt(p, ops).impressions, AccountOf(p.dev));
      credited <= DaemonAt(p, ops).impressionsTotal && 5000 * credited <= D.WaitingMs(Inputs(ops))
  {
    NoForeignCredits(S.History(p.c, Steps(ops)), p.dev, p.key.pubkey);
    EndToEndUndercount(p, ops);
  }

  lemma {:induction false} NoForeignCredits(h: seq<S.Record>, dev: string, key: string)
    requires forall r :: r in h && r.dev == dev ==> r.key == key
    ensures ForeignCredits(h, dev, key) == 0
  {
    if h == [] {
    } else {
      forall r | r in Init(h) ensures r in h {
      }
      assert Last(h) in h;
      NoForeignCredits(Init(h), dev, key);
    }
  }

  /** With other keys it can fail: registration replaces the key and keeps the
      account, so one event signed under a second key is credited against no
      waiting time and a daemon that counted nothing. */
  lemma {:induction false} OtherKeyIsCredited(p: Party, hex: string, se: SignedEvent)
    requires DecodePubkey(p.c, hex).Some? && HexDecode(se.s).Some?
    requires var key := DecodePubkey(p.c, hex).value;
      key != p.key.pubkey && p.c.verify(se.e, HexDecode(se.s).value, key) && !p.c.verify(se.e, HexDecode(se.s).value, p.key.pubkey)
    requires se.e.ctr == 0 && se.e.prev == GENESIS_PREV && se.e.ty == Imp && se.e.n == Some(1)
    ensures var ops := [ToServer(Register(p.dev, hex)), ToServer(Ingest(p.dev, se))];
      && Unforgeable(p, ops) && ForeignAt(p, ops) == 1
      && At(ServerAt(p, ops).impressions, AccountOf(p.dev)) == 1
      && DaemonAt(p, ops).impressionsTotal == 0 && D.WaitingMs(Inputs(ops)) == 0
  {
    var one, two := ToServer(Register(p.dev, hex)), ToServer(Ingest(p.dev, se));
    var ops := [one, two];
    assert Init([one]) == [] && Init(ops) == [one];
    OneMore(p, [one]);
    OneMore(p, ops);
    assert Inputs([one]) == [] && Inputs(ops) == [];
    assert Verdict(p.c, ServerAt(p, [one]), p.dev, se).Ok?;
    AccountIdentity(p, ops);
    assert AcceptedAt(p, ops) == [];
  }
}
