/** What holds after every run of the daemon, whatever it is sent. */
module DaemonRuns {
  import opened Basics
  import opened Engine
  import opened Socket
  import opened Proto
  import opened Daemon

  function Run(c: Crypto, key: DeviceKey, creative: Option<string>, ins: seq<Input>): DaemonState
  {
    if ins == [] then Start(creative) else Handled(c, key, Run(c, key, creative, Init(ins)), Last(ins))
  }

  lemma {:induction false} RunAppend(c: Crypto, key: DeviceKey, creative: Option<string>, ins: seq<Input>, i: Input)
    ensures Run(c, key, creative, ins + [i]) == Handled(c, key, Run(c, key, creative, ins), i)
  {
    assert Init(ins + [i]) == ins;
  }

  // ================================================================ the log

  function Events(queue: seq<SignedEvent>): (es: seq<Event>)
    ensures |es| == |queue| && forall i :: 0 <= i < |es| ==> es[i] == queue[i].e
  {
    seq(|queue|, i requires 0 <= i < |queue| => queue[i].e)
  }

  function SumN(es: seq<Event>): nat {
    if es == [] then 0 else SumN(Init(es)) + Last(es).n.GetOr(0)
  }

  /** The daemon's counter is the length of its log and `prev` is the log's
      chain head; every entry is a properly signed event of 1 to 60 impressions. */
  ghost predicate LogKept(c: Crypto, key: DeviceKey, d: DaemonState) {
    var log := Events(d.queue);
    && d.ctr == |log|
    && d.prev == HeadOf(c, log)
    && Chained(c, log)
    && d.impressionsTotal == SumN(log)
    && (forall i :: 0 <= i < |d.queue| ==> WellMade(key, d.queue[i]))
  }

  ghost predicate WellMade(key: DeviceKey, se: SignedEvent)
  {
    && se.e.ty == Imp && se.e.n.Some? && 1 <= se.e.n.value <= 60
    && se.s == HexEncode(key.sign(se.e))
  }

  lemma {:induction false} EmitKeepsLog(c: Crypto, key: DeviceKey, d: DaemonState, sid: string, n: u32, i: Input)
    requires LogKept(c, key, d) && 1 <= n <= 60
    ensures LogKept(c, key, Emit(c, key, d, sid, n, i))
  {
    var e, log := NewEvent(key, d, sid, n, i), Events(d.queue);
    EmitAppends(c, key, d, sid, n, i);
    ChainedAppend(c, log, e);
    LogEnd(c, log, e);
    EmitWellMade(c, key, d, sid, n, i);
  }

  lemma {:induction false} EmitAppends(c: Crypto, key: DeviceKey, d: DaemonState, sid: string, n: u32, i: Input)
    ensures Events(Emit(c, key, d, sid, n, i).queue) == Events(d.queue) + [NewEvent(key, d, sid, n, i)]
  {
  }

  lemma {:induction false} LogEnd(c: Crypto, log: seq<Event>, e: Event)
    ensures HeadOf(c, log + [e]) == c.chainNext(e) && SumN(log + [e]) == SumN(log) + e.n.GetOr(0)
  {
    assert Init(log + [e]) == log;
  }

  lemma {:induction false} EmitWellMade(c: Crypto, key: DeviceKey, d: DaemonState, sid: string, n: u32, i: Input)
    requires 1 <= n <= 60 && forall k :: 0 <= k < |d.queue| ==> WellMade(key, d.queue[k])
    ensures var queue := Emit(c, key, d, sid, n, i).queue; forall k :: 0 <= k < |queue| ==> WellMade(key, queue[k])
  {
  }

  /** One step: the log only grows, by at most the event earned by this input,
      and stays well chained. */
  lemma {:induction false} StepKeepsLog(c: Crypto, key: DeviceKey, d: DaemonState, i: Input)
    requires LogKept(c, key, d)
    ensures var d' := Handled(c, key, d, i);
      && LogKept(c, key, d')
      && d'.impressionsTotal == d.impressionsTotal + Earned(d, i)
      && d.queue <= d'.queue
      && |d'.queue| == |d.queue| + (if Earned(d, i) > 0 then 1 else 0)
      && (Earned(d, i) > 0 ==>
            var e := Last(d'.queue).e;
            e.id == i.newId && e.n == Some(Earned(d, i)) && e.session == key.fingerprint(i.msg.sessionId))
  {
    if Earned(d, i) > 0 {
      EarningKeepsLog(c, key, d, i);
      EarningAppends(c, key, d, i);
    } else {
      QuietKeepsLog(c, key, d, i);
    }
  }

  lemma {:induction false} EarningKeepsLog(c: Crypto, key: DeviceKey, d: DaemonState, i: Input)
    requires LogKept(c, key, d) && Earned(d, i) > 0
    ensures LogKept(c, key, Handled(c, key, d, i))
  {
    var mid := EarningIsEmit(c, key, d, i);
    EmitKeepsLog(c, key, mid, i.msg.sessionId, Earned(d, i), i);
  }

  lemma {:induction false} EarningAppends(c: Crypto, key: DeviceKey, d: DaemonState, i: Input)
    requires Earned(d, i) > 0
    ensures var d', e := Handled(c, key, d, i), Last(Handled(c, key, d, i).queue).e;
      && d'.impressionsTotal == d.impressionsTotal + Earned(d, i)
      && d.queue <= d'.queue && |d'.queue| == |d.queue| + 1
      && e.id == i.newId && e.n == Some(Earned(d, i)) && e.session == key.fingerprint(i.msg.sessionId)
  {
    var mid := EarningIsEmit(c, key, d, i);
  }

  lemma {:induction false} QuietKeepsLog(c: Crypto, key: DeviceKey, d: DaemonState, i: Input)
    requires Earned(d, i) == 0
    ensures var d' := Handled(c, key, d, i);
      && d'.queue == d.queue && d'.ctr == d.ctr && d'.prev == d.prev
      && d'.impressionsTotal == d.impressionsTotal && d'.creative == d.creative
  {
  }

  /** An input that earns leaves the log alone until the event is emitted. */
  lemma {:induction false} EarningIsEmit(c: Crypto, key: DeviceKey, d: DaemonState, i: Input) returns (mid: DaemonState)
    requires Earned(d, i) > 0
    ensures i.msg.Hook? && mid == d.(sessions := mid.sessions)
    ensures Handled(c, key, d, i) == Emit(c, key, mid, i.msg.sessionId, Earned(d, i), i)
  {
    var name, sid := i.msg.eventName, i.msg.sessionId;
    mid := d.(sessions := d.sessions[sid := AfterHook(Touched(d, sid), name, i.recvMs)]);
  }

  lemma {:induction false} LogAlwaysKept(c: Crypto, key: DeviceKey, creative: Option<string>, ins: seq<Input>)
    ensures LogKept(c, key, Run(c, key, creative, ins))
  {
    if ins == [] {
    } else {
      LogAlwaysKept(c, key, creative, Init(ins));
      StepKeepsLog(c, key, Run(c, key, creative, Init(ins)), Last(ins));
    }
  }

  // ============================================== where each event came from

  /** An input that earned, and how much. */
  datatype Earning = Earning(i: Input, n: nat)

  /** The inputs that earned something, in order. */
  function Earners(c: Crypto, key: DeviceKey, creative: Option<string>, ins: seq<Input>): seq<Earning> {
    if ins == [] then []
    else
      var n := Earned(Run(c, key, creative, Init(ins)), Last(ins));
      Earners(c, key, creative, Init(ins)) + (if n > 0 then [Earning(Last(ins), n)] else [])
  }

  /** The queued event is the one the input earned, field by field. */
  ghost predicate ReportsEarning(key: DeviceKey, creative: Option<string>, se: SignedEvent, earning: Earning) {
    && earning.i.msg.Hook? && earning.i.msg.eventName == "Stop"
    && se.e.v == 1
    && se.e.id == earning.i.newId
    && se.e.t == earning.i.recvMs / 1000
    && se.e.ty == Imp
    && se.e.session == key.fingerprint(earning.i.msg.sessionId)
    && se.e.creative == creative
    && se.e.n == Some(earning.n)
  }

  ghost predicate QueueReports(key: DeviceKey, creative: Option<string>, queue: seq<SignedEvent>, earners: seq<Earning>) {
    |queue| == |earners| && forall k :: 0 <= k < |queue| ==> ReportsEarning(key, creative, queue[k], earners[k])
  }

  lemma {:induction false} EmitReports(c: Crypto, key: DeviceKey, d: DaemonState, i: Input)
    requires Earned(d, i) > 0
    ensures var d' := Handled(c, key, d, i);
      && |d'.queue| == |d.queue| + 1 && d.queue <= d'.queue && d'.creative == d.creative
      && ReportsEarning(key, d.creative, d'.queue[|d.queue|], Earning(i, Earned(d, i)))
  {
    var mid := EarningIsEmit(c, key, d, i);
  }

  /** Provenance: the queue holds, in order, one event for each input that earned,
      with that input's id, time and session, its count, and the creative the
      daemon was started with. */
  lemma {:induction false} QueueIsEarners(c: Crypto, key: DeviceKey, creative: Option<string>, ins: seq<Input>)
    ensures QueueReports(key, creative, Run(c, key, creative, ins).queue, Earners(c, key, creative, ins))
    ensures Run(c, key, creative, ins).creative == creative
  {
    if ins == [] {
    } else {
      var d, i := Run(c, key, creative, Init(ins)), Last(ins);
      QueueIsEarners(c, key, creative, Init(ins));
      if Earned(d, i) > 0 {
        EmitReports(c, key, d, i);
      } else {
        QuietKeepsLog(c, key, d, i);
      }
    }
  }

  // ===================================================== the reference clock

  predicate IsHook(i: Input, sid: string) {
    i.msg.Hook? && i.msg.sessionId == sid
  }

  /** Reading the trace alone: since when has session `sid` been waiting? */
  function OpenSince(ins: seq<Input>, sid: string): Option<nat> {
    if ins == [] then None
    else if !IsHook(Last(ins), sid) then OpenSince(Init(ins), sid)
    else
      var name := Last(ins).msg.eventName;
      if name == "UserPromptSubmit" then Some(Last(ins).recvMs)
      else if name == "PostToolUse" && InTool(Init(ins), sid) then Some(Last(ins).recvMs)
      else if name == "PreToolUse" || name == "Stop" || name == "SessionEnd" then None
      else OpenSince(Init(ins), sid)
  }

  /** Reading the trace alone: is session `sid` inside a tool break? */
  predicate InTool(ins: seq<Input>, sid: string) {
    if ins == [] then false
    else if !IsHook(Last(ins), sid) then InTool(Init(ins), sid)
    else
      var name := Last(ins).msg.eventName;
      if name == "PreToolUse" then InTool(Init(ins), sid) || OpenSince(Init(ins), sid).Some?
      else if name == "UserPromptSubmit" || name == "PostToolUse" || name == "Stop" || name == "SessionEnd" then false
      else InTool(Init(ins), sid)
  }

  /** Length of the WAITING sub-span that the last input closes, if it does. */
  function ClosedByLast(ins: seq<Input>): nat
    requires ins != []
  {
    var i := Last(ins);
    if i.msg.Hook? && (i.msg.eventName == "PreToolUse" || i.msg.eventName == "Stop") then
      match OpenSince(Init(ins), i.msg.sessionId)
      case Some(open) => Span(open, i.recvMs)
      case None => 0
    else 0
  }

  /** Total milliseconds of closed WAITING sub-spans over all sessions. Tool
      breaks, idle time and unclosed sub-spans are not part of it. */
  function WaitingMs(ins: seq<Input>): nat {
    if ins == [] then 0 else WaitingMs(Init(ins)) + ClosedByLast(ins)
  }

  /** The session records agree with the reference clock. */
  ghost predicate Clocked(d: DaemonState, ins: seq<Input>) {
    forall sid :: ClockedAt(d, ins, sid)
  }

  predicate ClockedAt(d: DaemonState, ins: seq<Input>, sid: string) {
    var s := SessionOf(d, sid);
    && Consistent(s)
    && s.subspanOpenMs == OpenSince(ins, sid)
    && (s.phase == ToolRunning <==> InTool(ins, sid))
  }

  lemma {:induction false} SessionAfter(c: Crypto, key: DeviceKey, d: DaemonState, i: Input, sid: string)
    ensures SessionOf(Handled(c, key, d, i), sid) ==
      match i.msg {
        case Hook(name, s) =>
          if s != sid then SessionOf(d, sid)
          else if name == "SessionEnd" then NEW_SESSION
          else AfterHook(Touched(d, sid), name, i.recvMs)
        case Heartbeat(s) =>
          if s == sid && sid in d.sessions then OnHeartbeat(SessionOf(d, sid), i.recvMs) else SessionOf(d, sid)
        case Cmd(cmd) =>
          if sid !in d.sessions || cmd == Ping then SessionOf(d, sid)
          else SessionOf(d, sid).(paused := cmd == Pause)
      }
  {
  }

  lemma {:induction false} ClockAgrees(c: Crypto, key: DeviceKey, creative: Option<string>, ins: seq<Input>)
    ensures Clocked(Run(c, key, creative, ins), ins)
  {
    if ins == [] {
    } else {
      var d := Run(c, key, creative, Init(ins));
      ClockAgrees(c, key, creative, Init(ins));
      forall sid ensures ClockedAt(Run(c, key, creative, ins), ins, sid) {
        assert ClockedAt(d, Init(ins), sid);
        if IsHook(Last(ins), sid) {
          ClockHook(c, key, d, ins, sid);
        } else {
          ClockOther(c, key, d, ins, sid);
        }
      }
    }
  }

  lemma {:induction false} ClockHook(c: Crypto, key: DeviceKey, d: DaemonState, ins: seq<Input>, sid: string)
    requires ins != [] && ClockedAt(d, Init(ins), sid) && IsHook(Last(ins), sid)
    ensures ClockedAt(Handled(c, key, d, Last(ins)), ins, sid)
  {
    SessionAfter(c, key, d, Last(ins), sid);
  }

  lemma {:induction false} ClockOther(c: Crypto, key: DeviceKey, d: DaemonState, ins: seq<Input>, sid: string)
    requires ins != [] && ClockedAt(d, Init(ins), sid) && !IsHook(Last(ins), sid)
    ensures ClockedAt(Handled(c, key, d, Last(ins)), ins, sid)
  {
    SessionAfter(c, key, d, Last(ins), sid);
  }

  // ============================================================== undercount

  ghost function Seconds(d: DaemonState): map<string, int> {
    map sid | sid in d.sessions :: d.sessions[sid].countableSeconds
  }

  /** Seconds not yet turned into impressions, over all sessions. */
  ghost function PendingSeconds(d: DaemonState): int {
    Total(Seconds(d))
  }

  lemma {:induction false} HookPending(d: DaemonState, d': DaemonState, sid: string, s: SessionState)
    requires d'.sessions == d.sessions[sid := s]
    ensures PendingSeconds(d') == PendingSeconds(d) - SessionOf(d, sid).countableSeconds + s.countableSeconds
  {
    assert Seconds(d') == Seconds(d)[sid := s.countableSeconds];
    TotalUpdate(Seconds(d), sid, s.countableSeconds);
  }

  /** A hook moves at most the sub-span it closes into seconds, and five seconds
      into each impression. */
  lemma {:induction false} HookUndercount(s: SessionState, name: string, ts: nat)
    requires Consistent(s)
    ensures var closed := if (name == "PreToolUse" || name == "Stop") && s.subspanOpenMs.Some? then Span(s.subspanOpenMs.value, ts) else 0;
            var earned := if name == "Stop" then StopImpressions(s, ts) else 0;
      5000 * earned + 1000 * AfterHook(s, name, ts).countableSeconds <= 1000 * s.countableSeconds + closed
  {
    if s.subspanOpenMs.Some? {
      CountableWithinSpan(s.subspanOpenMs.value, ts, s.heartbeats, GATE_WINDOW_MS, s.paused, s.ttyAttested);
    }
  }

  lemma {:induction false} EvictPending(d: DaemonState, d': DaemonState, sid: string)
    requires d'.sessions == d.sessions - {sid}
    ensures PendingSeconds(d') == PendingSeconds(d) - SessionOf(d, sid).countableSeconds
  {
    var removed := Seconds(d) - {sid};
    assert Seconds(d') == removed;
    if sid in Seconds(d) {
      TotalWithout(Seconds(d), sid);
    } else {
      assert removed == Seconds(d);
    }
  }

  lemma {:induction false} UndercountHook(c: Crypto, key: DeviceKey, d: DaemonState, ins: seq<Input>)
    requires ins != [] && Clocked(d, Init(ins)) && Last(ins).msg.Hook?
    ensures var d' := Handled(c, key, d, Last(ins));
      5000 * Earned(d, Last(ins)) + 1000 * PendingSeconds(d') <= 1000 * PendingSeconds(d) + ClosedByLast(ins)
  {
    var i := Last(ins);
    var name, sid := i.msg.eventName, i.msg.sessionId;
    assert ClockedAt(d, Init(ins), sid);
    HookUndercount(Touched(d, sid), name, i.recvMs);
    if name == "SessionEnd" {
      EvictPending(d, Handled(c, key, d, i), sid);
    } else {
      HookPending(d, Handled(c, key, d, i), sid, AfterHook(Touched(d, sid), name, i.recvMs));
    }
  }

  /** One step moves at most the sub-span it closes into seconds, and five
      seconds into each impression. */
  lemma {:induction false} UndercountStep(c: Crypto, key: DeviceKey, d: DaemonState, ins: seq<Input>)
    requires ins != [] && Clocked(d, Init(ins))
    ensures var d' := Handled(c, key, d, Last(ins));
      5000 * Earned(d, Last(ins)) + 1000 * PendingSeconds(d') <= 1000 * PendingSeconds(d) + ClosedByLast(ins)
  {
    if Last(ins).msg.Hook? {
      UndercountHook(c, key, d, ins);
    } else {
      assert Seconds(Handled(c, key, d, Last(ins))) == Seconds(d);
    }
  }

  /** Undercount: over every run, 5000 ms of closed waiting stand behind each
      impression ever counted. */
  lemma {:induction false} Undercount(c: Crypto, key: DeviceKey, creative: Option<string>, ins: seq<Input>)
    ensures var d := Run(c, key, creative, ins);
      5000 * d.impressionsTotal + 1000 * PendingSeconds(d) <= WaitingMs(ins) && 0 <= PendingSeconds(d)
  {
    var d := Run(c, key, creative, ins);
    PendingNonNegative(Seconds(d));
    if ins == [] {
      assert Seconds(d) == map[];
    } else {
      var before := Run(c, key, creative, Init(ins));
      Undercount(c, key, creative, Init(ins));
      ClockAgrees(c, key, creative, Init(ins));
      UndercountStep(c, key, before, ins);
      LogAlwaysKept(c, key, creative, Init(ins));
      StepKeepsLog(c, key, before, Last(ins));
    }
  }

  lemma {:induction false} PendingNonNegative(m: map<string, int>)
    requires forall k :: k in m ==> m[k] >= 0
    ensures Total(m) >= 0
    decreases |m|
  {
    if k :| k in m {
      TotalWithout(m, k);
      PendingNonNegative(m - {k});
    } else {
      assert m == map[];
    }
  }

  // ===================================================== liveness gate bound

  /** Receipt times never go back. */
  ghost predicate Monotone(ins: seq<Input>) {
    forall i, j :: 0 <= i < j < |ins| ==> ins[i].recvMs <= ins[j].recvMs
  }

  function Now(ins: seq<Input>): nat {
    if ins == [] then 0 else Last(ins).recvMs
  }

  /** Reading the trace alone: heartbeats of `sid` since its last prompt. */
  function HeartbeatsSincePrompt(ins: seq<Input>, sid: string): nat {
    if ins == [] || Last(ins).msg == Hook("UserPromptSubmit", sid) then 0
    else HeartbeatsSincePrompt(Init(ins), sid) + (if Last(ins).msg == Heartbeat(sid) then 1 else 0)
  }

  predicate GatedAt(d: DaemonState, ins: seq<Input>, sid: string) {
    var s := SessionOf(d, sid);
    s.phase != Idle ==> |s.heartbeats| == HeartbeatsSincePrompt(ins, sid)
  }

  lemma {:induction false} GatedStep(c: Crypto, key: DeviceKey, d: DaemonState, ins: seq<Input>, sid: string)
    requires ins != [] && GatedAt(d, Init(ins), sid) && Consistent(SessionOf(d, sid))
    ensures GatedAt(Handled(c, key, d, Last(ins)), ins, sid)
  {
    SessionAfter(c, key, d, Last(ins), sid);
  }

  lemma {:induction false} VouchedHandled(c: Crypto, key: DeviceKey, d: DaemonState, i: Input, sid: string, now: nat)
    requires Vouched(SessionOf(d, sid), now) && now <= i.recvMs
    ensures Vouched(SessionOf(Handled(c, key, d, i), sid), i.recvMs)
  {
    SessionAfter(c, key, d, i, sid);
    var s, ts := SessionOf(d, sid), i.recvMs;
    VouchedStep(s, now, ts);
    VouchedStep(s.(paused := d.paused), ts, ts);
    VouchedFresh(NEW_SESSION, ts);
  }

  lemma {:induction false} GateKept(c: Crypto, key: DeviceKey, creative: Option<string>, ins: seq<Input>, sid: string)
    requires Monotone(ins)
    ensures var d := Run(c, key, creative, ins);
      GatedAt(d, ins, sid) && Vouched(SessionOf(d, sid), Now(ins))
  {
    if ins == [] {
      VouchedFresh(NEW_SESSION, 0);
    } else {
      var d := Run(c, key, creative, Init(ins));
      GateKept(c, key, creative, Init(ins), sid);
      GatedStep(c, key, d, ins, sid);
      VouchedHandled(c, key, d, Last(ins), sid, Now(Init(ins)));
    }
  }

  /** Whatever the tool breaks, an interval of H heartbeats earns at most
      3H/5 impressions at its `Stop`. */
  lemma {:induction false} LivenessGate(c: Crypto, key: DeviceKey, creative: Option<string>, ins: seq<Input>, stop: Input)
    requires Monotone(ins + [stop]) && stop.msg.Hook?
    ensures 5 * Earned(Run(c, key, creative, ins), stop) <= 3 * HeartbeatsSincePrompt(ins, stop.msg.sessionId)
  {
    var d, sid := Run(c, key, creative, ins), stop.msg.sessionId;
    forall i, j | 0 <= i < j < |ins| ensures ins[i].recvMs <= ins[j].recvMs {
      assert (ins + [stop])[i].recvMs <= (ins + [stop])[j].recvMs;
    }
    assert Now(ins) <= stop.recvMs by {
      if ins != [] {
        assert (ins + [stop])[|ins| - 1].recvMs <= (ins + [stop])[|ins|].recvMs;
      }
    }
    GateKept(c, key, creative, ins, sid);
    VouchedStep(SessionOf(d, sid), Now(ins), Now(ins));
    GateBound(Touched(d, sid), Now(ins), stop.recvMs);
  }

  // ============================================== interleaving independence

  /** The inputs that concern one session: its hooks and heartbeats, and all
      commands. */
  function Only(ins: seq<Input>, sid: string): seq<Input> {
    if ins == [] then []
    else Only(Init(ins), sid) + (if Concerns(Last(ins), sid) then [Last(ins)] else [])
  }

  predicate Concerns(i: Input, sid: string) {
    i.msg.Cmd? || i.msg.sessionId == sid
  }

  /** The positive impression counts earned by one session, in order. */
  function Earnings(c: Crypto, key: DeviceKey, creative: Option<string>, ins: seq<Input>, sid: string): seq<nat>
  {
    if ins == [] then []
    else
      var n := Earned(Run(c, key, creative, Init(ins)), Last(ins));
      Earnings(c, key, creative, Init(ins), sid) + (if IsHook(Last(ins), sid) && n > 0 then [n] else [])
  }

  /** Two daemon states look the same to session `sid`. */
  predicate SameFor(a: DaemonState, b: DaemonState, sid: string) {
    && a.paused == b.paused
    && (sid in a.sessions <==> sid in b.sessions)
    && SessionOf(a, sid) == SessionOf(b, sid)
  }

  lemma {:induction false} SameForStep(c: Crypto, key: DeviceKey, a: DaemonState, b: DaemonState, i: Input, sid: string)
    requires SameFor(a, b, sid)
    ensures Concerns(i, sid) ==> SameFor(Handled(c, key, a, i), Handled(c, key, b, i), sid)
    ensures !Concerns(i, sid) ==> SameFor(Handled(c, key, a, i), b, sid)
    ensures IsHook(i, sid) ==> Earned(a, i) == Earned(b, i)
  {
    SessionAfter(c, key, a, i, sid);
    SessionAfter(c, key, b, i, sid);
  }

  /** Other sessions do not matter: in any interleaving a session earns what it
      earns in a daemon that is fed only its own inputs and the commands. */
  lemma {:induction false} InterleavingIndependence(c: Crypto, key: DeviceKey, creative: Option<string>, ins: seq<Input>, sid: string)
    ensures SameFor(Run(c, key, creative, ins), Run(c, key, creative, Only(ins, sid)), sid)
    ensures Earnings(c, key, creative, ins, sid) == Earnings(c, key, creative, Only(ins, sid), sid)
  {
    if ins == [] {
    } else {
      var rest, i := Init(ins), Last(ins);
      assert ins == rest + [i];
      var own := Only(rest, sid);
      InterleavingIndependence(c, key, creative, rest, sid);
      SameForStep(c, key, Run(c, key, creative, rest), Run(c, key, creative, own), i, sid);
      EarningsAppend(c, key, creative, rest, i, sid);
      if Concerns(i, sid) {
        EarningsAppend(c, key, creative, own, i, sid);
        assert Only(ins, sid) == own + [i];
      } else {
        assert Only(ins, sid) == own;
      }
    }
  }

  lemma {:induction false} EarningsAppend(c: Crypto, key: DeviceKey, creative: Option<string>, ins: seq<Input>, i: Input, sid: string)
    ensures Run(c, key, creative, ins + [i]) == Handled(c, key, Run(c, key, creative, ins), i)
    ensures var n := Earned(Run(c, key, creative, ins), i);
      Earnings(c, key, creative, ins + [i], sid) ==
      Earnings(c, key, creative, ins, sid) + (if IsHook(i, sid) && n > 0 then [n] else [])
  {
    assert Init(ins + [i]) == ins;
  }

  // ================================================================== pause

  /** Each session's pause flag is the daemon's. */
  ghost predicate PauseAgrees(d: DaemonState) {
    forall sid :: sid in d.sessions ==> d.sessions[sid].paused == d.paused
  }

  lemma {:induction false} PauseAlwaysAgrees(c: Crypto, key: DeviceKey, creative: Option<string>, ins: seq<Input>)
    ensures PauseAgrees(Run(c, key, creative, ins))
  {
    if ins == [] {
    } else {
      PauseAlwaysAgrees(c, key, creative, Init(ins));
    }
  }

  /** While the daemon is paused no session gains a countable second. */
  lemma {:induction false} PausedGainsNothing(c: Crypto, key: DeviceKey, d: DaemonState, i: Input, sid: string)
    requires d.paused && PauseAgrees(d)
    ensures SessionOf(Handled(c, key, d, i), sid).countableSeconds <= SessionOf(d, sid).countableSeconds
    ensures 5 * Earned(d, i) <= if i.msg.Hook? then SessionOf(d, i.msg.sessionId).countableSeconds else 0
  {
    SessionAfter(c, key, d, i, sid);
  }

  ghost predicate NoResume(ins: seq<Input>) {
    forall i :: i in ins ==> i.msg != Cmd(Resume)
  }

  /** As long as a pause lasts, whatever arrives, no session has more countable
      seconds than when it began. */
  lemma {:induction false} PauseFreezesSeconds(c: Crypto, key: DeviceKey, creative: Option<string>, before: seq<Input>, during: seq<Input>, sid: string)
    requires Run(c, key, creative, before).paused && NoResume(during)
    ensures Run(c, key, creative, before + during).paused
    ensures SessionOf(Run(c, key, creative, before + during), sid).countableSeconds
         <= SessionOf(Run(c, key, creative, before), sid).countableSeconds
  {
    if during == [] {
      assert before + during == before;
    } else {
      var rest, i := Init(during), Last(during);
      assert before + during == (before + rest) + [i];
      forall x | x in rest ensures x.msg != Cmd(Resume) {
        assert x in during;
      }
      assert i in during;
      PauseFreezesSeconds(c, key, creative, before, rest, sid);
      PauseLasts(c, key, creative, before + rest, i, sid);
    }
  }

  lemma {:induction false} PauseLasts(c: Crypto, key: DeviceKey, creative: Option<string>, ins: seq<Input>, i: Input, sid: string)
    requires Run(c, key, creative, ins).paused && i.msg != Cmd(Resume)
    ensures Run(c, key, creative, ins + [i]).paused
    ensures SessionOf(Run(c, key, creative, ins + [i]), sid).countableSeconds <= SessionOf(Run(c, key, creative, ins), sid).countableSeconds
  {
    PauseAlwaysAgrees(c, key, creative, ins);
    RunAppend(c, key, creative, ins, i);
    PausedGainsNothing(c, key, Run(c, key, creative, ins), i, sid);
  }

  /** An interval that is opened and stopped under one pause emits nothing. */
  lemma {:induction false} PausedIntervalEarnsNothing(c: Crypto, key: DeviceKey, creative: Option<string>, before: seq<Input>, prompt: Input, during: seq<Input>, stop: Input)
    requires Run(c, key, creative, before).paused && NoResume(during)
    requires prompt.msg.Hook? && prompt.msg.eventName == "UserPromptSubmit" && stop.msg == Hook("Stop", prompt.msg.sessionId)
    ensures var d := Run(c, key, creative, before + [prompt] + during);
      d.paused && SessionOf(d, prompt.msg.sessionId).countableSeconds == 0 && Earned(d, stop) == 0
  {
    var sid := prompt.msg.sessionId;
    PromptUnderPause(c, key, creative, before, prompt);
    PauseFreezesSeconds(c, key, creative, before + [prompt], during, sid);
    PauseAlwaysAgrees(c, key, creative, before + [prompt] + during);
    PausedGainsNothing(c, key, Run(c, key, creative, before + [prompt] + during), stop, sid);
  }

  lemma {:induction false} PromptUnderPause(c: Crypto, key: DeviceKey, creative: Option<string>, before: seq<Input>, prompt: Input)
    requires Run(c, key, creative, before).paused
    requires prompt.msg.Hook? && prompt.msg.eventName == "UserPromptSubmit"
    ensures var d := Run(c, key, creative, before + [prompt]);
      d.paused && SessionOf(d, prompt.msg.sessionId).countableSeconds == 0
  {
    RunAppend(c, key, creative, before, prompt);
  }

  /** The flag is read only when a sub-span closes: a pause that is resumed
      before any hook arrives leaves no trace, and the paused time counts. */
  lemma {:induction false} PauseBetweenHooksIsInvisible(c: Crypto, key: DeviceKey, creative: Option<string>, before: seq<Input>, pause: Input, during: seq<Input>, resume: Input)
    requires !Run(c, key, creative, before).paused
    requires pause.msg == Cmd(Pause) && resume.msg == Cmd(Resume)
    requires forall i :: i in during ==> i.msg.Heartbeat?
    ensures Run(c, key, creative, before + [pause] + during + [resume]) == Run(c, key, creative, before + during)
  {
    var mid := before + [pause] + during;
    RunAppend(c, key, creative, mid, resume);
    PausedHeartbeats(c, key, creative, before, pause, during);
    PauseAlwaysAgrees(c, key, creative, before + during);
    var a, b := Run(c, key, creative, before + during), Run(c, key, creative, mid);
    assert SetPausedAll(b.sessions, false) == a.sessions;
  }

  lemma {:induction false} PausedHeartbeats(c: Crypto, key: DeviceKey, creative: Option<string>, before: seq<Input>, pause: Input, during: seq<Input>)
    requires !Run(c, key, creative, before).paused
    requires pause.msg == Cmd(Pause)
    requires forall i :: i in during ==> i.msg.Heartbeat?
    ensures !Run(c, key, creative, before + during).paused
    ensures Run(c, key, creative, before + [pause] + during) == Paused(Run(c, key, creative, before + during))
  {
    if during == [] {
      RunAppend(c, key, creative, before, pause);
      assert before + [pause] + during == before + [pause] && before + during == before;
    } else {
      var short, long, i := before + Init(during), before + [pause] + Init(during), Last(during);
      PausedHeartbeats(c, key, creative, before, pause, Init(during));
      assert before + during == short + [i] && before + [pause] + during == long + [i];
      PausedHeartbeat(c, key, creative, short, long, i);
    }
  }

  lemma {:induction false} PausedHeartbeat(c: Crypto, key: DeviceKey, creative: Option<string>, short: seq<Input>, long: seq<Input>, i: Input)
    requires i.msg.Heartbeat? && !Run(c, key, creative, short).paused
    requires Run(c, key, creative, long) == Paused(Run(c, key, creative, short))
    ensures !Run(c, key, creative, short + [i]).paused
    ensures Run(c, key, creative, long + [i]) == Paused(Run(c, key, creative, short + [i]))
  {
    RunAppend(c, key, creative, short, i);
    RunAppend(c, key, creative, long, i);
    HeartbeatWhilePaused(c, key, Run(c, key, creative, short), i);
  }

  function Paused(d: DaemonState): DaemonState {
    d.(paused := true, sessions := SetPausedAll(d.sessions, true))
  }

  lemma {:induction false} HeartbeatWhilePaused(c: Crypto, key: DeviceKey, d: DaemonState, i: Input)
    requires i.msg.Heartbeat?
    ensures Handled(c, key, Paused(d), i) == Paused(Handled(c, key, d, i))
  {
    assert Handled(c, key, Paused(d), i).sessions == SetPausedAll(Handled(c, key, d, i).sessions, true);
  }

  /** So seconds spent paused can be billed: a wait that is paused from its first
      millisecond to its last still earns its impression. */
  lemma {:induction false} PausedWaitStillEarns(c: Crypto, key: DeviceKey, creative: Option<string>, id: string)
    ensures var sid := "s";
      var prompt, pause := Input(Hook("UserPromptSubmit", sid), 0, id), Input(Cmd(Pause), 0, id);
      var beats := [Input(Heartbeat(sid), 1000, id), Input(Heartbeat(sid), 3000, id), Input(Heartbeat(sid), 5000, id)];
      var resume, stop := Input(Cmd(Resume), 5000, id), Input(Hook("Stop", sid), 5000, id);
      && Run(c, key, creative, [prompt] + [pause] + beats).paused
      && Earned(Run(c, key, creative, [prompt] + [pause] + beats + [resume]), stop) == 1
  {
    var sid := "s";
    var prompt, pause := Input(Hook("UserPromptSubmit", sid), 0, id), Input(Cmd(Pause), 0, id);
    var b1, b2, b3 := Input(Heartbeat(sid), 1000, id), Input(Heartbeat(sid), 3000, id), Input(Heartbeat(sid), 5000, id);
    var beats := [b1, b2, b3];
    var resume := Input(Cmd(Resume), 5000, id);
    AfterPrompt(c, key, creative, prompt);
    PausedHeartbeats(c, key, creative, [prompt], pause, beats);
    PauseBetweenHooksIsInvisible(c, key, creative, [prompt], pause, beats, resume);
    AfterBeats(c, key, creative, prompt, b1, b2, b3);
    FiveTicks([1000, 3000, 5000]);
  }

  lemma {:induction false} AfterPrompt(c: Crypto, key: DeviceKey, creative: Option<string>, prompt: Input)
    requires prompt.msg == Hook("UserPromptSubmit", "s") && prompt.recvMs == 0
    ensures var d := Run(c, key, creative, [prompt]);
      !d.paused && "s" in d.sessions && SessionOf(d, "s") == SessionState(Waiting, Some(0), 0, [], false, true)
  {
    RunAppend(c, key, creative, [], prompt);
    assert [] + [prompt] == [prompt];
  }

  lemma {:induction false} AfterBeats(c: Crypto, key: DeviceKey, creative: Option<string>, prompt: Input, b1: Input, b2: Input, b3: Input)
    requires prompt.msg == Hook("UserPromptSubmit", "s") && prompt.recvMs == 0
    requires b1.msg == b2.msg == b3.msg == Heartbeat("s") && b1.recvMs == 1000 && b2.recvMs == 3000 && b3.recvMs == 5000
    ensures var d := Run(c, key, creative, [prompt] + [b1, b2, b3]);
      !d.paused && SessionOf(d, "s") == SessionState(Waiting, Some(0), 0, [1000, 3000, 5000], false, true)
  {
    AfterPrompt(c, key, creative, prompt);
    RunAppend(c, key, creative, [prompt], b1);
    RunAppend(c, key, creative, [prompt] + [b1], b2);
    RunAppend(c, key, creative, [prompt] + [b1] + [b2], b3);
    assert [prompt] + [b1, b2, b3] == [prompt] + [b1] + [b2] + [b3];
    assert SessionOf(Run(c, key, creative, [prompt] + [b1, b2, b3]), "s").heartbeats == [1000, 3000, 5000];
  }

  lemma {:induction false} FiveTicks(heartbeats: seq<nat>)
    requires 1000 in heartbeats && 3000 in heartbeats && 5000 in heartbeats
    ensures Countable(0, 5000, heartbeats, GATE_WINDOW_MS, false, true) == 5
  {
    var ticks := CountedTicks(0, 5000, heartbeats, GATE_WINDOW_MS);
    assert Covered(1000, heartbeats, 2000) && Covered(2000, heartbeats, 2000) && Covered(3000, heartbeats, 2000);
    assert Covered(4000, heartbeats, 2000) && Covered(5000, heartbeats, 2000);
    assert {1000, 2000, 3000, 4000, 5000} <= ticks;
    CountableWithinSpan(0, 5000, heartbeats, GATE_WINDOW_MS, false, true);
    SubsetSize({1000, 2000, 3000, 4000, 5000}, ticks);
  }

  lemma {:induction false} SubsetSize(a: set<int>, b: set<int>)
    requires a <= b
    ensures |a| <= |b|
  {
    assert b == a + (b - a);
  }
}
