/** What a session earns, read off the trace of inputs alone, and what a pause
    does to it. */
module PauseRuns {
  import opened Basics
  import opened Engine
  import opened Socket
  import opened Proto
  import opened Daemon
  import opened DaemonRuns

  // ------------------------------------------------------ reading the trace

  /** The latest pause or resume command was a pause. */
  predicate PausedIn(ins: seq<Input>) {
    ins != [] && (Last(ins).msg == Cmd(Pause) || (Last(ins).msg != Cmd(Resume) && PausedIn(Init(ins))))
  }

  /** Receipt times of the session's heartbeats since its latest prompt. */
  function Beats(ins: seq<Input>, sid: string): seq<nat> {
    if ins == [] || Last(ins).msg == Hook("UserPromptSubmit", sid) then []
    else Beats(Init(ins), sid) + (if Last(ins).msg == Heartbeat(sid) then [Last(ins).recvMs] else [])
  }

  /** The covered ticks of the session's open sub-span, up to `ts`. */
  function OpenTicks(ins: seq<Input>, sid: string, ts: nat): set<int> {
    match OpenSince(ins, sid)
    case None => {}
    case Some(open) => CountedTicks(open, ts, Beats(ins, sid), GATE_WINDOW_MS)
  }

  /** What closing the sub-span at `ts` adds: nothing under a pause, and otherwise
      every covered tick, whatever pauses lay inside. */
  function SecondsAtClose(ins: seq<Input>, sid: string, ts: nat): nat {
    if PausedIn(ins) then 0 else |OpenTicks(ins, sid, ts)|
  }

  /** Seconds the interval has gathered in the sub-spans closed so far. */
  function Accrued(ins: seq<Input>, sid: string): nat {
    if ins == [] then 0
    else if !IsHook(Last(ins), sid) then Accrued(Init(ins), sid)
    else
      var name := Last(ins).msg.eventName;
      if name == "UserPromptSubmit" || name == "Stop" || name == "SessionEnd" then 0
      else Accrued(Init(ins), sid) + (if name == "PreToolUse" then SecondsAtClose(Init(ins), sid, Last(ins).recvMs) else 0)
  }

  // ------------------------------------------- the sessions agree with the trace

  predicate TracedAt(d: DaemonState, ins: seq<Input>, sid: string) {
    var s := SessionOf(d, sid);
    && s.ttyAttested
    && d.paused == PausedIn(ins)
    && s.countableSeconds == Accrued(ins, sid)
    && (s.phase != Idle ==> s.heartbeats == Beats(ins, sid))
  }

  lemma {:induction false} TracedStep(c: Crypto, key: DeviceKey, d: DaemonState, ins: seq<Input>, sid: string)
    requires ins != [] && TracedAt(d, Init(ins), sid) && ClockedAt(d, Init(ins), sid)
    requires IsHook(Last(ins), sid)
    ensures TracedAt(Handled(c, key, d, Last(ins)), ins, sid)
  {
    SessionAfter(c, key, d, Last(ins), sid);
    assert Handled(c, key, d, Last(ins)).paused == d.paused;
  }

  lemma {:induction false} TracedOther(c: Crypto, key: DeviceKey, d: DaemonState, ins: seq<Input>, sid: string)
    requires ins != [] && TracedAt(d, Init(ins), sid) && ClockedAt(d, Init(ins), sid)
    requires !IsHook(Last(ins), sid)
    ensures TracedAt(Handled(c, key, d, Last(ins)), ins, sid)
  {
    SessionAfter(c, key, d, Last(ins), sid);
  }

  lemma {:induction false} AlwaysTraced(c: Crypto, key: DeviceKey, creative: Option<string>, ins: seq<Input>, sid: string)
    ensures TracedAt(Run(c, key, creative, ins), ins, sid)
  {
    if ins == [] {
    } else {
      var d := Run(c, key, creative, Init(ins));
      AlwaysTraced(c, key, creative, Init(ins), sid);
      ClockAgrees(c, key, creative, Init(ins));
      assert ClockedAt(d, Init(ins), sid);
      if IsHook(Last(ins), sid) {
        TracedStep(c, key, d, ins, sid);
      } else {
        TracedOther(c, key, d, ins, sid);
      }
    }
  }

  /** Closing a sub-span, by `PreToolUse` or `Stop`, adds exactly what the trace
      says, on top of what the trace says was gathered before. */
  lemma {:induction false} CloseAdds(c: Crypto, key: DeviceKey, creative: Option<string>, ins: seq<Input>, sid: string, ts: nat)
    ensures var s := Touched(Run(c, key, creative, ins), sid);
      && s.countableSeconds == Accrued(ins, sid)
      && AtStop(s, ts).countableSeconds == Accrued(ins, sid) + SecondsAtClose(ins, sid, ts)
  {
    ClockAgrees(c, key, creative, ins);
    assert ClockedAt(Run(c, key, creative, ins), ins, sid);
    AlwaysTraced(c, key, creative, ins, sid);
  }

  /** Every impression, exactly: a `Stop` earns the fifth part, rounded down and
      capped, of the seconds that a reading of the trace alone yields. */
  lemma {:induction false} ExactEarnings(c: Crypto, key: DeviceKey, creative: Option<string>, ins: seq<Input>, stop: Input)
    requires stop.msg.Hook? && stop.msg.eventName == "Stop"
    ensures var sid := stop.msg.sessionId;
      Earned(Run(c, key, creative, ins), stop) == Impressions(Accrued(ins, sid) + SecondsAtClose(ins, sid, stop.recvMs))
  {
    CloseAdds(c, key, creative, ins, stop.msg.sessionId, stop.recvMs);
  }

  /** Which ticks count, from the trace: whole seconds after the sub-span opened
      with a heartbeat of the interval at most 2000 ms before. */
  lemma {:induction false} TickCounts(ins: seq<Input>, sid: string, ts: nat, t: int)
    ensures t in OpenTicks(ins, sid, ts) <==>
      OpenSince(ins, sid).Some? && IsTick(OpenSince(ins, sid).value, ts, t) && Beating(Beats(ins, sid), t)
  {
    match OpenSince(ins, sid) {
      case None =>
      case Some(open) => GateIsTwoSeconds(open, ts, Beats(ins, sid), t);
    }
  }

  /** A wait with a heartbeat at most 2000 ms before each of its ticks, closed
      outside a pause, counts every whole second, and `Stop` pays for it. */
  lemma {:induction false} SteadyWaitEarns(c: Crypto, key: DeviceKey, creative: Option<string>, ins: seq<Input>, stop: Input, open: nat)
    requires stop.msg.Hook? && stop.msg.eventName == "Stop" && !PausedIn(ins)
    requires OpenSince(ins, stop.msg.sessionId) == Some(open) && open <= stop.recvMs
    requires forall t :: IsTick(open, stop.recvMs, t) ==> Beating(Beats(ins, stop.msg.sessionId), t)
    ensures var seconds := Accrued(ins, stop.msg.sessionId) + (stop.recvMs - open) / 1000;
      Earned(Run(c, key, creative, ins), stop) == if seconds >= 300 then 60 else seconds / 5
  {
    var sid, whole := stop.msg.sessionId, (stop.recvMs - open) / 1000;
    ExactEarnings(c, key, creative, ins, stop);
    forall t | IsTick(open, open + whole * 1000, t) ensures Beating(Beats(ins, sid), t) {
      assert IsTick(open, stop.recvMs, t);
    }
    AllCovered(open, whole, Beats(ins, sid));
    PartialSecondDropped(open, stop.recvMs, Beats(ins, sid), GATE_WINDOW_MS);
  }

  /** A wait whose heartbeats at or before each tick are all more than 2000 ms old
      adds nothing to what was gathered before. */
  lemma {:induction false} StaleWaitEarnsNothing(c: Crypto, key: DeviceKey, creative: Option<string>, ins: seq<Input>, stop: Input, open: nat)
    requires stop.msg.Hook? && stop.msg.eventName == "Stop" && OpenSince(ins, stop.msg.sessionId) == Some(open)
    requires forall t :: IsTick(open, stop.recvMs, t) ==> !Beating(Beats(ins, stop.msg.sessionId), t)
    ensures Earned(Run(c, key, creative, ins), stop) == Impressions(Accrued(ins, stop.msg.sessionId))
  {
    ExactEarnings(c, key, creative, ins, stop);
    NoneCovered(open, stop.recvMs, Beats(ins, stop.msg.sessionId), false, true);
  }

  // ---------------------------------------------------------- known sessions

  /** Reading the trace alone: a session is on record from its first hook until
      its `SessionEnd`; heartbeats and commands create none. */
  predicate Known(ins: seq<Input>, sid: string) {
    ins != [] && if IsHook(Last(ins), sid) then Last(ins).msg.eventName != "SessionEnd" else Known(Init(ins), sid)
  }

  lemma {:induction false} SessionsKnown(c: Crypto, key: DeviceKey, creative: Option<string>, ins: seq<Input>, sid: string)
    ensures sid in Run(c, key, creative, ins).sessions <==> Known(ins, sid)
  {
    if ins == [] {
    } else {
      SessionsKnown(c, key, creative, Init(ins), sid);
    }
  }

  // --------------------------------------------- seconds spent under a pause

  /** The latest pause or resume command received up to `t` was a pause. */
  predicate PausedAt(ins: seq<Input>, t: int) {
    ins != [] &&
    if Last(ins).recvMs <= t && Last(ins).msg == Cmd(Pause) then true
    else if Last(ins).recvMs <= t && Last(ins).msg == Cmd(Resume) then false
    else PausedAt(Init(ins), t)
  }

  /** The documented seconds of the open sub-span: covered and not paused at the
      tick itself. */
  function UnpausedTicks(ins: seq<Input>, sid: string, ts: nat): set<int> {
    set t | t in OpenTicks(ins, sid, ts) && !PausedAt(ins, t)
  }

  /** Against the rule that a paused second never counts, a sub-span counts too
      much exactly when a covered tick fell in a pause that is over by the close,
      and too little exactly when it closes under a pause that some covered tick
      lay outside of. */
  lemma {:induction false} PausedSecondsCounted(ins: seq<Input>, sid: string, ts: nat)
    ensures SecondsAtClose(ins, sid, ts) > |UnpausedTicks(ins, sid, ts)| <==>
      !PausedIn(ins) && exists t :: t in OpenTicks(ins, sid, ts) && PausedAt(ins, t)
    ensures SecondsAtClose(ins, sid, ts) < |UnpausedTicks(ins, sid, ts)| <==>
      PausedIn(ins) && exists t :: t in OpenTicks(ins, sid, ts) && !PausedAt(ins, t)
  {
    var all, some := OpenTicks(ins, sid, ts), UnpausedTicks(ins, sid, ts);
    SubsetSize(some, all);
    if t :| t in all && PausedAt(ins, t) {
      SubsetSize(some, all - {t});
    } else {
      assert some == all;
    }
    if t :| t in all && !PausedAt(ins, t) {
      assert t in some;
    } else {
      assert some == {};
    }
  }

  // ------------------------------------------------- pauses between own hooks

  lemma {:induction false} OnlyConcat(a: seq<Input>, b: seq<Input>, sid: string)
    ensures Only(a + b, sid) == Only(a, sid) + Only(b, sid)
  {
    if b == [] {
      assert a + b == a;
    } else {
      assert Init(a + b) == a + Init(b) && Last(a + b) == Last(b);
      OnlyConcat(a, Init(b), sid);
    }
  }

  /** Neither a hook of the session nor a pause or resume. */
  ghost predicate LeavesAlone(during: seq<Input>, sid: string) {
    forall i :: i in during ==> !IsHook(i, sid) && !i.msg.Cmd?
  }

  lemma {:induction false} OnlyHeartbeats(during: seq<Input>, sid: string)
    requires LeavesAlone(during, sid)
    ensures forall i :: i in Only(during, sid) ==> i.msg.Heartbeat?
  {
    if during == [] {
    } else {
      assert Last(during) in during;
      forall i | i in Init(during) ensures i in during {
      }
      OnlyHeartbeats(Init(during), sid);
    }
  }

  /** A pause that is resumed before the session's next hook leaves no trace on
      that session, whatever the other sessions do meanwhile. */
  lemma {:induction false} PauseBetweenOwnHooksIsInvisible(c: Crypto, key: DeviceKey, creative: Option<string>, before: seq<Input>, pause: Input, during: seq<Input>, resume: Input, sid: string)
    requires !Run(c, key, creative, before).paused && LeavesAlone(during, sid)
    requires pause.msg == Cmd(Pause) && resume.msg == Cmd(Resume)
    ensures SameFor(Run(c, key, creative, before + [pause] + during + [resume]), Run(c, key, creative, before + during), sid)
  {
    var long, short := before + [pause] + during + [resume], before + during;
    InterleavingIndependence(c, key, creative, before, sid);
    InterleavingIndependence(c, key, creative, long, sid);
    InterleavingIndependence(c, key, creative, short, sid);
    OnlyHeartbeats(during, sid);
    OnlyAround(before, pause, during, resume, sid);
    PauseBetweenHooksIsInvisible(c, key, creative, Only(before, sid), pause, Only(during, sid), resume);
  }

  lemma {:induction false} OnlyAround(before: seq<Input>, pause: Input, during: seq<Input>, resume: Input, sid: string)
    requires pause.msg.Cmd? && resume.msg.Cmd?
    ensures Only(before + [pause] + during + [resume], sid) == Only(before, sid) + [pause] + Only(during, sid) + [resume]
    ensures Only(before + during, sid) == Only(before, sid) + Only(during, sid)
  {
    OnlyConcat(before + [pause] + during, [resume], sid);
    OnlyConcat(before + [pause], during, sid);
    OnlyConcat(before, [pause], sid);
    OnlyConcat(before, during, sid);
    assert Init([pause]) == [] && Init([resume]) == [];
    assert Only([pause], sid) == [pause] && Only([resume], sid) == [resume];
  }

  // ------------------------------------------------ heartbeats under another id

  /** A session that no heartbeat names earns nothing, as when the status line
      reports it under another id than the hooks do. */
  lemma {:induction false} UnheardEarnsNothing(c: Crypto, key: DeviceKey, creative: Option<string>, ins: seq<Input>, stop: Input)
    requires stop.msg.Hook? && stop.msg.eventName == "Stop"
    requires forall i :: i in ins ==> i.msg != Heartbeat(stop.msg.sessionId)
    ensures Earned(Run(c, key, creative, ins), stop) == 0
  {
    ExactEarnings(c, key, creative, ins, stop);
    NothingAccrued(ins, stop.msg.sessionId);
    NoTicks(ins, stop.msg.sessionId, stop.recvMs);
  }

  lemma {:induction false} NothingAccrued(ins: seq<Input>, sid: string)
    requires forall i :: i in ins ==> i.msg != Heartbeat(sid)
    ensures Accrued(ins, sid) == 0
  {
    if ins == [] {
    } else {
      forall i | i in Init(ins) ensures i in ins {
      }
      assert Last(ins) in ins;
      NothingAccrued(Init(ins), sid);
      NoTicks(Init(ins), sid, Last(ins).recvMs);
    }
  }

  lemma {:induction false} NoTicks(ins: seq<Input>, sid: string, ts: nat)
    requires forall i :: i in ins ==> i.msg != Heartbeat(sid)
    ensures SecondsAtClose(ins, sid, ts) == 0
  {
    NoBeats(ins, sid);
    assert OpenTicks(ins, sid, ts) == {};
  }

  lemma {:induction false} NoBeats(ins: seq<Input>, sid: string)
    requires forall i :: i in ins ==> i.msg != Heartbeat(sid)
    ensures Beats(ins, sid) == []
  {
    if ins == [] {
    } else {
      forall i | i in Init(ins) ensures i in ins {
      }
      assert Last(ins) in ins;
      NoBeats(Init(ins), sid);
    }
  }
}
