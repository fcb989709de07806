/** The daemon's dispatcher (crates/spnrd/src/main.rs): many sessions, one
    global pause, one hash-chained log of impression events. */
module Daemon {
  import opened Basics
  import opened Engine
  import opened Socket
  import opened Proto

  /** `queue` is every envelope appended to queue.log and sent to the flush
      channel, oldest first. */
  datatype DaemonState = DaemonState(
    sessions: map<string, SessionState>,
    paused: bool,
    ctr: nat,
    prev: string,
    impressionsTotal: nat,
    creative: Option<string>,
    queue: seq<SignedEvent>)

  /** A decoded datagram, its receipt time, and the event id minted if needed. */
  datatype Input = Input(msg: SocketMsg, recvMs: nat, newId: string)

  function Start(creative: Option<string>): DaemonState {
    DaemonState(map[], false, 0, GENESIS_PREV, 0, creative, [])
  }

  function SessionOf(d: DaemonState, sid: string): SessionState {
    if sid in d.sessions then d.sessions[sid] else NEW_SESSION
  }

  /** A hook first creates its session if missing and copies the pause flag. */
  function Touched(d: DaemonState, sid: string): SessionState {
    SessionOf(d, sid).(paused := d.paused)
  }

  function AfterHook(s: SessionState, name: string, ts: nat): SessionState {
    if name == "UserPromptSubmit" then OnPromptSubmit(s, ts)
    else if name == "PreToolUse" then OnPreTool(s, ts)
    else if name == "PostToolUse" then OnPostTool(s, ts)
    else if name == "Stop" then ResetInterval(s)
    else s
  }

  /** Impressions the input earns: only `Stop` earns any. */
  function Earned(d: DaemonState, i: Input): (n: nat)
    ensures n <= 60
  {
    if i.msg.Hook? && i.msg.eventName == "Stop"
    then StopImpressions(Touched(d, i.msg.sessionId), i.recvMs)
    else 0
  }

  function NewEvent(key: DeviceKey, d: DaemonState, sid: string, n: u32, i: Input): Event {
    Event(1, i.newId, d.ctr, d.prev, i.recvMs / 1000, Imp, key.fingerprint(sid), d.creative, Some(n))
  }

  function Emit(c: Crypto, key: DeviceKey, d: DaemonState, sid: string, n: u32, i: Input): DaemonState
  {
    var e := NewEvent(key, d, sid, n, i);
    d.(prev := c.chainNext(e),
       ctr := d.ctr + 1,
       impressionsTotal := d.impressionsTotal + n,
       queue := d.queue + [SignedEvent(e, HexEncode(key.sign(e)))])
  }

  function SetPausedAll(sessions: map<string, SessionState>, p: bool): map<string, SessionState> {
    map sid | sid in sessions :: sessions[sid].(paused := p)
  }

  function Handled(c: Crypto, key: DeviceKey, d: DaemonState, i: Input): DaemonState
  {
    match i.msg
    case Hook(name, sid) =>
      var sessions :=
        if name == "SessionEnd" then d.sessions - {sid}
        else d.sessions[sid := AfterHook(Touched(d, sid), name, i.recvMs)];
      var d' := d.(sessions := sessions);
      if Earned(d, i) > 0 then Emit(c, key, d', sid, Earned(d, i), i) else d'
    case Heartbeat(sid) =>
      if sid in d.sessions
      then d.(sessions := d.sessions[sid := OnHeartbeat(d.sessions[sid], i.recvMs)])
      else d
    case Cmd(Pause) => d.(paused := true, sessions := SetPausedAll(d.sessions, true))
    case Cmd(Resume) => d.(paused := false, sessions := SetPausedAll(d.sessions, false))
    case Cmd(Ping) => d
  }

  /** Ending a session drops it, whatever the hook did to it before. */
  lemma {:induction false} EndEvicts(c: Crypto, key: DeviceKey, d: DaemonState, i: Input, s: SessionState)
    requires i.msg.Hook? && i.msg.eventName == "SessionEnd"
    ensures var sid := i.msg.sessionId;
      d.(sessions := d.sessions[sid := s] - {sid}) == Handled(c, key, d, i)
  {
    var sid := i.msg.sessionId;
    assert d.sessions[sid := s] - {sid} == d.sessions - {sid};
  }

  class Dispatcher {
    const crypto: Crypto
    const key: DeviceKey
    const creative: Option<string>
    var sessions: map<string, Session>
    var paused: bool
    var ctr: nat
    var prev: string
    var impressionsTotal: nat
    var queue: seq<SignedEvent>

    /** No two session ids share a session record. */
    ghost predicate Valid()
      reads this
    {
      && forall a, b :: a in sessions && b in sessions && a != b ==> sessions[a] != sessions[b]
    }

    ghost function View(): DaemonState
      reads this, sessions.Values
    {
      DaemonState(map sid | sid in sessions :: sessions[sid].View(), paused, ctr, prev, impressionsTotal, creative, queue)
    }

    constructor (crypto: Crypto, key: DeviceKey, creative: Option<string>)
      ensures Valid() && View() == Start(creative) && sessions == map[]
      ensures this.crypto == crypto && this.key == key
    {
      this.crypto := crypto;
      this.key := key;
      this.creative := creative;
      sessions := map[];
      paused := false;
      ctr := 0;
      prev := GENESIS_PREV;
      impressionsTotal := 0;
      queue := [];
    }

    /** Dispatches one datagram: the new state is exactly `Handled`. */
    method Handle(i: Input)
      requires Valid()
      modifies this, sessions.Values
      ensures Valid() && fresh(sessions.Values - old(sessions.Values))
      ensures View() == Handled(crypto, key, old(View()), i)
    {
      match i.msg {
        case Hook(name, sid) =>
          if name == "SessionEnd" {
            HandleSessionEnd(i, sid);
          } else {
            HandleHook(i, name, sid);
          }
        case Heartbeat(sid) =>
          if sid in sessions {
            sessions[sid].HeartbeatAt(i.recvMs);
          }
        case Cmd(Pause) => PauseAll(true);
        case Cmd(Resume) => PauseAll(false);
        case Cmd(Ping) =>
      }
    }

    method HandleHook(i: Input, name: string, sid: string)
      requires Valid() && i.msg == Hook(name, sid) && name != "SessionEnd"
      modifies this, sessions.Values
      ensures Valid() && fresh(sessions.Values - old(sessions.Values))
      ensures View() == Handled(crypto, key, old(View()), i)
    {
      var impressions := RunHook(name, sid, i.recvMs);
      if impressions > 0 {
        EmitImpressions(sid, impressions, i);
      }
    }

    /** The session is touched like on any hook, then dropped. */
    method HandleSessionEnd(i: Input, sid: string)
      requires Valid() && i.msg == Hook("SessionEnd", sid)
      modifies this, sessions.Values
      ensures Valid() && fresh(sessions.Values - old(sessions.Values))
      ensures View() == Handled(crypto, key, old(View()), i)
    {
      ghost var before := View();
      var _ := RunHook("SessionEnd", sid, i.recvMs);
      Evict(sid);
      EndEvicts(crypto, key, before, i, AfterHook(Touched(before, sid), "SessionEnd", i.recvMs));
    }

    /** Creates the session if needed, copies the pause flag, runs the hook. */
    method RunHook(name: string, sid: string, ts: nat) returns (impressions: nat)
      requires Valid()
      modifies this`sessions, sessions.Values
      ensures Valid() && fresh(sessions.Values - old(sessions.Values))
      ensures View() == old(View()).(sessions := old(View()).sessions[sid := AfterHook(Touched(old(View()), sid), name, ts)])
      ensures impressions == if name == "Stop" then StopImpressions(Touched(old(View()), sid), ts) else 0
    {
      ghost var before := View();
      Touch(sid);
      impressions := Deliver(sid, name, ts);
      assert View().sessions == before.sessions[sid := AfterHook(Touched(before, sid), name, ts)];
    }

    method Evict(sid: string)
      requires Valid()
      modifies this`sessions
      ensures Valid() && sessions.Values <= old(sessions.Values)
      ensures View() == old(View()).(sessions := old(View()).sessions - {sid})
    {
      sessions := sessions - {sid};
      assert View().sessions == old(View()).sessions - {sid};
    }

    /** Finds or creates the session's record and copies the pause flag to it. */
    method Touch(sid: string)
      requires Valid()
      modifies this`sessions, sessions.Values
      ensures Valid() && sid in sessions && fresh(sessions.Values - old(sessions.Values))
      ensures View() == old(View()).(sessions := old(View()).sessions[sid := Touched(old(View()), sid)])
    {
      if sid !in sessions {
        var sess := new Session();
        sessions := sessions[sid := sess];
      }
      sessions[sid].SetPaused(paused);
      assert View().sessions == old(View()).sessions[sid := Touched(old(View()), sid)];
    }

    /** Runs the hook's event on one session; only `Stop` yields impressions. */
    method Deliver(sid: string, name: string, ts: nat) returns (impressions: nat)
      requires Valid() && sid in sessions
      modifies sessions[sid]
      ensures View() == old(View()).(sessions := old(View()).sessions[sid := AfterHook(old(View()).sessions[sid], name, ts)])
      ensures impressions == if name == "Stop" then StopImpressions(old(View()).sessions[sid], ts) else 0
    {
      impressions := Fire(sessions[sid], name, ts);
      assert View().sessions == old(View()).sessions[sid := AfterHook(old(View()).sessions[sid], name, ts)];
    }

    static method Fire(sess: Session, name: string, ts: nat) returns (impressions: nat)
      modifies sess
      ensures sess.View() == AfterHook(old(sess.View()), name, ts)
      ensures impressions == if name == "Stop" then StopImpressions(old(sess.View()), ts) else 0
    {
      impressions := 0;
      if name == "UserPromptSubmit" {
        sess.PromptSubmit(ts);
      } else if name == "PreToolUse" {
        sess.PreTool(ts);
      } else if name == "PostToolUse" {
        sess.PostTool(ts);
      } else if name == "Stop" {
        impressions := sess.Stop(ts);
      }
    }

    /** Builds, signs, chains and queues one impression event. */
    method EmitImpressions(sid: string, n: u32, i: Input)
      requires Valid()
      modifies this`ctr, this`prev, this`impressionsTotal, this`queue
      ensures Valid() && View() == Emit(crypto, key, old(View()), sid, n, i)
    {
      var e := Event(1, i.newId, ctr, prev, i.recvMs / 1000, Imp, key.fingerprint(sid), creative, Some(n));
      var sig := key.sign(e);
      prev := crypto.chainNext(e);
      ctr := ctr + 1;
      impressionsTotal := impressionsTotal + n;
      queue := queue + [SignedEvent(e, HexEncode(sig))];
    }

    method PauseAll(p: bool)
      requires Valid()
      modifies this`paused, sessions.Values
      ensures Valid()
      ensures View() == old(View()).(paused := p, sessions := SetPausedAll(old(View()).sessions, p))
    {
      SetEach(p);
      paused := p;
      assert View().sessions == SetPausedAll(old(View()).sessions, p);
    }

    method SetEach(p: bool)
      requires Valid()
      modifies sessions.Values
      ensures View().sessions == SetPausedAll(old(View()).sessions, p)
    {
      ghost var before := View().sessions;
      var todo := sessions.Keys;
      while todo != {}
        invariant todo <= sessions.Keys
        invariant forall sid :: sid in sessions ==>
          sessions[sid].View() == if sid in todo then before[sid] else before[sid].(paused := p)
        decreases todo
      {
        var sid :| sid in todo;
        sessions[sid].SetPaused(p);
        todo := todo - {sid};
      }
    }
  }
}
