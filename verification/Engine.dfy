/** The per-session impression engine (crates/spnrd/src/engine.rs).

    `SessionState` and the functions on it say what every event does to one
    session; class `Session` is the engine's record that is updated in place.
    All times are receipt times in unix milliseconds. */
module Engine {
  import opened Basics

  const GATE_WINDOW_MS: nat := 2000
  const IMPRESSION_SECONDS: nat := 5
  const MAX_IMPRESSIONS_PER_INTERVAL: nat := 60

  datatype Phase = Idle | Waiting | ToolRunning

  datatype SessionState = SessionState(
    phase: Phase,
    subspanOpenMs: Option<nat>,
    countableSeconds: nat,
    heartbeats: seq<nat>,
    paused: bool,
    ttyAttested: bool)

  const NEW_SESSION := SessionState(Idle, None, 0, [], false, true)

  // ------------------------------------------------- what a second counts for

  /** Some heartbeat landed at or before `tick`, at most `gate` ms earlier. */
  predicate Covered(tick: int, heartbeats: seq<nat>, gate: nat) {
    exists h :: h in heartbeats && h <= tick <= h + gate
  }

  /** `t` is a whole number of seconds away from `open`. */
  predicate OnGrid(open: nat, t: int) {
    (t - open) % 1000 == 0
  }

  /** The whole-second ticks after `open`, up to `close`, that are covered. */
  function CountedTicks(open: nat, close: nat, heartbeats: seq<nat>, gate: nat): set<int> {
    set t: int | open < t <= close && OnGrid(open, t) && Covered(t, heartbeats, gate)
  }

  function Countable(open: nat, close: nat, heartbeats: seq<nat>, gate: nat, paused: bool, ttyAttested: bool): nat {
    if paused || !ttyAttested then 0 else |CountedTicks(open, close, heartbeats, gate)|
  }

  lemma {:induction false} TickStep(open: nat, k: nat, heartbeats: seq<nat>, gate: nat)
    ensures var tick := open + (k + 1) * 1000;
            CountedTicks(open, tick, heartbeats, gate) ==
            CountedTicks(open, open + k * 1000, heartbeats, gate) + (if Covered(tick, heartbeats, gate) then {tick} else {})
  {
    forall t: int | open + k * 1000 < t <= open + (k + 1) * 1000 && OnGrid(open, t)
      ensures t == open + (k + 1) * 1000
    {
      var q := (t - open) / 1000;
      assert t - open == 1000 * q;
    }
  }

  /** A trailing partial second holds no tick. */
  lemma {:induction false} PartialSecondDropped(open: nat, close: nat, heartbeats: seq<nat>, gate: nat)
    requires open <= close
    ensures CountedTicks(open, close, heartbeats, gate) ==
            CountedTicks(open, open + (close - open) / 1000 * 1000, heartbeats, gate)
  {
    var whole := (close - open) / 1000;
    forall t: int | open < t <= close && OnGrid(open, t)
      ensures t <= open + whole * 1000
    {
      var q := (t - open) / 1000;
      assert t - open == 1000 * q;
    }
  }

  lemma {:induction false} TicksPerSpan(open: nat, whole: nat, heartbeats: seq<nat>, gate: nat)
    ensures |CountedTicks(open, open + whole * 1000, heartbeats, gate)| <= whole
  {
    if whole > 0 {
      TicksPerSpan(open, whole - 1, heartbeats, gate);
      TickStep(open, whole - 1, heartbeats, gate);
    } else {
      assert CountedTicks(open, open, heartbeats, gate) == {};
    }
  }

  /** Rounding is always down: a sub-span never counts more than its own length. */
  lemma {:induction false} CountableWithinSpan(open: nat, close: nat, heartbeats: seq<nat>, gate: nat, paused: bool, ttyAttested: bool)
    ensures 1000 * Countable(open, close, heartbeats, gate, paused, ttyAttested) <= Span(open, close)
  {
    if open <= close {
      PartialSecondDropped(open, close, heartbeats, gate);
      TicksPerSpan(open, (close - open) / 1000, heartbeats, gate);
    } else {
      assert CountedTicks(open, close, heartbeats, gate) == {};
    }
  }

  /** Some heartbeat came at most two seconds before the tick. */
  predicate Beating(heartbeats: seq<nat>, tick: int) {
    exists h :: h in heartbeats && 0 <= tick - h <= 2000
  }

  /** Whole seconds after `open`. */
  predicate IsTick(open: nat, close: nat, t: int) {
    open < t <= close && (t - open) % 1000 == 0
  }

  /** A second counts if and only if a heartbeat came at most 2000 ms before its
      tick. */
  lemma {:induction false} GateIsTwoSeconds(open: nat, close: nat, heartbeats: seq<nat>, t: int)
    ensures t in CountedTicks(open, close, heartbeats, GATE_WINDOW_MS) <==> IsTick(open, close, t) && Beating(heartbeats, t)
  {
    if h :| h in heartbeats && 0 <= t - h <= 2000 {
      assert h <= t <= h + GATE_WINDOW_MS;
    }
  }

  /** Every second counts when the heart beats at each tick. */
  lemma {:induction false} AllCovered(open: nat, whole: nat, heartbeats: seq<nat>)
    requires forall t :: IsTick(open, open + whole * 1000, t) ==> Beating(heartbeats, t)
    ensures Countable(open, open + whole * 1000, heartbeats, GATE_WINDOW_MS, false, true) == whole
  {
    if whole == 0 {
      assert CountedTicks(open, open, heartbeats, GATE_WINDOW_MS) == {};
    } else {
      var tick := open + whole * 1000;
      forall t | IsTick(open, open + (whole - 1) * 1000, t) ensures Beating(heartbeats, t) {
        assert IsTick(open, tick, t);
      }
      AllCovered(open, whole - 1, heartbeats);
      TickStep(open, whole - 1, heartbeats, GATE_WINDOW_MS);
      assert IsTick(open, tick, tick);
      GateIsTwoSeconds(open, tick, heartbeats, tick);
    }
  }

  /** None counts when it beats at no tick, under a pause, or unattested. */
  lemma {:induction false} NoneCovered(open: nat, close: nat, heartbeats: seq<nat>, paused: bool, ttyAttested: bool)
    requires paused || !ttyAttested || forall t :: IsTick(open, close, t) ==> !Beating(heartbeats, t)
    ensures Countable(open, close, heartbeats, GATE_WINDOW_MS, paused, ttyAttested) == 0
  {
    if !paused && ttyAttested {
      forall t ensures t !in CountedTicks(open, close, heartbeats, GATE_WINDOW_MS) {
        GateIsTwoSeconds(open, close, heartbeats, t);
      }
      assert CountedTicks(open, close, heartbeats, GATE_WINDOW_MS) == {};
    }
  }

  /** Length of a sub-span in ms; a close that is not after its open is empty. */
  function Span(open: nat, close: nat): nat {
    if open < close then close - open else 0
  }

  // ------------------------------------------------------------- transitions

  function ResetInterval(s: SessionState): SessionState {
    s.(phase := Idle, subspanOpenMs := None, countableSeconds := 0, heartbeats := [])
  }

  function CloseSubspan(s: SessionState, close: nat): SessionState {
    match s.subspanOpenMs
    case None => s
    case Some(open) =>
      s.(subspanOpenMs := None,
         countableSeconds := s.countableSeconds +
           Countable(open, close, s.heartbeats, GATE_WINDOW_MS, s.paused, s.ttyAttested))
  }

  function OnHeartbeat(s: SessionState, ts: nat): SessionState {
    s.(heartbeats := s.heartbeats + [ts])
  }

  function OnPromptSubmit(s: SessionState, ts: nat): SessionState {
    ResetInterval(s).(phase := Waiting, subspanOpenMs := Some(ts))
  }

  function OnPreTool(s: SessionState, ts: nat): SessionState {
    if s.phase == Waiting then CloseSubspan(s, ts).(phase := ToolRunning) else s
  }

  function OnPostTool(s: SessionState, ts: nat): SessionState {
    if s.phase == ToolRunning then s.(phase := Waiting, subspanOpenMs := Some(ts)) else s
  }

  /** The state in which `Stop` reads off the seconds of the interval. */
  function AtStop(s: SessionState, ts: nat): SessionState {
    if s.phase == Waiting then CloseSubspan(s, ts) else s
  }

  function Impressions(countableSeconds: nat): (n: nat)
    ensures n <= 60 && 5 * n <= countableSeconds
    ensures n < 60 ==> countableSeconds < 5 * (n + 1)
  {
    var n := countableSeconds / IMPRESSION_SECONDS;
    if n <= MAX_IMPRESSIONS_PER_INTERVAL then n else MAX_IMPRESSIONS_PER_INTERVAL
  }

  function StopImpressions(s: SessionState, ts: nat): nat {
    Impressions(AtStop(s, ts).countableSeconds)
  }

  /** What every reachable session satisfies: a sub-span is open exactly while
      waiting, and an idle session holds no seconds. */
  predicate Consistent(s: SessionState) {
    && (s.phase == Waiting <==> s.subspanOpenMs.Some?)
    && (s.phase == Idle ==> s.countableSeconds == 0)
  }

  // ------------------------------------------------------ liveness gate bound

  ghost predicate Spaced(ticks: set<int>) {
    forall a, b :: a in ticks && b in ticks && a < b ==> a + 1000 <= b
  }

  lemma {:induction false} OnePerSecond(ticks: set<int>, lo: int)
    requires Spaced(ticks)
    requires forall t :: t in ticks ==> lo <= t < lo + 1000
    ensures |ticks| <= 1
  {
    if a :| a in ticks {
      assert forall b :: b in ticks <==> b in {a};
      assert ticks == {a};
    } else {
      assert forall b :: b in ticks <==> b in {};
      assert ticks == {};
    }
  }

  /** A window of 2000 ms holds at most three ticks that are 1000 ms apart. */
  lemma {:induction false} ThreePerWindow(ticks: set<int>, h: int)
    requires Spaced(ticks)
    requires forall t :: t in ticks ==> h <= t <= h + 2000
    ensures |ticks| <= 3
  {
    var first := set t | t in ticks && t < h + 1000;
    var second := set t | t in ticks && h + 1000 <= t < h + 2000;
    var third := set t | t in ticks && h + 2000 <= t;
    OnePerSecond(first, h);
    OnePerSecond(second, h + 1000);
    OnePerSecond(third, h + 2000);
    assert ticks == first + second + third;
  }

  /** Pigeonhole over heartbeats: each one vouches for at most three ticks. */
  lemma {:induction false} ThreePerHeartbeat(ticks: set<int>, heartbeats: seq<nat>)
    requires Spaced(ticks)
    requires forall t :: t in ticks ==> Covered(t, heartbeats, GATE_WINDOW_MS)
    ensures |ticks| <= 3 * |heartbeats|
    decreases |heartbeats|
  {
    if heartbeats == [] {
      assert forall x :: x in ticks <==> x in {};
    } else {
      var h, rest := heartbeats[0], heartbeats[1..];
      var near := set t | t in ticks && h <= t <= h + GATE_WINDOW_MS;
      ThreePerWindow(near, h);
      forall t | t in ticks - near
        ensures Covered(t, rest, GATE_WINDOW_MS)
      {
        var h' :| h' in heartbeats && h' <= t <= h' + GATE_WINDOW_MS;
        assert h' in rest;
      }
      ThreePerHeartbeat(ticks - near, rest);
      assert ticks == near + (ticks - near);
    }
  }

  /** `ticks` are the distinct ticks the interval has counted so far. */
  ghost predicate Witness(s: SessionState, ticks: set<int>, now: nat) {
    && |ticks| == s.countableSeconds
    && Spaced(ticks)
    && (forall t :: t in ticks ==> Covered(t, s.heartbeats, GATE_WINDOW_MS))
    && (forall t :: t in ticks ==> t <= s.subspanOpenMs.GetOr(now) <= now)
    && s.subspanOpenMs.GetOr(now) <= now
  }

  /** Every counted second has its own tick, vouched for by a heartbeat of the
      same interval, and all those ticks are at least 1000 ms apart. */
  ghost predicate Vouched(s: SessionState, now: nat) {
    Consistent(s) && exists ticks :: Witness(s, ticks, now)
  }

  lemma {:induction false} VouchedFresh(s: SessionState, now: nat)
    requires Consistent(s) && s.countableSeconds == 0 && s.subspanOpenMs.GetOr(now) <= now
    ensures Vouched(s, now)
  {
    assert Witness(s, {}, now);
  }

  lemma {:induction false} VouchedClose(s: SessionState, now: nat, ts: nat)
    requires Vouched(s, now) && now <= ts
    ensures exists ticks :: Witness(CloseSubspan(s, ts), ticks, ts)
  {
    var ticks :| Witness(s, ticks, now);
    var s' := CloseSubspan(s, ts);
    if s.subspanOpenMs.Some? && !s.paused && s.ttyAttested {
      var open := s.subspanOpenMs.value;
      var more := CountedTicks(open, ts, s.heartbeats, GATE_WINDOW_MS);
      assert ticks !! more;
      assert |ticks + more| == |ticks| + |more|;
      forall a, b | a in ticks + more && b in ticks + more && a < b
        ensures a + 1000 <= b
      {
        if b in more {
          TicksApart(open, a, b, a in more);
        }
      }
      assert Witness(s', ticks + more, ts);
    } else {
      assert Witness(s', ticks, ts);
    }
  }

  lemma {:induction false} TicksApart(open: nat, a: int, b: int, aligned: bool)
    requires open < b && OnGrid(open, b) && a < b
    requires if aligned then OnGrid(open, a) else a <= open
    ensures a + 1000 <= b
  {
    var q := (b - open) / 1000;
    assert b - open == 1000 * q;
    if aligned {
      var p := (a - open) / 1000;
      assert a - open == 1000 * p;
    }
  }

  /** No event breaks the bound, however many tool breaks split the interval. */
  lemma {:induction false} VouchedStep(s: SessionState, now: nat, ts: nat)
    requires Vouched(s, now) && now <= ts
    ensures Vouched(s, ts)
    ensures Vouched(OnHeartbeat(s, ts), ts)
    ensures Vouched(OnPromptSubmit(s, ts), ts)
    ensures Vouched(OnPreTool(s, ts), ts)
    ensures Vouched(OnPostTool(s, ts), ts)
    ensures Vouched(ResetInterval(s), ts)
    ensures forall p :: Vouched(s.(paused := p), ts)
  {
    var ticks :| Witness(s, ticks, now);
    assert Witness(s, ticks, ts);
    forall p ensures Vouched(s.(paused := p), ts) {
      assert Witness(s.(paused := p), ticks, ts);
    }
    forall t | t in ticks ensures Covered(t, OnHeartbeat(s, ts).heartbeats, GATE_WINDOW_MS) {
      var h :| h in s.heartbeats && h <= t <= h + GATE_WINDOW_MS;
      assert h in OnHeartbeat(s, ts).heartbeats;
    }
    assert Witness(OnHeartbeat(s, ts), ticks, ts);
    VouchedFresh(OnPromptSubmit(s, ts), ts);
    VouchedFresh(ResetInterval(s), ts);
    VouchedClose(s, now, ts);
    var ticks' :| Witness(CloseSubspan(s, ts), ticks', ts);
    if s.phase == Waiting {
      assert Witness(OnPreTool(s, ts), ticks', ts);
    }
    if s.phase == ToolRunning {
      assert Witness(OnPostTool(s, ts), ticks, ts);
    }
  }

  /** Five impressions' worth of seconds need at least three fifths as many
      heartbeats: 5 x impressions <= 3 x heartbeats of the interval. */
  lemma {:induction false} GateBound(s: SessionState, now: nat, ts: nat)
    requires Vouched(s, now) && now <= ts
    ensures 5 * StopImpressions(s, ts) <= 3 * |s.heartbeats|
  {
    var closed := AtStop(s, ts);
    if s.phase == Waiting {
      VouchedClose(s, now, ts);
    } else {
      VouchedStep(s, now, ts);
    }
    var ticks :| Witness(closed, ticks, ts);
    ThreePerHeartbeat(ticks, closed.heartbeats);
  }

  // ------------------------------------------------------------ the record

  /** The most recent heartbeat at or before `tick`. */
  method MostRecent(heartbeats: seq<nat>, tick: nat) returns (recent: Option<nat>)
    ensures recent.None? ==> forall h :: h in heartbeats ==> tick < h
    ensures recent.Some? ==> recent.value in heartbeats && recent.value <= tick
    ensures recent.Some? ==> forall h :: h in heartbeats && h <= tick ==> h <= recent.value
  {
    recent := None;
    for i := 0 to |heartbeats|
      invariant recent.None? ==> forall h :: h in heartbeats[..i] ==> tick < h
      invariant recent.Some? ==> recent.value in heartbeats[..i] && recent.value <= tick
      invariant recent.Some? ==> forall h :: h in heartbeats[..i] && h <= tick ==> h <= recent.value
    {
      var h := heartbeats[i];
      assert heartbeats[..i + 1] == heartbeats[..i] + [h];
      if h <= tick && (recent.None? || recent.value <= h) {
        recent := Some(h);
      }
    }
    assert heartbeats[..|heartbeats|] == heartbeats;
  }

  /** Counts one by one the ticks that `CountedTicks` describes as a set. */
  method CountableSecondsIn(open: nat, close: nat, heartbeats: seq<nat>, gate: nat, paused: bool, ttyAttested: bool)
    returns (count: nat)
    ensures count == Countable(open, close, heartbeats, gate, paused, ttyAttested)
  {
    if paused || !ttyAttested || close <= open {
      assert close <= open ==> CountedTicks(open, close, heartbeats, gate) == {};
      return 0;
    }
    var whole := (close - open) / 1000;
    count := 0;
    assert CountedTicks(open, open, heartbeats, gate) == {};
    for k := 0 to whole
      invariant count == |CountedTicks(open, open + k * 1000, heartbeats, gate)|
    {
      var tick := open + (k + 1) * 1000;
      TickStep(open, k, heartbeats, gate);
      var recent := MostRecent(heartbeats, tick);
      if recent.Some? && tick - recent.value <= gate {
        assert Covered(tick, heartbeats, gate);
        count := count + 1;
      } else {
        assert !Covered(tick, heartbeats, gate);
      }
    }
    PartialSecondDropped(open, close, heartbeats, gate);
  }

  class Session {
    var phase: Phase
    var subspanOpenMs: Option<nat>
    var countableSeconds: nat
    var heartbeats: seq<nat>
    var paused: bool
    var ttyAttested: bool

    ghost function View(): SessionState
      reads this
    {
      SessionState(phase, subspanOpenMs, countableSeconds, heartbeats, paused, ttyAttested)
    }

    constructor ()
      ensures View() == NEW_SESSION
    {
      phase := Idle;
      subspanOpenMs := None;
      countableSeconds := 0;
      heartbeats := [];
      paused := false;
      ttyAttested := true;
    }

    method SetPaused(p: bool)
      modifies this
      ensures View() == old(View()).(paused := p)
    {
      paused := p;
    }

    method SetTtyAttested(attested: bool)
      modifies this
      ensures View() == old(View()).(ttyAttested := attested)
    {
      ttyAttested := attested;
    }

    method HeartbeatAt(ts: nat)
      modifies this
      ensures View() == OnHeartbeat(old(View()), ts)
    {
      heartbeats := heartbeats + [ts];
    }

    method PromptSubmit(ts: nat)
      modifies this
      ensures View() == OnPromptSubmit(old(View()), ts)
    {
      Reset();
      phase := Waiting;
      subspanOpenMs := Some(ts);
    }

    method PreTool(ts: nat)
      modifies this
      ensures View() == OnPreTool(old(View()), ts)
    {
      if phase == Waiting {
        Close(ts);
        phase := ToolRunning;
      }
    }

    method PostTool(ts: nat)
      modifies this
      ensures View() == OnPostTool(old(View()), ts)
    {
      if phase == ToolRunning {
        phase := Waiting;
        subspanOpenMs := Some(ts);
      }
    }

    method Stop(ts: nat) returns (impressions: nat)
      modifies this
      ensures impressions == StopImpressions(old(View()), ts)
      ensures View() == ResetInterval(old(View()))
    {
      if phase == Waiting {
        Close(ts);
      }
      impressions := countableSeconds / IMPRESSION_SECONDS;
      if impressions > MAX_IMPRESSIONS_PER_INTERVAL {
        impressions := MAX_IMPRESSIONS_PER_INTERVAL;
      }
      Reset();
    }

    method Close(ts: nat)
      modifies this
      ensures View() == CloseSubspan(old(View()), ts)
    {
      if subspanOpenMs.Some? {
        var open := subspanOpenMs.value;
        subspanOpenMs := None;
        var seconds := CountableSecondsIn(open, ts, heartbeats, GATE_WINDOW_MS, paused, ttyAttested);
        countableSeconds := countableSeconds + seconds;
      }
    }

    method Reset()
      modifies this
      ensures View() == ResetInterval(old(View()))
    {
      phase := Idle;
      subspanOpenMs := None;
      countableSeconds := 0;
      heartbeats := [];
    }
  }
}
