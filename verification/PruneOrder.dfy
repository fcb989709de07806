/** Pruning up to three emptied events by swap-removal: where it leaves the keys
    that stay, as a function of the layout alone. */
module PruneOrder {
  import opened Basics
  import opened Settings
  import opened HookMerge

  // ---------------------------------------------------------- emptied events

  /** An event whose array was emptied. */
  predicate Emptied(e: Entry) {
    e.key in EVENTS && e.value == Array([])
  }

  /** The events are pruned in the order of their ranks. */
  function Rank(e: Entry): (r: nat)
    ensures e.key in EVENTS ==> 1 <= r <= 3 && EVENTS[r - 1] == e.key
    ensures (e.key == "UserPromptSubmit" ==> r == 1) && (e.key == "Stop" ==> r == 2) && (e.key == "SessionEnd" ==> r == 3)
  {
    if e.key == EVENTS[0] then 1 else if e.key == EVENTS[1] then 2 else if e.key == EVENTS[2] then 3 else 0
  }

  ghost predicate Stays(m: seq<Entry>) {
    forall i :: 0 <= i < |m| ==> !Emptied(m[i])
  }

  lemma {:induction false} StaysUpTo(m: seq<Entry>, r: nat)
    requires Unique(m) && Stays(m) && r <= 3
    ensures Prune(m, EVENTS[r..]) == m
    decreases 3 - r
  {
    if r < 3 {
      var at := Find(m, EVENTS[r]);
      assert at.Some? ==> !Emptied(m[at.value]);
      assert EVENTS[r..][1..] == EVENTS[r + 1..];
      StaysUpTo(m, r + 1);
    }
  }

  /** Pruning from rank `r` on reaches the emptied event of least rank first. */
  lemma {:induction false} PruneReach(m: seq<Entry>, r: nat, i: nat)
    requires Unique(m) && i < |m| && Emptied(m[i]) && r < Rank(m[i])
    requires forall j :: 0 <= j < |m| && j != i && Emptied(m[j]) ==> Rank(m[i]) < Rank(m[j])
    ensures Prune(m, EVENTS[r..]) == Prune(SwapRemove(m, m[i].key), EVENTS[Rank(m[i])..])
    decreases 3 - r
  {
    var event := EVENTS[r];
    assert EVENTS[r..][0] == event && EVENTS[r..][1..] == EVENTS[r + 1..];
    if event == m[i].key {
      FindUnique(m, i);
      assert Rank(m[i]) == r + 1;
    } else {
      var at := Find(m, event);
      assert at.Some? ==> m[at.value].key == event && Rank(m[at.value]) == r + 1;
      PruneReach(m, r + 1, i);
    }
  }

  // -------------------------------------------------- what swap-removals leave

  /** The last entry moves to the front. */
  function Rot(s: seq<Entry>): (t: seq<Entry>)
    ensures |t| == |s|
  {
    if s == [] then [] else [Last(s)] + Init(s)
  }

  lemma {:induction false} RotStays(s: seq<Entry>)
    requires Stays(s)
    ensures Stays(Rot(s))
  {
  }

  lemma {:induction false} RotEnd(a: seq<Entry>, b: seq<Entry>)
    ensures b != [] ==> Rot(a + b) == [Last(b)] + (a + Init(b))
    ensures b == [] ==> Rot(a + b) == Rot(a)
  {
    if b != [] {
      assert Last(a + b) == Last(b) && Init(a + b) == a + Init(b);
    } else {
      assert a + b == a;
    }
  }

  lemma {:induction false} SwapAt(p: seq<Entry>, x: Entry, q: seq<Entry>)
    requires Unique(p + [x] + q)
    ensures SwapRemove(p + [x] + q, x.key) == p + Rot(q) && Unique(p + Rot(q))
  {
    var m := p + [x] + q;
    assert m[|p|] == x;
    FindUnique(m, |p|);
    SwapRemoveUnique(m, x.key);
    if q == [] {
      CutEnd(p, x);
      assert m == p + [x];
    } else {
      MoveLast(p, x, q);
    }
  }

  lemma {:induction false} CutEnd(p: seq<Entry>, x: Entry)
    ensures (p + [x] + [])[..|p|] == p + Rot([])
  {
  }

  lemma {:induction false} MoveLast(p: seq<Entry>, x: Entry, q: seq<Entry>)
    requires q != []
    ensures var m := p + [x] + q; m[|p| := m[|m| - 1]][..|m| - 1] == p + Rot(q)
  {
    var m := p + [x] + q;
    assert m[|m| - 1] == Last(q);
    assert m[|p| := Last(q)] == p + [Last(q)] + q;
    assert (p + [Last(q)] + q)[..|m| - 1] == p + [Last(q)] + Init(q);
    Join(p, [Last(q)], Init(q));
  }

  /** What stays of `m` and `q` when the event before `m` is pruned first, and
      then the one between them. */
  function FrontFirst(m: seq<Entry>, q: seq<Entry>): seq<Entry> {
    if q == [] then Rot(m) else [Last(q)] + m + Rot(Init(q))
  }

  /** The same, when the event between them is pruned first. */
  function BackFirst(m: seq<Entry>, q: seq<Entry>): seq<Entry> {
    Rot(m + Rot(q))
  }

  lemma {:induction false} PruneLast(p: seq<Entry>, x: Entry, q: seq<Entry>, r: nat)
    requires Unique(p + [x] + q) && Stays(p) && Stays(q) && Emptied(x) && r < Rank(x)
    ensures Prune(p + [x] + q, EVENTS[r..]) == p + Rot(q)
  {
    var m := p + [x] + q;
    assert m[|p|] == x;
    assert forall j :: 0 <= j < |m| && j != |p| ==> m[j] == if j < |p| then p[j] else q[j - |p| - 1];
    PruneReach(m, r, |p|);
    SwapAt(p, x, q);
    RotStays(q);
    StaysUpTo(p + Rot(q), Rank(x));
  }

  /** Entry `x` at the cut is pruned before every other emptied entry. */
  lemma {:induction false} PruneCut(p: seq<Entry>, x: Entry, q: seq<Entry>, r: nat)
    requires Unique(p + [x] + q) && Emptied(x) && r < Rank(x)
    requires forall j :: 0 <= j < |p| && Emptied(p[j]) ==> Rank(x) < Rank(p[j])
    requires forall j :: 0 <= j < |q| && Emptied(q[j]) ==> Rank(x) < Rank(q[j])
    ensures Prune(p + [x] + q, EVENTS[r..]) == Prune(p + Rot(q), EVENTS[Rank(x)..]) && Unique(p + Rot(q))
  {
    var m := p + [x] + q;
    assert m[|p|] == x;
    assert forall j :: 0 <= j < |m| && j != |p| ==> m[j] == if j < |p| then p[j] else q[j - |p| - 1];
    PruneReach(m, r, |p|);
    SwapAt(p, x, q);
  }

  lemma {:induction false} Cut2(p: seq<Entry>, x: Entry, m: seq<Entry>, y: Entry, q: seq<Entry>)
    ensures p + [x] + (m + [y] + q) == (p + [x] + m) + [y] + q
  {
  }

  lemma {:induction false} Join(a: seq<Entry>, b: seq<Entry>, c: seq<Entry>)
    ensures a + (b + c) == a + b + c
  {
  }

  /** Around `y` nothing is emptied. */
  lemma {:induction false} OnlyBetween(m: seq<Entry>, y: Entry, q: seq<Entry>)
    requires Stays(m) && Stays(q)
    ensures var s := m + [y] + q; forall j :: 0 <= j < |s| && Emptied(s[j]) ==> s[j] == y
  {
    var s := m + [y] + q;
    assert forall j :: 0 <= j < |s| ==> s[j] == if j < |m| then m[j] else if j == |m| then y else q[j - |m| - 1];
  }

  lemma {:induction false} StaysConcat(a: seq<Entry>, b: seq<Entry>)
    requires Stays(a) && Stays(b)
    ensures Stays(a + b)
  {
  }

  /** Two emptied events left. */
  lemma {:induction false} PruneTwo(p: seq<Entry>, x: Entry, m: seq<Entry>, y: Entry, q: seq<Entry>, r: nat)
    requires Unique(p + [x] + (m + [y] + q)) && Stays(p) && Stays(m) && Stays(q)
    requires Emptied(x) && Emptied(y) && r < Rank(x) && r < Rank(y) && Rank(x) != Rank(y)
    ensures Prune(p + [x] + (m + [y] + q), EVENTS[r..]) == p + (if Rank(x) < Rank(y) then FrontFirst(m, q) else BackFirst(m, q))
  {
    if Rank(x) < Rank(y) {
      PruneTwoFront(p, x, m, y, q, r);
    } else {
      PruneTwoBack(p, x, m, y, q, r);
    }
  }

  lemma {:induction false} PruneTwoFront(p: seq<Entry>, x: Entry, m: seq<Entry>, y: Entry, q: seq<Entry>, r: nat)
    requires Unique(p + [x] + (m + [y] + q)) && Stays(p) && Stays(m) && Stays(q)
    requires Emptied(x) && Emptied(y) && r < Rank(x) < Rank(y)
    ensures Prune(p + [x] + (m + [y] + q), EVENTS[r..]) == p + FrontFirst(m, q)
  {
    OnlyBetween(m, y, q);
    PruneCut(p, x, m + [y] + q, r);
    RotEnd(m + [y], q);
    if q == [] {
      RotEnd(m, [y]);
      Join(p, [y], m);
      PruneLast(p, y, m, Rank(x));
    } else {
      FrontMoved(p, m, y, q);
      StaysConcat(p, [Last(q)]);
      StaysConcat(p + [Last(q)], m);
      PruneLast(p + [Last(q)] + m, y, Init(q), Rank(x));
    }
  }

  lemma {:induction false} FrontMoved(p: seq<Entry>, m: seq<Entry>, y: Entry, q: seq<Entry>)
    requires q != []
    ensures p + ([Last(q)] + (m + [y] + Init(q))) == (p + [Last(q)] + m) + [y] + Init(q)
    ensures (p + [Last(q)] + m) + Rot(Init(q)) == p + ([Last(q)] + m + Rot(Init(q)))
  {
  }

  lemma {:induction false} PruneTwoBack(p: seq<Entry>, x: Entry, m: seq<Entry>, y: Entry, q: seq<Entry>, r: nat)
    requires Unique(p + [x] + (m + [y] + q)) && Stays(p) && Stays(m) && Stays(q)
    requires Emptied(x) && Emptied(y) && r < Rank(y) < Rank(x)
    ensures Prune(p + [x] + (m + [y] + q), EVENTS[r..]) == p + BackFirst(m, q)
  {
    Cut2(p, x, m, y, q);
    OnlyBetween(p, x, m);
    PruneCut(p + [x] + m, y, q, r);
    RotStays(q);
    StaysConcat(m, Rot(q));
    Join(p + [x], m, Rot(q));
    PruneLast(p, x, m + Rot(q), Rank(y));
  }

  // -------------------------------------------------------- three emptied events

  function FirstOfThree(yBeforeZ: bool, a: seq<Entry>, b: seq<Entry>, c: seq<Entry>): seq<Entry> {
    if c == [] then (if yBeforeZ then BackFirst(a, b) else FrontFirst(a, b))
    else [Last(c)] + a + (if yBeforeZ then FrontFirst(b, Init(c)) else BackFirst(b, Init(c)))
  }

  function SecondOfThree(xBeforeZ: bool, a: seq<Entry>, b: seq<Entry>, c: seq<Entry>): seq<Entry> {
    var m, q := if c == [] then a else a + [Last(c)] + b, if c == [] then b else Init(c);
    if xBeforeZ then FrontFirst(m, q) else BackFirst(m, q)
  }

  function ThirdOfThree(xBeforeY: bool, a: seq<Entry>, b: seq<Entry>, c: seq<Entry>): seq<Entry> {
    if xBeforeY then FrontFirst(a, b + Rot(c)) else BackFirst(a, b + Rot(c))
  }

  /** What stays of `a`, `b` and `c` behind three emptied events, by their ranks. */
  function Left(rx: nat, ry: nat, rz: nat, a: seq<Entry>, b: seq<Entry>, c: seq<Entry>): seq<Entry> {
    if rx < ry && rx < rz then FirstOfThree(ry < rz, a, b, c)
    else if ry < rz then SecondOfThree(rx < rz, a, b, c)
    else ThirdOfThree(rx < ry, a, b, c)
  }

  /** The list with three emptied events. */
  function Line(p: seq<Entry>, x: Entry, a: seq<Entry>, y: Entry, b: seq<Entry>, z: Entry, c: seq<Entry>): seq<Entry> {
    p + [x] + (a + [y] + (b + [z] + c))
  }

  ghost predicate Trio(p: seq<Entry>, x: Entry, a: seq<Entry>, y: Entry, b: seq<Entry>, z: Entry, c: seq<Entry>) {
    && Unique(Line(p, x, a, y, b, z, c)) && Stays(p) && Stays(a) && Stays(b) && Stays(c)
    && Emptied(x) && Emptied(y) && Emptied(z) && Rank(x) != Rank(y) && Rank(y) != Rank(z) && Rank(x) != Rank(z)
  }

  lemma {:induction false} OnlyTwoBehind(a: seq<Entry>, y: Entry, b: seq<Entry>, z: Entry, c: seq<Entry>)
    requires Stays(a) && Stays(b) && Stays(c)
    ensures var s := a + [y] + (b + [z] + c); forall j :: 0 <= j < |s| && Emptied(s[j]) ==> s[j] == y || s[j] == z
  {
    OnlyBetween(b, z, c);
    var s, t := a + [y] + (b + [z] + c), b + [z] + c;
    assert forall j :: 0 <= j < |s| ==> s[j] == if j < |a| then a[j] else if j == |a| then y else t[j - |a| - 1];
  }

  lemma {:induction false} PruneFirstOfThree(p: seq<Entry>, x: Entry, a: seq<Entry>, y: Entry, b: seq<Entry>, z: Entry, c: seq<Entry>)
    requires Trio(p, x, a, y, b, z, c) && Rank(x) < Rank(y) && Rank(x) < Rank(z)
    ensures Prune(Line(p, x, a, y, b, z, c), EVENTS) == p + FirstOfThree(Rank(y) < Rank(z), a, b, c)
  {
    FirstCut(p, x, a, y, b, z, c);
    if c == [] {
      LastMoves(p, a, y, b, z);
      PruneTwo(p, z, a, y, b, Rank(x));
    } else {
      FarMoves(p, a, y, b, z, c);
      PruneFar(p, a, y, b, z, c, Rank(x));
    }
  }

  lemma {:induction false} FirstCut(p: seq<Entry>, x: Entry, a: seq<Entry>, y: Entry, b: seq<Entry>, z: Entry, c: seq<Entry>)
    requires Trio(p, x, a, y, b, z, c) && Rank(x) < Rank(y) && Rank(x) < Rank(z)
    ensures var next := p + Rot(a + [y] + (b + [z] + c));
      Prune(Line(p, x, a, y, b, z, c), EVENTS) == Prune(next, EVENTS[Rank(x)..]) && Unique(next)
  {
    assert EVENTS[0..] == EVENTS;
    OnlyTwoBehind(a, y, b, z, c);
    PruneCut(p, x, a + [y] + (b + [z] + c), 0);
  }

  lemma {:induction false} PruneFar(p: seq<Entry>, a: seq<Entry>, y: Entry, b: seq<Entry>, z: Entry, c: seq<Entry>, r: nat)
    requires c != [] && Unique((p + [Last(c)] + a) + [y] + (b + [z] + Init(c)))
    requires Stays(p) && Stays(a) && Stays(b) && Stays(c)
    requires Emptied(y) && Emptied(z) && r < Rank(y) && r < Rank(z) && Rank(y) != Rank(z)
    ensures Prune((p + [Last(c)] + a) + [y] + (b + [z] + Init(c)), EVENTS[r..]) ==
      p + ([Last(c)] + a + (if Rank(y) < Rank(z) then FrontFirst(b, Init(c)) else BackFirst(b, Init(c))))
  {
    StaysConcat(p, [Last(c)]);
    StaysConcat(p + [Last(c)], a);
    PruneTwo(p + [Last(c)] + a, y, b, z, Init(c), r);
    Join(p, [Last(c)] + a, if Rank(y) < Rank(z) then FrontFirst(b, Init(c)) else BackFirst(b, Init(c)));
    Join(p, [Last(c)], a);
  }

  lemma {:induction false} LastMoves(p: seq<Entry>, a: seq<Entry>, y: Entry, b: seq<Entry>, z: Entry)
    ensures p + Rot(a + [y] + (b + [z] + [])) == p + [z] + (a + [y] + b)
  {
    assert a + [y] + (b + [z] + []) == (a + [y] + b) + [z];
    RotEnd(a + [y] + b, [z]);
    assert (a + [y] + b) + [] == a + [y] + b;
  }

  lemma {:induction false} FarMoves(p: seq<Entry>, a: seq<Entry>, y: Entry, b: seq<Entry>, z: Entry, c: seq<Entry>)
    requires c != []
    ensures p + Rot(a + [y] + (b + [z] + c)) == (p + [Last(c)] + a) + [y] + (b + [z] + Init(c))
  {
    Join(a + [y], b + [z], c);
    RotEnd(a + [y] + (b + [z]), c);
  }

  lemma {:induction false} PruneSecondOfThree(p: seq<Entry>, x: Entry, a: seq<Entry>, y: Entry, b: seq<Entry>, z: Entry, c: seq<Entry>)
    requires Trio(p, x, a, y, b, z, c) && Rank(y) < Rank(x) && Rank(y) < Rank(z)
    ensures Prune(Line(p, x, a, y, b, z, c), EVENTS) == p + SecondOfThree(Rank(x) < Rank(z), a, b, c)
  {
    SecondCut(p, x, a, y, b, z, c);
    if c == [] {
      MiddleEnds(p, x, a, b, z);
      PruneTwo(p, x, a, z, b, Rank(y));
    } else {
      RotEnd(b + [z], c);
      MiddleMoves(p, x, a, b, z, c);
      PruneMiddle(p, x, a, b, z, c, Rank(y));
    }
  }

  lemma {:induction false} PruneMiddle(p: seq<Entry>, x: Entry, a: seq<Entry>, b: seq<Entry>, z: Entry, c: seq<Entry>, r: nat)
    requires c != [] && Unique(p + [x] + ((a + [Last(c)] + b) + [z] + Init(c)))
    requires Stays(p) && Stays(a) && Stays(b) && Stays(c)
    requires Emptied(x) && Emptied(z) && r < Rank(x) && r < Rank(z) && Rank(x) != Rank(z)
    ensures Prune(p + [x] + ((a + [Last(c)] + b) + [z] + Init(c)), EVENTS[r..]) == p + SecondOfThree(Rank(x) < Rank(z), a, b, c)
  {
    StaysConcat(a, [Last(c)]);
    StaysConcat(a + [Last(c)], b);
    PruneTwo(p, x, a + [Last(c)] + b, z, Init(c), r);
  }

  lemma {:induction false} SecondCut(p: seq<Entry>, x: Entry, a: seq<Entry>, y: Entry, b: seq<Entry>, z: Entry, c: seq<Entry>)
    requires Trio(p, x, a, y, b, z, c) && Rank(y) < Rank(x) && Rank(y) < Rank(z)
    ensures var next := p + [x] + a + Rot(b + [z] + c);
      Prune(Line(p, x, a, y, b, z, c), EVENTS) == Prune(next, EVENTS[Rank(y)..]) && Unique(next)
  {
    assert EVENTS[0..] == EVENTS;
    Cut2(p, x, a, y, b + [z] + c);
    OnlyBetween(p, x, a);
    OnlyBetween(b, z, c);
    PruneCut(p + [x] + a, y, b + [z] + c, 0);
  }

  lemma {:induction false} MiddleEnds(p: seq<Entry>, x: Entry, a: seq<Entry>, b: seq<Entry>, z: Entry)
    ensures p + [x] + a + Rot(b + [z] + []) == p + [x] + (a + [z] + b)
  {
    assert b + [z] + [] == b + [z];
    RotEnd(b, [z]);
    Join(p + [x], a, [z] + b);
    Join(a, [z], b);
    assert b + [] == b;
  }

  lemma {:induction false} MiddleMoves(p: seq<Entry>, x: Entry, a: seq<Entry>, b: seq<Entry>, z: Entry, c: seq<Entry>)
    requires c != []
    ensures p + [x] + a + ([Last(c)] + (b + [z] + Init(c))) == p + [x] + ((a + [Last(c)] + b) + [z] + Init(c))
  {
  }

  lemma {:induction false} PruneThirdOfThree(p: seq<Entry>, x: Entry, a: seq<Entry>, y: Entry, b: seq<Entry>, z: Entry, c: seq<Entry>)
    requires Trio(p, x, a, y, b, z, c) && Rank(z) < Rank(x) && Rank(z) < Rank(y)
    ensures Prune(Line(p, x, a, y, b, z, c), EVENTS) == p + ThirdOfThree(Rank(x) < Rank(y), a, b, c)
  {
    assert EVENTS[0..] == EVENTS;
    ThirdShape(p, x, a, y, b, z, c);
    PruneThirdCut(p + [x] + (a + [y] + b), p, x, a, y, b, z, c);
    RotStays(c);
    StaysConcat(b, Rot(c));
    PruneTwo(p, x, a, y, b + Rot(c), Rank(z));
  }

  lemma {:induction false} ThirdShape(p: seq<Entry>, x: Entry, a: seq<Entry>, y: Entry, b: seq<Entry>, z: Entry, c: seq<Entry>)
    ensures Line(p, x, a, y, b, z, c) == p + [x] + (a + [y] + b) + [z] + c
    ensures p + [x] + (a + [y] + b) + Rot(c) == p + [x] + (a + [y] + (b + Rot(c)))
  {
    Join(p + [x], a + [y] + b, Rot(c));
    Join(a + [y], b, Rot(c));
    Cut2(a, y, b, z, c);
    Join(p + [x], a + [y] + b, [z] + c);
    Join(p + [x] + (a + [y] + b), [z], c);
    Join(a + [y] + b, [z], c);
  }

  lemma {:induction false} PruneThirdCut(front: seq<Entry>, p: seq<Entry>, x: Entry, a: seq<Entry>, y: Entry, b: seq<Entry>, z: Entry, c: seq<Entry>)
    requires front == p + [x] + (a + [y] + b) && Unique(front + [z] + c) && Stays(p) && Stays(a) && Stays(b) && Stays(c)
    requires Emptied(z) && Rank(z) < Rank(x) && Rank(z) < Rank(y)
    ensures Prune(front + [z] + c, EVENTS[0..]) == Prune(front + Rot(c), EVENTS[Rank(z)..]) && Unique(front + Rot(c))
  {
    OnlyTwoBehind(p, x, a, y, b);
    PruneCut(front, z, c, 0);
  }

  // --------------------------------------------------- when the order is kept

  /** Another entry has come to the front. */
  lemma {:induction false} FrontClash(s: seq<Entry>, t: seq<Entry>, j: nat)
    requires Unique(s) && 0 < j < |s| && t != [] && t[0] == s[j]
    ensures t != s
  {
  }

  lemma {:induction false} FrontFirstKept(m: seq<Entry>, q: seq<Entry>)
    requires Unique(m + q)
    ensures FrontFirst(m, q) == m + q <==> |m| + |q| <= 1
  {
    var s, t := m + q, FrontFirst(m, q);
    if |s| >= 2 {
      assert t[0] == s[|s| - 1];
      FrontClash(s, t, |s| - 1);
    } else if q == [] {
      assert m + q == m;
    } else {
      assert m == [] && q == [q[0]];
    }
  }

  lemma {:induction false} RotKept(s: seq<Entry>)
    requires Unique(s)
    ensures Rot(s) == s <==> |s| <= 1
  {
    if |s| >= 2 {
      FrontClash(s, Rot(s), |s| - 1);
    } else {
      RotLast(s);
    }
  }

  lemma {:induction false} RotRot(q: seq<Entry>)
    ensures |q| <= 2 ==> Rot(Rot(q)) == q
    ensures |q| >= 2 ==> Rot(Rot(q))[0] == q[|q| - 2]
  {
    RotLast(q);
    if |q| == 2 {
      assert q == [q[0], q[1]];
      assert Rot(q) == [q[1], q[0]];
      assert Rot([q[1], q[0]]) == [q[0], q[1]];
    }
  }

  lemma {:induction false} BackFirstEnds(s: seq<Entry>)
    ensures BackFirst([], s) == Rot(Rot(s)) && BackFirst(s, []) == Rot(s)
  {
    assert [] + Rot(s) == Rot(s) && s + Rot([]) == s;
  }

  lemma {:induction false} BackFirstKept(m: seq<Entry>, q: seq<Entry>)
    requires Unique(m + q)
    ensures BackFirst(m, q) == m + q <==> |m| + |q| <= 1 || (m == [] && |q| == 2)
  {
    if m == [] {
      assert m + q == q;
      BackFirstEnds(q);
      RotRot(q);
      if |q| >= 3 {
        FrontClash(q, Rot(Rot(q)), |q| - 2);
      }
    } else if q == [] {
      assert m + q == m;
      BackFirstEnds(m);
      RotKept(m);
    } else {
      BackFirstClash(m, q);
    }
  }

  lemma {:induction false} BackFirstClash(m: seq<Entry>, q: seq<Entry>)
    requires Unique(m + q) && m != [] && q != []
    ensures BackFirst(m, q) != m + q
  {
    RotFront(m, Rot(q));
    RotLast(q);
    var j := if |q| == 1 then |m| else |m| + |q| - 2;
    assert Last(Rot(q)) == (m + q)[j];
    FrontClash(m + q, BackFirst(m, q), j);
  }

  lemma {:induction false} FirstKept(yBeforeZ: bool, a: seq<Entry>, b: seq<Entry>, c: seq<Entry>)
    requires Unique(a + b + c)
    ensures FirstOfThree(yBeforeZ, a, b, c) == a + b + c <==>
      |a| + |b| + |c| <= 1 || (yBeforeZ && a == [] && |b| == 2 && c == [])
  {
    var s, t := a + b + c, FirstOfThree(yBeforeZ, a, b, c);
    if c == [] {
      assert s == a + b;
      FrontFirstKept(a, b);
      BackFirstKept(a, b);
    } else if |s| >= 2 {
      assert t[0] == s[|s| - 1];
      FrontClash(s, t, |s| - 1);
    } else {
      assert a == [] && b == [] && c == [c[0]];
      assert Rot(b) == [] && b + Rot(Init(c)) == [];
    }
  }

  /** The last entry came in between `a` and `b`. */
  lemma {:induction false} SecondKept(xBeforeZ: bool, a: seq<Entry>, b: seq<Entry>, c: seq<Entry>)
    requires Unique(a + b + c)
    ensures SecondOfThree(xBeforeZ, a, b, c) == a + b + c <==>
      || |a| + |b| + |c| <= 1
      || (!xBeforeZ && a == [] && |b| == 2 && c == [])
      || (a == [] && |b| + |c| == 2 && |c| >= 1)
  {
    var s := a + b + c;
    if c == [] {
      assert s == a + b;
      FrontFirstKept(a, b);
      BackFirstKept(a, b);
    } else if |c| == 1 {
      SecondKeptOne(xBeforeZ, a, b, c);
    } else {
      SecondKeptMany(xBeforeZ, a, b, c);
    }
  }

  lemma {:induction false} SecondKeptOne(xBeforeZ: bool, a: seq<Entry>, b: seq<Entry>, c: seq<Entry>)
    requires Unique(a + b + c) && |c| == 1
    ensures SecondOfThree(xBeforeZ, a, b, c) == a + b + c <==> a == [] && |b| <= 1
  {
    var m := a + c + b;
    SecondIsRot(xBeforeZ, a, b, c);
    if a == [] && |b| <= 1 {
      assert c == [c[0]] && (b == [] || b == [b[0]]);
      assert Rot(m) == b + c == a + b + c;
    } else {
      var j := if b == [] then |a| else |a| + |b| - 1;
      assert Rot(m)[0] == Last(m) == (a + b + c)[j];
      FrontClash(a + b + c, Rot(m), j);
    }
  }

  lemma {:induction false} SecondIsRot(xBeforeZ: bool, a: seq<Entry>, b: seq<Entry>, c: seq<Entry>)
    requires |c| == 1
    ensures SecondOfThree(xBeforeZ, a, b, c) == Rot(a + c + b)
  {
    var m := a + c + b;
    assert c == [Last(c)] && Init(c) == [];
    assert m + Rot([]) == m;
  }

  lemma {:induction false} SecondKeptMany(xBeforeZ: bool, a: seq<Entry>, b: seq<Entry>, c: seq<Entry>)
    requires Unique(a + b + c) && |c| >= 2
    ensures SecondOfThree(xBeforeZ, a, b, c) == a + b + c <==> a == [] && b == [] && |c| == 2
  {
    var j := if xBeforeZ || |c| == 2 then |c| - 2 else |c| - 3;
    if |a| + |b| + j > 0 {
      SecondClash(xBeforeZ, a, b, c, j);
    } else {
      Nothing(a, b, c);
      SecondKeptAlone(xBeforeZ, c);
    }
  }

  lemma {:induction false} SecondClash(xBeforeZ: bool, a: seq<Entry>, b: seq<Entry>, c: seq<Entry>, j: nat)
    requires Unique(a + b + c) && |c| >= 2 && |a| + |b| + j > 0
    requires j == if xBeforeZ || |c| == 2 then |c| - 2 else |c| - 3
    ensures SecondOfThree(xBeforeZ, a, b, c) != a + b + c
  {
    SecondFront(xBeforeZ, a, b, c, j);
    FrontClash(a + b + c, SecondOfThree(xBeforeZ, a, b, c), |a| + |b| + j);
  }

  lemma {:induction false} Nothing(a: seq<Entry>, b: seq<Entry>, c: seq<Entry>)
    requires |a| == 0 && |b| == 0
    ensures a == [] && b == [] && a + b + c == c
  {
  }

  lemma {:induction false} SecondKeptAlone(xBeforeZ: bool, c: seq<Entry>)
    requires Unique(c) && (|c| == 2 || (|c| == 3 && !xBeforeZ))
    ensures SecondOfThree(xBeforeZ, [], [], c) == c <==> |c| == 2
  {
    if |c| == 2 {
      SecondKeptPair(xBeforeZ, c);
    } else {
      SecondTriple(c);
    }
  }

  lemma {:induction false} SecondFront(xBeforeZ: bool, a: seq<Entry>, b: seq<Entry>, c: seq<Entry>, j: nat)
    requires |c| >= 2 && j == if xBeforeZ || |c| == 2 then |c| - 2 else |c| - 3
    ensures var t := SecondOfThree(xBeforeZ, a, b, c); t != [] && t[0] == c[j] == (a + b + c)[|a| + |b| + j]
  {
    var m, q := a + [Last(c)] + b, Init(c);
    assert Last(q) == c[|c| - 2];
    if !xBeforeZ {
      RotFront(m, Rot(q));
      RotLast(q);
    }
  }

  lemma {:induction false} SecondKeptPair(xBeforeZ: bool, c: seq<Entry>)
    requires |c| == 2
    ensures SecondOfThree(xBeforeZ, [], [], c) == c
  {
    assert c == [c[0], c[1]] && Init(c) == [c[0]] && Last(c) == c[1];
    assert [] + [c[1]] + [] == [c[1]];
    RotLast([c[0]]);
    RotRot([c[0], c[1]]);
    assert [c[1]] + [c[0]] == Rot([c[0], c[1]]);
    assert Init([c[0]]) == [] && [c[0]] + [c[1]] + Rot([]) == c;
  }

  lemma {:induction false} SecondTriple(c: seq<Entry>)
    requires Unique(c) && |c| == 3
    ensures SecondOfThree(false, [], [], c) != c
  {
    assert Init(c) == [c[0], c[1]] && Last(c) == c[2];
    assert [] + [c[2]] + [] == [c[2]];
    assert Rot([c[0], c[1]]) == [c[1], c[0]];
    assert Rot([c[2], c[1], c[0]]) == [c[0], c[2], c[1]];
    assert c[1].key != c[2].key;
  }

  lemma {:induction false} ThirdKept(xBeforeY: bool, a: seq<Entry>, b: seq<Entry>, c: seq<Entry>)
    requires Unique(a + b + c)
    ensures ThirdOfThree(xBeforeY, a, b, c) == a + b + c <==>
      || |a| + |b| + |c| <= 1
      || (xBeforeY && a == [] && b == [] && |c| == 2)
      || (!xBeforeY && a == [] && |b| + |c| == 2 && |c| <= 1)
      || (!xBeforeY && a == [] && b == [] && |c| == 3)
  {
    if c == [] {
      ThirdKeptNone(xBeforeY, a, b);
    } else if xBeforeY {
      ThirdKeptFront(a, b, c);
    } else {
      ThirdKeptBack(a, b, c);
    }
  }

  lemma {:induction false} ThirdKeptNone(xBeforeY: bool, a: seq<Entry>, b: seq<Entry>)
    requires Unique(a + b + [])
    ensures ThirdOfThree(xBeforeY, a, b, []) == a + b + [] <==> |a| + |b| <= 1 || (!xBeforeY && a == [] && |b| == 2)
  {
    assert a + b + [] == a + b && b + Rot([]) == b;
    FrontFirstKept(a, b);
    BackFirstKept(a, b);
  }

  lemma {:induction false} ThirdKeptFront(a: seq<Entry>, b: seq<Entry>, c: seq<Entry>)
    requires Unique(a + b + c) && c != []
    ensures FrontFirst(a, b + Rot(c)) == a + b + c <==> |a| + |b| + |c| <= 1 || (a == [] && b == [] && |c| == 2)
  {
    var j := |a| + |b| + if |c| == 1 then 0 else |c| - 2;
    if j > 0 {
      ThirdFrontClash(a, b, c, j);
    } else {
      Nothing(a, b, c);
      ThirdFrontShort(c);
    }
  }

  lemma {:induction false} ThirdFrontClash(a: seq<Entry>, b: seq<Entry>, c: seq<Entry>, j: nat)
    requires Unique(a + b + c) && c != [] && j > 0 && j == |a| + |b| + if |c| == 1 then 0 else |c| - 2
    ensures FrontFirst(a, b + Rot(c)) != a + b + c
  {
    var q := b + Rot(c);
    RotLast(c);
    assert FrontFirst(a, q)[0] == Last(q) == Last(Rot(c)) == (a + b + c)[j];
    FrontClash(a + b + c, FrontFirst(a, q), j);
  }

  lemma {:induction false} ThirdFrontShort(c: seq<Entry>)
    requires 1 <= |c| <= 2
    ensures FrontFirst([], [] + Rot(c)) == c
  {
    assert [] + Rot(c) == Rot(c);
    if |c| == 1 {
      assert c == [c[0]] && Rot(c) == c && Init(c) == [] && [c[0]] + [] + Rot([]) == c;
    } else {
      assert c == [c[0], c[1]] && Rot(c) == [c[1], c[0]];
      assert Init([c[1], c[0]]) == [c[1]];
      RotLast([c[1]]);
      assert [c[0]] + [] + [c[1]] == c;
    }
  }

  lemma {:induction false} ThirdKeptBack(a: seq<Entry>, b: seq<Entry>, c: seq<Entry>)
    requires Unique(a + b + c) && c != []
    ensures BackFirst(a, b + Rot(c)) == a + b + c <==>
      |a| + |b| + |c| <= 1 || (a == [] && |b| == 1 && |c| == 1) || (a == [] && b == [] && |c| == 3)
  {
    var j := if |c| >= 3 then |a| + |b| + |c| - 3
             else if |c| == 2 then |a| + |b| + |c| - 1
             else if b == [] then |a|
             else |a| + |b| - 1;
    if j > 0 {
      ThirdFront(a, b, c, j);
      FrontClash(a + b + c, BackFirst(a, b + Rot(c)), j);
    } else {
      NothingBefore(a, b, c);
      ThirdKeptShort(b, c);
    }
  }

  lemma {:induction false} NothingBefore(a: seq<Entry>, b: seq<Entry>, c: seq<Entry>)
    requires |a| == 0
    ensures a == [] && a + b + c == b + c
  {
  }

  /** Which entry comes to the front. */
  lemma {:induction false} ThirdFront(a: seq<Entry>, b: seq<Entry>, c: seq<Entry>, j: nat)
    requires c != []
    requires j == if |c| >= 3 then |a| + |b| + |c| - 3 else if |c| == 2 then |a| + |b| + |c| - 1 else if b == [] then |a| else |a| + |b| - 1
    ensures j < |a| + |b| + |c| && BackFirst(a, b + Rot(c)) != [] && BackFirst(a, b + Rot(c))[0] == (a + b + c)[j]
  {
    RotFront(a, Rot(b + Rot(c)));
    RotLast(b + Rot(c));
    BeforeLast(b, c, j - |a|);
  }

  lemma {:induction false} BeforeLast(b: seq<Entry>, c: seq<Entry>, j: nat)
    requires c != []
    requires j == if |c| >= 3 then |b| + |c| - 3 else if |c| == 2 then |b| + |c| - 1 else if b == [] then 0 else |b| - 1
    ensures var q := b + Rot(c); (b + c)[j] == if |q| == 1 then q[0] else q[|q| - 2]
  {
    RotLast(c);
    if |c| >= 3 {
      RotAt(c, |c| - 2);
    }
  }

  lemma {:induction false} RotFront(a: seq<Entry>, r: seq<Entry>)
    requires r != []
    ensures Rot(a + r)[0] == Last(r)
  {
    assert Last(a + r) == Last(r);
  }

  lemma {:induction false} RotLast(s: seq<Entry>)
    ensures |s| >= 2 ==> Last(Rot(s)) == s[|s| - 2]
    ensures |s| == 1 ==> Rot(s) == s
  {
    if |s| >= 2 {
      RotAt(s, |s| - 1);
    }
  }

  lemma {:induction false} RotAt(s: seq<Entry>, i: nat)
    requires 1 <= i < |s|
    ensures Rot(s)[i] == s[i - 1]
  {
  }

  lemma {:induction false} ThirdKeptShort(b: seq<Entry>, c: seq<Entry>)
    requires (b == [] && (|c| == 1 || |c| == 3)) || (|b| == 1 && |c| == 1)
    ensures BackFirst([], b + Rot(c)) == b + c
  {
    var q := b + Rot(c);
    assert [] + Rot(q) == Rot(q);
    if |c| == 3 {
      ThirdKeptTriple(c);
      assert q == Rot(c) && b + c == c;
    } else {
      RotRot(q);
      assert Rot(c) == c;
    }
  }

  lemma {:induction false} ThirdKeptTriple(c: seq<Entry>)
    requires |c| == 3
    ensures Rot(Rot(Rot(c))) == c
  {
    assert Rot(c) == [c[2], c[0], c[1]];
    assert Rot(Rot(c)) == [c[1], c[2], c[0]];
  }
}
