/** What removing the hook groups does to the order of the keys. */
module HookOrder {
  import opened Basics
  import opened Settings
  import opened HookMerge
  import opened PruneOrder

  // ------------------------------------------------ one swap-removal

  /** Removal as the documentation describes it: the other keys stay in order. */
  function Without(m: seq<Entry>, key: string): seq<Entry> {
    match Find(m, key)
    case None => m
    case Some(i) => m[..i] + m[i + 1..]
  }

  /** Swap-removal keeps the order of the other keys exactly when the removed one
      was absent, last or last but one. */
  lemma {:induction false} SwapRemoveOrder(m: seq<Entry>, key: string)
    requires Unique(m)
    ensures SwapRemove(m, key) == Without(m, key) <==> Find(m, key).None? || Find(m, key).value >= |m| - 2
  {
    var at := Find(m, key);
    if at.Some? && at.value < |m| - 2 {
      var i := at.value;
      assert SwapRemove(m, key)[i] == m[|m| - 1] && Without(m, key)[i] == m[i + 1];
      assert m[|m| - 1].key != m[i + 1].key;
    }
  }

  // ------------------------------------------------ removal that keeps the order

  /** The entries that are not emptied events, in order. */
  function Residue(m: seq<Entry>): seq<Entry> {
    if m == [] then [] else (if Emptied(m[0]) then [] else [m[0]]) + Residue(m[1..])
  }

  /** Removal as documented: all that stays keeps its order. */
  function RemoveInOrder(settings: seq<Entry>): seq<Entry> {
    match Get(settings, "hooks")
    case Some(Object(o)) =>
      var hooks := Residue(Cleaned(o));
      if hooks == [] then Without(settings, "hooks") else Put(settings, "hooks", Object(hooks))
    case _ => settings
  }

  // -------------------------------------------------------------- the layout

  /** Ranks of the emptied events, in the order of the keys. */
  function Ranks(m: seq<Entry>): seq<nat> {
    if m == [] then [] else (if Emptied(m[0]) then [Rank(m[0])] else []) + Ranks(m[1..])
  }

  /** How many keys stay before the first emptied event. */
  function Lead(m: seq<Entry>): nat {
    if m == [] || Emptied(m[0]) then 0 else 1 + Lead(m[1..])
  }

  /** How many keys stay between each emptied event and the next. */
  function Gaps(m: seq<Entry>): seq<nat> {
    if m == [] then [] else (if Emptied(m[0]) then [Lead(m[1..])] else []) + Gaps(m[1..])
  }

  function Sum(g: seq<nat>): nat {
    if g == [] then 0 else g[0] + Sum(g[1..])
  }

  /** The layouts in which the swaps of several emptied events undo each other. */
  predicate Cancels(ranks: seq<nat>, gaps: seq<nat>) {
    || (|ranks| == 2 && ranks[0] > ranks[1] && gaps == [0, 2])
    || (ranks == [1, 2, 3] && gaps == [0, 2, 0])
    || (ranks == [2, 1, 3] && (gaps == [0, 0, 2] || gaps == [0, 1, 1]))
    || (ranks == [2, 3, 1] && gaps == [0, 0, 2])
    || (ranks == [3, 1, 2] && (gaps == [0, 0, 2] || gaps == [0, 1, 1] || gaps == [0, 2, 0]))
    || (ranks == [3, 2, 1] && (gaps == [0, 1, 1] || gaps == [0, 2, 0] || gaps == [0, 0, 3]))
  }

  /** At most one key stays behind the first emptied event, or the swaps cancel. */
  predicate OrderSafe(ranks: seq<nat>, gaps: seq<nat>) {
    Sum(gaps) <= 1 || Cancels(ranks, gaps)
  }

  lemma {:induction false} LayoutSkip(p: seq<Entry>, m: seq<Entry>)
    requires Stays(p)
    ensures Ranks(p + m) == Ranks(m) && Gaps(p + m) == Gaps(m)
    ensures Lead(p + m) == |p| + Lead(m) && Residue(p + m) == p + Residue(m)
  {
    if p == [] {
      assert p + m == m && p + Residue(m) == Residue(m);
    } else {
      assert (p + m)[0] == p[0] && (p + m)[1..] == p[1..] + m && !Emptied(p[0]);
      LayoutSkip(p[1..], m);
      FrontJoins(p, Residue(m));
    }
  }

  lemma {:induction false} FrontJoins(p: seq<Entry>, r: seq<Entry>)
    requires p != []
    ensures [p[0]] + (p[1..] + r) == p + r
  {
  }

  lemma {:induction false} LayoutHit(x: Entry, m: seq<Entry>)
    requires Emptied(x)
    ensures Ranks([x] + m) == [Rank(x)] + Ranks(m) && Gaps([x] + m) == [Lead(m)] + Gaps(m)
    ensures Lead([x] + m) == 0 && Residue([x] + m) == Residue(m)
  {
    assert ([x] + m)[1..] == m;
  }

  /** The layout of entries that stay, an emptied event, and the rest. */
  lemma {:induction false} LayoutAt(p: seq<Entry>, x: Entry, m: seq<Entry>)
    requires Stays(p) && Emptied(x)
    ensures var s := p + [x] + m;
      && Ranks(s) == [Rank(x)] + Ranks(m) && Gaps(s) == [Lead(m)] + Gaps(m)
      && Lead(s) == |p| && Residue(s) == p + Residue(m)
  {
    Join(p, [x], m);
    LayoutHit(x, m);
    LayoutSkip(p, [x] + m);
  }

  lemma {:induction false} LayoutEnd(q: seq<Entry>)
    requires Stays(q)
    ensures Ranks(q) == [] && Gaps(q) == [] && Lead(q) == |q| && Residue(q) == q
  {
    LayoutSkip(q, []);
    assert q + [] == q;
  }

  lemma {:induction false} SamePrefix(p: seq<Entry>, s: seq<Entry>, t: seq<Entry>)
    ensures p + s == p + t <==> s == t
  {
    assert (p + s)[|p|..] == s && (p + t)[|p|..] == t;
  }

  lemma {:induction false} UniqueTail(p: seq<Entry>, s: seq<Entry>)
    requires Unique(p + s)
    ensures Unique(s)
  {
    forall i, j | 0 <= i < j < |s| ensures s[i].key != s[j].key {
      assert (p + s)[|p| + i].key != (p + s)[|p| + j].key;
    }
  }

  // ----------------------------------------------- one, two and three emptied

  /** Pruning leaves the keys that stay in their order. */
  ghost predicate Kept(m: seq<Entry>) {
    Prune(m, EVENTS) == Residue(m)
  }

  lemma {:induction false} SumOne(a: nat)
    ensures Sum([a]) == a
  {
    assert [a][1..] == [];
  }

  lemma {:induction false} SumTwo(a: nat, b: nat)
    ensures Sum([a, b]) == a + b
  {
    assert [a, b][1..] == [b];
    SumOne(b);
  }

  lemma {:induction false} SumThree(a: nat, b: nat, c: nat)
    ensures Sum([a, b, c]) == a + b + c
  {
    assert [a, b, c][1..] == [b, c];
    SumTwo(b, c);
  }

  lemma {:induction false} KeptFrom(m: seq<Entry>, p: seq<Entry>, left: seq<Entry>, stay: seq<Entry>)
    requires Prune(m, EVENTS) == p + left && Residue(m) == p + stay
    ensures Kept(m) <==> left == stay
  {
    SamePrefix(p, left, stay);
  }

  lemma {:induction false} KeptNone(m: seq<Entry>)
    requires Unique(m) && Stays(m)
    ensures Kept(m) && OrderSafe(Ranks(m), Gaps(m))
  {
    assert EVENTS[0..] == EVENTS;
    StaysUpTo(m, 0);
    LayoutEnd(m);
  }

  lemma {:induction false} KeptOne(p: seq<Entry>, x: Entry, q: seq<Entry>)
    requires Unique(p + [x] + q) && Stays(p) && Stays(q) && Emptied(x)
    ensures var m := p + [x] + q; Kept(m) <==> OrderSafe(Ranks(m), Gaps(m))
  {
    PruneOneLeft(p, x, q);
    LayoutOne(p, x, q);
    SafeOne(Rank(x), |q|);
    UniqueTail(p + [x], q);
    RotKept(q);
    KeptFrom(p + [x] + q, p, Rot(q), q);
  }

  lemma {:induction false} PruneOneLeft(p: seq<Entry>, x: Entry, q: seq<Entry>)
    requires Unique(p + [x] + q) && Stays(p) && Stays(q) && Emptied(x)
    ensures Prune(p + [x] + q, EVENTS) == p + Rot(q)
  {
    assert EVENTS[0..] == EVENTS;
    PruneLast(p, x, q, 0);
  }

  lemma {:induction false} SafeOne(rx: nat, a: nat)
    ensures OrderSafe([rx], [a]) <==> a <= 1
  {
    SumOne(a);
  }

  lemma {:induction false} LayoutOne(p: seq<Entry>, x: Entry, q: seq<Entry>)
    requires Stays(p) && Stays(q) && Emptied(x)
    ensures var s := p + [x] + q; Ranks(s) == [Rank(x)] && Gaps(s) == [|q|] && Residue(s) == p + q
  {
    LayoutEnd(q);
    LayoutAt(p, x, q);
  }

  lemma {:induction false} LayoutTwo(p: seq<Entry>, x: Entry, m: seq<Entry>, y: Entry, q: seq<Entry>)
    requires Stays(p) && Stays(m) && Stays(q) && Emptied(x) && Emptied(y)
    ensures var s := p + [x] + (m + [y] + q);
      Ranks(s) == [Rank(x), Rank(y)] && Gaps(s) == [|m|, |q|] && Residue(s) == p + (m + q)
  {
    LayoutEnd(q);
    LayoutAt(m, y, q);
    LayoutAt(p, x, m + [y] + q);
  }

  lemma {:induction false} SafeTwo(rx: nat, ry: nat, a: nat, b: nat)
    ensures OrderSafe([rx, ry], [a, b]) <==> a + b <= 1 || (rx > ry && a == 0 && b == 2)
  {
    SumTwo(a, b);
    assert [a, b][0] == a && [a, b][1] == b;
  }

  lemma {:induction false} KeptTwo(p: seq<Entry>, x: Entry, m: seq<Entry>, y: Entry, q: seq<Entry>)
    requires Unique(p + [x] + (m + [y] + q)) && Stays(p) && Stays(m) && Stays(q) && Emptied(x) && Emptied(y)
    requires Rank(x) != Rank(y) && Unique(m + q)
    ensures var s := p + [x] + (m + [y] + q); Kept(s) <==> OrderSafe(Ranks(s), Gaps(s))
  {
    SafeTwo(Rank(x), Rank(y), |m|, |q|);
    var left := if Rank(x) < Rank(y) then FrontFirst(m, q) else BackFirst(m, q);
    assert EVENTS[0..] == EVENTS;
    PruneTwo(p, x, m, y, q, 0);
    LayoutTwo(p, x, m, y, q);
    FrontFirstKept(m, q);
    BackFirstKept(m, q);
    KeptFrom(p + [x] + (m + [y] + q), p, left, m + q);
  }

  lemma {:induction false} LayoutThree(p: seq<Entry>, x: Entry, a: seq<Entry>, y: Entry, b: seq<Entry>, z: Entry, c: seq<Entry>)
    requires Stays(p) && Stays(a) && Stays(b) && Stays(c) && Emptied(x) && Emptied(y) && Emptied(z)
    ensures var s := Line(p, x, a, y, b, z, c);
      Ranks(s) == [Rank(x), Rank(y), Rank(z)] && Gaps(s) == [|a|, |b|, |c|] && Residue(s) == p + (a + b + c)
  {
    LayoutEnd(c);
    LayoutAt(b, z, c);
    LayoutAt(a, y, b + [z] + c);
    LayoutAt(p, x, a + [y] + (b + [z] + c));
    Join(a, b, c);
  }

  lemma {:induction false} SafeThree(rx: nat, ry: nat, rz: nat, a: nat, b: nat, c: nat)
    requires 1 <= rx <= 3 && 1 <= ry <= 3 && 1 <= rz <= 3 && rx != ry && ry != rz && rx != rz
    ensures OrderSafe([rx, ry, rz], [a, b, c]) <==>
      || a + b + c <= 1
      || (a == 0 && rx == 1 && ry == 2 && b == 2 && c == 0)
      || (a == 0 && ry == 1 && ((rx == 3 && b == 2 && c == 0) || (b + c == 2 && c >= 1)))
      || (a == 0 && rz == 1 && rx == 2 && b == 0 && c == 2)
      || (a == 0 && rz == 1 && rx == 3 && ((b + c == 2 && c <= 1) || (b == 0 && c == 3)))
  {
    SumThree(a, b, c);
    ThreeEqual(rx, ry, rz);
    ThreeEqual(a, b, c);
  }

  lemma {:induction false} ThreeEqual(a: nat, b: nat, c: nat)
    ensures forall x, y, z: nat :: [a, b, c] == [x, y, z] <==> a == x && b == y && c == z
  {
    forall x, y, z: nat ensures [a, b, c] == [x, y, z] <==> a == x && b == y && c == z {
      assert [a, b, c][0] == a && [a, b, c][1] == b && [a, b, c][2] == c;
      assert [x, y, z][0] == x && [x, y, z][1] == y && [x, y, z][2] == z;
    }
  }

  lemma {:induction false} LeftKept(rx: nat, ry: nat, rz: nat, a: seq<Entry>, b: seq<Entry>, c: seq<Entry>)
    requires Unique(a + b + c) && 1 <= rx <= 3 && 1 <= ry <= 3 && 1 <= rz <= 3 && rx != ry && ry != rz && rx != rz
    ensures Left(rx, ry, rz, a, b, c) == a + b + c <==> OrderSafe([rx, ry, rz], [|a|, |b|, |c|])
  {
    SafeThree(rx, ry, rz, |a|, |b|, |c|);
    if rx == 1 {
      FirstKept(ry < rz, a, b, c);
    } else if ry == 1 {
      SecondKept(rx < rz, a, b, c);
    } else {
      ThirdKept(rx < ry, a, b, c);
    }
  }

  lemma {:induction false} KeptThree(p: seq<Entry>, x: Entry, a: seq<Entry>, y: Entry, b: seq<Entry>, z: Entry, c: seq<Entry>)
    requires Trio(p, x, a, y, b, z, c) && Unique(a + b + c)
    ensures var s := Line(p, x, a, y, b, z, c); Kept(s) <==> OrderSafe(Ranks(s), Gaps(s))
  {
    PruneThree(p, x, a, y, b, z, c);
    LayoutThree(p, x, a, y, b, z, c);
    LeftKept(Rank(x), Rank(y), Rank(z), a, b, c);
    KeptFrom(Line(p, x, a, y, b, z, c), p, Left(Rank(x), Rank(y), Rank(z), a, b, c), a + b + c);
  }

  lemma {:induction false} PruneThree(p: seq<Entry>, x: Entry, a: seq<Entry>, y: Entry, b: seq<Entry>, z: Entry, c: seq<Entry>)
    requires Trio(p, x, a, y, b, z, c)
    ensures Prune(Line(p, x, a, y, b, z, c), EVENTS) == p + Left(Rank(x), Rank(y), Rank(z), a, b, c)
  {
    if Rank(x) < Rank(y) && Rank(x) < Rank(z) {
      PruneFirstOfThree(p, x, a, y, b, z, c);
    } else if Rank(y) < Rank(z) {
      PruneSecondOfThree(p, x, a, y, b, z, c);
    } else {
      PruneThirdOfThree(p, x, a, y, b, z, c);
    }
  }

  // -------------------------------------------------------------- any number

  /** Cuts a list at its first emptied event. */
  lemma {:induction false} CutAtFirst(m: seq<Entry>) returns (i: nat)
    ensures i <= |m| && Stays(m[..i])
    ensures i < |m| ==> Emptied(m[i]) && m == m[..i] + [m[i]] + m[i + 1..]
    ensures i == |m| ==> Stays(m)
  {
    i := 0;
    while i < |m| && !Emptied(m[i])
      invariant i <= |m| && Stays(m[..i])
    {
      i := i + 1;
    }
    assert m[..|m|] == m;
  }

  lemma {:induction false} UniqueResidue(m: seq<Entry>)
    requires Unique(m)
    ensures Unique(Residue(m)) && forall e :: e in Residue(m) <==> e in m && !Emptied(e)
  {
    if m == [] {
    } else {
      var rest := Residue(m[1..]);
      UniqueResidue(m[1..]);
      forall j | 0 <= j < |rest| ensures rest[j].key != m[0].key {
        assert rest[j] in rest;
        var k :| 0 <= k < |m[1..]| && m[1..][k] == rest[j];
        assert m[k + 1] == rest[j];
      }
      assert m == [m[0]] + m[1..];
    }
  }

  /** Distinct keys, so distinct ranks. */
  lemma {:induction false} RanksDiffer(s: seq<Entry>, i: nat, j: nat)
    requires Unique(s) && i < j < |s|
    ensures Emptied(s[i]) && Emptied(s[j]) ==> Rank(s[i]) != Rank(s[j])
  {
  }

  /** The order of the hooks keys, exactly: whatever was emptied, pruning keeps it
      if and only if the layout is safe. */
  lemma {:induction false} KeptIff(m: seq<Entry>)
    requires Unique(m)
    ensures Kept(m) <==> OrderSafe(Ranks(m), Gaps(m))
  {
    var i := CutAtFirst(m);
    if i == |m| {
      KeptNone(m);
    } else {
      var j := CutAtFirst(m[i + 1..]);
      if j == |m[i + 1..]| {
        KeptOne(m[..i], m[i], m[i + 1..]);
      } else {
        KeptMore(m, m[..i], m[i], m[i + 1..], j);
      }
    }
  }

  lemma {:induction false} KeptMore(s: seq<Entry>, p: seq<Entry>, x: Entry, rest: seq<Entry>, j: nat)
    requires Unique(s) && s == p + [x] + rest && Stays(p) && Emptied(x)
    requires j < |rest| && Stays(rest[..j]) && Emptied(rest[j]) && rest == rest[..j] + [rest[j]] + rest[j + 1..]
    ensures Kept(s) <==> OrderSafe(Ranks(s), Gaps(s))
  {
    var a, y, tail := rest[..j], rest[j], rest[j + 1..];
    assert s[|p|] == x && s[|p| + 1 + j] == y;
    RanksDiffer(s, |p|, |p| + 1 + j);
    var k := CutAtFirst(tail);
    if k == |tail| {
      LayoutTwo(p, x, a, y, tail);
      UniqueResidue(s);
      UniqueTail(p, a + tail);
      KeptTwo(p, x, a, y, tail);
    } else {
      KeptMost(s, p, x, a, y, tail, k);
    }
  }

  lemma {:induction false} KeptMost(s: seq<Entry>, p: seq<Entry>, x: Entry, a: seq<Entry>, y: Entry, tail: seq<Entry>, k: nat)
    requires Unique(s) && s == p + [x] + (a + [y] + tail) && Stays(p) && Stays(a) && Emptied(x) && Emptied(y) && Rank(x) != Rank(y)
    requires k < |tail| && Stays(tail[..k]) && Emptied(tail[k]) && tail == tail[..k] + [tail[k]] + tail[k + 1..]
    ensures Kept(s) <==> OrderSafe(Ranks(s), Gaps(s))
  {
    var b, z, c := tail[..k], tail[k], tail[k + 1..];
    var iy := |p| + 1 + |a|;
    var iz := iy + 1 + k;
    assert s[|p|] == x && s[iy] == y && s[iz] == z;
    RanksDiffer(s, |p|, iz);
    RanksDiffer(s, iy, iz);
    forall l | 0 <= l < |c| ensures !Emptied(c[l]) {
      assert s[iz + 1 + l] == c[l];
      RanksDiffer(s, |p|, iz + 1 + l);
      RanksDiffer(s, iy, iz + 1 + l);
      RanksDiffer(s, iz, iz + 1 + l);
    }
    LayoutThree(p, x, a, y, b, z, c);
    UniqueResidue(s);
    UniqueTail(p, a + b + c);
    KeptThree(p, x, a, y, b, z, c);
  }

  // ------------------------------------------------------------- main results

  /** Pruning and filtering leave the same entries. */
  lemma {:induction false} PruneMembers(hooks: seq<Entry>, x: Entry)
    requires Unique(hooks)
    ensures x in Prune(hooks, EVENTS) <==> x in Residue(hooks)
  {
    PruneGet(hooks, EVENTS, x.key);
    GetIs(hooks, x);
    GetIs(Prune(hooks, EVENTS), x);
    UniqueResidue(hooks);
  }

  lemma {:induction false} GetIs(m: seq<Entry>, x: Entry)
    requires Unique(m)
    ensures Get(m, x.key) == Some(x.value) <==> x in m
  {
    if x in m {
      var i :| 0 <= i < |m| && m[i] == x;
      FindUnique(m, i);
    }
  }

  lemma {:induction false} PruneSize(hooks: seq<Entry>)
    requires Unique(hooks)
    ensures Prune(hooks, EVENTS) == [] <==> Residue(hooks) == []
  {
    var a, b := Prune(hooks, EVENTS), Residue(hooks);
    if a != [] {
      assert a[0] in a;
      PruneMembers(hooks, a[0]);
    }
    if b != [] {
      assert b[0] in b;
      PruneMembers(hooks, b[0]);
    }
  }

  /** The order of all keys, exactly: removal keeps it if and only if the layout
      of the emptied events is safe and, in case `hooks` itself goes, at most one
      settings key stands behind it. */
  lemma {:induction false} RemoveKeepsOrderIff(settings: seq<Entry>, o: seq<Entry>)
    requires WellKeyed(settings) && Get(settings, "hooks") == Some(Object(o))
    ensures Remove(settings) == RemoveInOrder(settings) <==>
      && OrderSafe(Ranks(Cleaned(o)), Gaps(Cleaned(o)))
      && (Residue(Cleaned(o)) == [] ==> Find(settings, "hooks").value >= |settings| - 2)
  {
    var a, b := Prune(Cleaned(o), EVENTS), Residue(Cleaned(o));
    CleanedUnique(o);
    KeptIff(Cleaned(o));
    SwapRemoveOrder(settings, "hooks");
    PruneSize(Cleaned(o));
    PutGet(settings, "hooks", Object(a), "hooks");
    PutGet(settings, "hooks", Object(b), "hooks");
  }

  /** With the three events emptied in the order in which injecting appends them,
      for a user who had none, the order is kept if and only if at most one key
      came behind the first, or exactly two did and stand before the last. */
  lemma {:induction false} InjectedOrder(m: seq<Entry>)
    requires Unique(m) && Ranks(m) == [1, 2, 3]
    ensures Prune(m, EVENTS) == Residue(m) <==> Sum(Gaps(m)) <= 1 || Gaps(m) == [0, 2, 0]
  {
    KeptIff(m);
  }

  /** More than three keys behind the first emptied event always get reordered. */
  lemma {:induction false} ManyReordered(m: seq<Entry>)
    requires Unique(m) && Sum(Gaps(m)) > 3
    ensures Prune(m, EVENTS) != Residue(m)
  {
    KeptIff(m);
    if Cancels(Ranks(m), Gaps(m)) {
      SumTwo(0, 2);
      SumThree(0, 2, 0);
      SumThree(0, 0, 2);
      SumThree(0, 1, 1);
      SumThree(0, 0, 3);
    }
  }

  // ------------------------------------------------------------------ example

  /** So removal can reorder a user's own hooks: an emptied `Stop` before two
      foreign events swaps them. */
  lemma {:induction false} RemoveCanReorder(command: string)
    requires IsSpnrHookCommand(command)
    ensures var a, b := Entry("PreToolUse", Array([Null])), Entry("PostToolUse", Array([Null]));
            var hooks := [Entry("Stop", Array([Group(command)])), a, b];
      Remove([Entry("hooks", Object(hooks))]) == [Entry("hooks", Object([b, a]))]
  {
    var a, b := Entry("PreToolUse", Array([Null])), Entry("PostToolUse", Array([Null]));
    var stop := Entry("Stop", Array([]));
    var hooks := [Entry("Stop", Array([Group(command)])), a, b];
    var settings := [Entry("hooks", Object(hooks))];
    assert AllSpnr([Group(command)]) by {
      GroupHasCommand(command);
    }
    KeepNone([Group(command)]);
    assert Find(settings, "hooks") == Some(0);
    assert Cleaned(hooks) == [stop, a, b];
    PruneReorders(stop, a, b);
    PutSame(settings, "hooks", Object(hooks));
  }

  lemma {:induction false} PruneReorders(stop: Entry, a: Entry, b: Entry)
    requires stop == Entry("Stop", Array([])) && a.key == "PreToolUse" && b.key == "PostToolUse"
    ensures Prune([stop, a, b], EVENTS) == [b, a]
  {
    assert [stop, a, b] == [] + [stop] + [a, b];
    assert [] + Rot([a, b]) == [b, a];
    PruneOneLeft([], stop, [a, b]);
  }
}
