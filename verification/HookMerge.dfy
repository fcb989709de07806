/** What injecting and removing the hook groups guarantees about the settings. */
module HookMerge {
  import opened Basics
  import opened Settings

  // ------------------------------------------------------- what injecting adds

  ghost predicate AllSpnr(items: seq<Value>) {
    forall g :: g in items ==> IsSpnrGroup(g)
  }

  /** The entry is unchanged, or it is an event whose array has spnr groups
      appended. */
  ghost predicate EntryGrown(e: Entry, e': Entry) {
    && e'.key == e.key
    && if e.key in EVENTS && e.value.Array?
       then e'.value.Array? && e.value.items <= e'.value.items && AllSpnr(e'.value.items[|e.value.items|..])
       else e'.value == e.value
  }

  /** The old entries in place, then events that hold spnr groups only. */
  ghost predicate HooksGrown(o: seq<Entry>, o': seq<Entry>) {
    && |o| <= |o'| && Unique(o')
    && (forall i :: 0 <= i < |o| ==> EntryGrown(o[i], o'[i]))
    && (forall i :: |o| <= i < |o'| ==> o'[i].key in EVENTS && o'[i].value.Array? && AllSpnr(o'[i].value.items))
  }

  /** `settings'` is `settings` with nothing but spnr groups added to `hooks`,
      every key in its old place. */
  ghost predicate Grown(settings: seq<Entry>, settings': seq<Entry>) {
    match Get(settings, "hooks")
    case None =>
      settings' == settings ||
      exists t :: HooksGrown([], t) && settings' == settings + [Entry("hooks", Object(t))]
    case Some(Object(o)) => exists o' :: HooksGrown(o, o') && settings' == Put(settings, "hooks", Object(o'))
    case _ => settings' == settings
  }

  lemma {:induction false} InjectEventGrows(o: seq<Entry>, hooks: seq<Entry>, event: string, command: string)
    requires HooksGrown(o, hooks) && event in EVENTS && IsSpnrHookCommand(command)
    ensures InjectEvent(hooks, event, command).Ok? ==> HooksGrown(o, InjectEvent(hooks, event, command).value)
  {
    GroupHasCommand(command);
    var at, g := Find(hooks, event), Group(command);
    if at.Some? && hooks[at.value].value.Array? {
      var items := hooks[at.value].value.items;
      var hooks' := InjectEvent(hooks, event, command).value;
      PutUnique(hooks, event, Array(WithGroup(items, command)));
      assert forall i :: 0 <= i < |hooks| && i != at.value ==> hooks'[i] == hooks[i];
      if at.value < |o| {
        ArrayGrows(o[at.value], hooks[at.value], WithGroup(items, command), g);
      }
    }
  }

  lemma {:induction false} ArrayGrows(e: Entry, e': Entry, items: seq<Value>, g: Value)
    requires EntryGrown(e, e') && e.key in EVENTS && e'.value.Array? && IsSpnrGroup(g)
    requires items == e'.value.items || items == e'.value.items + [g]
    ensures EntryGrown(e, Entry(e.key, Array(items)))
  {
    if e.value.Array? && items != e'.value.items {
      var n := |e.value.items|;
      assert items[n..] == e'.value.items[n..] + [g];
    }
  }

  lemma {:induction false} InjectEventsGrows(o: seq<Entry>, hooks: seq<Entry>, events: seq<string>, command: string)
    requires HooksGrown(o, hooks) && IsSpnrHookCommand(command) && forall e :: e in events ==> e in EVENTS
    ensures InjectEvents(hooks, events, command).Ok? ==> HooksGrown(o, InjectEvents(hooks, events, command).value)
    decreases |events|
  {
    if events == [] {
    } else {
      InjectEventGrows(o, hooks, events[0], command);
      var next := InjectEvent(hooks, events[0], command);
      if next.Ok? {
        InjectEventsGrows(o, next.value, events[1..], command);
      }
    }
  }

  lemma {:induction false} PutTwice(m: seq<Entry>, key: string, v: Value, w: Value)
    requires Unique(m)
    ensures Put(Put(m, key, v), key, w) == Put(m, key, w)
  {
    var m', at := Put(m, key, v), Find(m, key);
    PutUnique(m, key, v);
    if at.Some? {
      FindUnique(m', at.value);
      assert m'[at.value := Entry(key, w)] == m[at.value := Entry(key, w)];
    } else {
      FindUnique(m', |m|);
      ReplaceLast(m, Entry(key, v), Entry(key, w));
    }
  }

  lemma {:induction false} ReplaceLast(m: seq<Entry>, e: Entry, e': Entry)
    ensures (m + [e])[|m| := e'] == m + [e']
  {
  }

  lemma {:induction false} PutSame(m: seq<Entry>, key: string, v: Value)
    requires Get(m, key) == Some(v)
    ensures Put(m, key, v) == m
  {
  }

  lemma {:induction false} GrownReflexive(settings: seq<Entry>)
    requires WellKeyed(settings)
    ensures Grown(settings, settings)
  {
    match Get(settings, "hooks") {
      case Some(Object(o)) =>
        forall i | 0 <= i < |o| ensures EntryGrown(o[i], o[i]) {
        }
        assert HooksGrown(o, o);
        PutSame(settings, "hooks", Object(o));
      case _ =>
    }
  }

  /** The hooks object of settings that have grown. */
  lemma {:induction false} GrownHooks(base: seq<Entry>, settings: seq<Entry>) returns (o: seq<Entry>, o': seq<Entry>)
    requires WellKeyed(base) && Grown(base, settings) && Get(settings, "hooks").Some? && Get(settings, "hooks").value.Object?
    ensures Get(settings, "hooks") == Some(Object(o')) && HooksGrown(o, o')
    ensures Get(base, "hooks") == if settings != base + [Entry("hooks", Object(o'))] then Some(Object(o)) else None
    ensures Get(base, "hooks").None? ==> o == []
    ensures settings == Put(base, "hooks", Object(o'))
  {
    match Get(base, "hooks") {
      case Some(Object(before)) =>
        o := before;
        o' :| HooksGrown(o, o') && settings == Put(base, "hooks", Object(o'));
        PutGet(base, "hooks", Object(o'), "hooks");
        assert |settings| == |base|;
      case None =>
        o := [];
        o' :| HooksGrown([], o') && settings == base + [Entry("hooks", Object(o'))];
    }
  }

  lemma {:induction false} GrownKeepsHooks(base: seq<Entry>, settings: seq<Entry>)
    requires WellKeyed(base) && Grown(base, settings) && Get(base, "hooks").Some?
    ensures Get(settings, "hooks").Some?
    ensures Get(settings, "hooks").value.Object? <==> Get(base, "hooks").value.Object?
  {
    match Get(base, "hooks") {
      case Some(Object(o)) =>
        var o' :| HooksGrown(o, o') && settings == Put(base, "hooks", Object(o'));
        PutGet(base, "hooks", Object(o'), "hooks");
      case _ =>
    }
  }

  /** Injecting only ever adds spnr groups, at the end of the event arrays, and
      missing keys after all others. */
  lemma {:induction false} InjectGrows(base: seq<Entry>, settings: seq<Entry>, command: string)
    requires WellKeyed(base) && Grown(base, settings) && IsSpnrHookCommand(command)
    ensures Inject(settings, command).Ok? ==> Grown(base, Inject(settings, command).value)
  {
    match Get(settings, "hooks") {
      case Some(Object(_)) =>
        var o, o' := GrownHooks(base, settings);
        InjectEventsGrows(o, o', EVENTS, command);
        var hooks := InjectEvents(o', EVENTS, command);
        if hooks.Ok? {
          PutTwice(base, "hooks", Object(o'), Object(hooks.value));
        }
      case None =>
        if Get(base, "hooks").None? {
          InjectEventsGrows([], [], EVENTS, command);
        } else {
          GrownKeepsHooks(base, settings);
        }
      case Some(_) =>
    }
  }

  // ------------------------------------------------------------ removing it all

  /** Nothing in the settings is touched by removal: no hooks object, or one that is
      not empty and whose event arrays hold foreign groups and at least one. */
  ghost predicate Clean(settings: seq<Entry>) {
    match Get(settings, "hooks")
    case Some(Object(o)) => o != [] && forall i :: 0 <= i < |o| ==> CleanEntry(o[i])
    case _ => true
  }

  predicate CleanEntry(e: Entry) {
    e.key in EVENTS && e.value.Array? ==> e.value.items != [] && Keep(e.value.items) == e.value.items
  }

  lemma {:induction false} KeepConcat(a: seq<Value>, b: seq<Value>)
    ensures Keep(a + b) == Keep(a) + Keep(b)
  {
    if b == [] {
      assert a + b == a;
    } else {
      assert (a + b)[..|a + b| - 1] == a + b[..|b| - 1];
      KeepConcat(a, b[..|b| - 1]);
    }
  }

  lemma {:induction false} KeepNone(items: seq<Value>)
    requires AllSpnr(items)
    ensures Keep(items) == []
  {
    if items == [] {
    } else {
      forall g | g in items[..|items| - 1] ensures IsSpnrGroup(g) {
        assert g in items;
      }
      KeepNone(items[..|items| - 1]);
      assert items[|items| - 1] in items;
    }
  }

  lemma {:induction false} KeepTwice(items: seq<Value>)
    ensures Keep(Keep(items)) == Keep(items)
  {
    if items == [] {
    } else {
      var front, last := items[..|items| - 1], items[|items| - 1];
      KeepTwice(front);
      if !IsSpnrGroup(last) {
        KeepConcat(Keep(front), [last]);
        assert [last][..0] == [];
        assert Keep([last]) == [] + [last];
      } else {
        assert Keep(items) == Keep(front) + [] == Keep(front);
      }
    }
  }

  /** Cleaning takes a grown entry back to what it was. */
  lemma {:induction false} CleanGrown(e: Entry, e': Entry)
    requires EntryGrown(e, e') && CleanEntry(e)
    ensures CleanedEntry(e') == e
  {
    if e.key in EVENTS && e.value.Array? {
      var a, a' := e.value.items, e'.value.items;
      assert a' == a + a'[|a|..];
      KeepConcat(a, a'[|a|..]);
      KeepNone(a'[|a|..]);
      assert Keep(a) + [] == Keep(a);
    }
  }

  /** Pruning removes the emptied events behind the old entries and nothing else,
      and although it swaps entries the old ones stay where they are. */
  lemma {:induction false} PruneTail(o: seq<Entry>, t: seq<Entry>, events: seq<string>)
    requires Unique(o + t)
    requires forall e :: e in t ==> e.key in events && e.value == Array([])
    requires forall i :: 0 <= i < |o| && o[i].key in events ==> o[i].value != Array([])
    ensures Prune(o + t, events) == o
    decreases |events|
  {
    assert t != [] ==> t[0] in t;
    if events == [] {
      assert o + t == o;
    } else {
      var event, at := events[0], Find(o + t, events[0]);
      if at.Some? && at.value >= |o| {
        var j := at.value - |o|;
        assert (o + t)[at.value] == t[j] && t[j] in t;
        var t' := SwapRemove(o + t, event)[|o|..];
        assert SwapRemove(o + t, event) == o + t';
        SwapRemoveUnique(o + t, event);
        forall e | e in t' ensures e.key in events[1..] && e.value == Array([]) {
          TailEntry(o, t, t', event, e);
          assert e.key in events && e.key != event;
        }
        PruneTail(o, t', events[1..]);
      } else {
        forall e | e in t ensures e.key in events[1..] {
          var j :| 0 <= j < |t| && t[j] == e;
          assert (o + t)[|o| + j] == e;
          assert e.key != event;
        }
        assert at.Some? ==> (o + t)[at.value] == o[at.value] && o[at.value].key == event;
        PruneTail(o, t, events[1..]);
      }
    }
  }

  lemma {:induction false} TailEntry(o: seq<Entry>, t: seq<Entry>, t': seq<Entry>, event: string, e: Entry)
    requires Unique(o + t) && SwapRemove(o + t, event) == o + t' && e in t'
    ensures e in t && e.key != event
  {
    SwapRemoveUnique(o + t, event);
    var j :| 0 <= j < |t'| && t'[j] == e;
    assert (o + t')[|o| + j] == e;
    assert e in o + t;
    forall i | 0 <= i < |o| ensures o[i] != e {
      assert (o + t')[i] == o[i];
    }
  }

  lemma {:induction false} CleanedGrown(o: seq<Entry>, o': seq<Entry>)
    requires HooksGrown(o, o') && forall i :: 0 <= i < |o| ==> CleanEntry(o[i])
    ensures Prune(Cleaned(o'), EVENTS) == o
  {
    var hooks := Cleaned(o');
    var t := hooks[|o|..];
    forall i | 0 <= i < |o| ensures hooks[i] == o[i] {
      CleanGrown(o[i], o'[i]);
    }
    forall e | e in t ensures e.key in EVENTS && e.value == Array([]) {
      var j :| 0 <= j < |t| && t[j] == e;
      KeepNone(o'[|o| + j].value.items);
      assert hooks[|o| + j] == CleanedEntry(o'[|o| + j]);
    }
    assert hooks == o + t;
    PruneTail(o, t, EVENTS);
  }

  lemma {:induction false} RemoveLast(m: seq<Entry>, key: string, v: Value)
    ensures SwapRemove(m + [Entry(key, v)], key) == m
  {
  }

  /** Removal undoes whatever was injected into clean settings. */
  lemma {:induction false} RemoveUndoes(base: seq<Entry>, settings: seq<Entry>)
    requires WellKeyed(base) && Clean(base) && Grown(base, settings)
    ensures Remove(settings) == base
  {
    match Get(settings, "hooks") {
      case Some(Object(_)) =>
        var o, o' := GrownHooks(base, settings);
        CleanedGrown(o, o');
        if Get(base, "hooks").None? {
          RemoveLast(base, "hooks", Object(o'));
        } else {
          PutTwice(base, "hooks", Object(o'), Object(o));
          PutSame(base, "hooks", Object(o));
        }
      case _ =>
        if Get(base, "hooks").Some? {
          GrownKeepsHooks(base, settings);
        }
    }
  }

  // ----------------------------------------------------- what removal leaves

  lemma {:induction false} CleanedUnique(o: seq<Entry>)
    requires Unique(o)
    ensures Unique(Cleaned(o))
  {
  }

  /** What is left after pruning: every other key as it was. */
  lemma {:induction false} PruneGet(o: seq<Entry>, events: seq<string>, k: string)
    requires Unique(o)
    ensures Unique(Prune(o, events))
    ensures Get(Prune(o, events), k) == if k in events && Get(o, k) == Some(Array([])) then None else Get(o, k)
    decreases |events|
  {
    if events == [] {
    } else {
      var o' := if Get(o, events[0]) == Some(Array([])) then SwapRemove(o, events[0]) else o;
      SwapRemoveUnique(o, events[0]);
      SwapRemoveGet(o, events[0], k);
      PruneGet(o', events[1..], k);
    }
  }

  lemma {:induction false} CleanedGet(o: seq<Entry>, k: string)
    requires Unique(o)
    ensures Get(Cleaned(o), k) ==
      match Get(o, k) { case None => None case Some(v) => Some(CleanedEntry(Entry(k, v)).value) }
  {
    var at := Find(o, k);
    CleanedUnique(o);
    assert forall i :: 0 <= i < |o| ==> Cleaned(o)[i].key == o[i].key;
    if at.Some? {
      assert Cleaned(o)[at.value] == CleanedEntry(o[at.value]);
      FindUnique(Cleaned(o), at.value);
    }
  }

  /** What one hooks key holds after removal: an event array keeps its foreign
      groups in order and goes if none are left; anything else is untouched. */
  function LeftOf(k: string, v: Option<Value>): Option<Value> {
    if k in EVENTS && v.Some? && v.value.Array? then
      var kept := Keep(v.value.items);
      if kept == [] then None else Some(Array(kept))
    else v
  }

  lemma {:induction false} RemovedHooksGet(o: seq<Entry>, k: string)
    requires Unique(o)
    ensures Get(Prune(Cleaned(o), EVENTS), k) == LeftOf(k, Get(o, k))
  {
    CleanedUnique(o);
    CleanedGet(o, k);
    PruneGet(Cleaned(o), EVENTS, k);
  }

  /** Foreign hooks survive: after removal every settings key but `hooks` holds
      what it held, and every hooks key holds what `LeftOf` says. */
  lemma {:induction false} RemoveKeepsForeign(settings: seq<Entry>, key: string, event: string)
    requires WellKeyed(settings)
    ensures key != "hooks" ==> Get(Remove(settings), key) == Get(settings, key)
    ensures Get(settings, "hooks").Some? && Get(settings, "hooks").value.Object? ==>
      var left := LeftOf(event, Get(Get(settings, "hooks").value.entries, event));
      match Get(Remove(settings), "hooks")
      case Some(Object(o')) => Get(o', event) == left
      case Some(_) => false
      case None => left == None
  {
    match Get(settings, "hooks") {
      case Some(Object(o)) =>
        var hooks := Prune(Cleaned(o), EVENTS);
        RemovedHooksGet(o, event);
        PutGet(settings, "hooks", Object(hooks), key);
        PutGet(settings, "hooks", Object(hooks), "hooks");
        SwapRemoveGet(settings, "hooks", key);
        SwapRemoveGet(settings, "hooks", "hooks");
      case _ =>
    }
  }

  /** Removal always leaves clean settings. */
  lemma {:induction false} RemoveCleans(settings: seq<Entry>)
    requires WellKeyed(settings)
    ensures Clean(Remove(settings)) && WellKeyed(Remove(settings))
  {
    match Get(settings, "hooks") {
      case Some(Object(o)) =>
        var hooks := Prune(Cleaned(o), EVENTS);
        HooksLeftClean(o);
        PutUnique(settings, "hooks", Object(hooks));
        PutGet(settings, "hooks", Object(hooks), "hooks");
        SwapRemoveUnique(settings, "hooks");
        SwapRemoveGet(settings, "hooks", "hooks");
      case _ =>
    }
  }

  lemma {:induction false} HooksLeftClean(o: seq<Entry>)
    requires Unique(o)
    ensures var hooks := Prune(Cleaned(o), EVENTS);
      Unique(hooks) && forall i :: 0 <= i < |hooks| ==> CleanEntry(hooks[i])
  {
    var hooks := Prune(Cleaned(o), EVENTS);
    CleanedUnique(o);
    PruneGet(Cleaned(o), EVENTS, "");
    forall i | 0 <= i < |hooks| ensures CleanEntry(hooks[i]) {
      var k := hooks[i].key;
      FindUnique(hooks, i);
      RemovedHooksGet(o, k);
      if k in EVENTS && Get(o, k).Some? && Get(o, k).value.Array? {
        KeepTwice(Get(o, k).value.items);
      }
    }
  }

  // ------------------------------------------------------------- main results

  /** The inverse law: after injecting, removing gives back the same settings with
      the same key order exactly when the settings were clean. */
  lemma {:induction false} RemoveInvertsInject(settings: seq<Entry>, command: string)
    requires WellKeyed(settings) && IsSpnrHookCommand(command) && Inject(settings, command).Ok?
    ensures Remove(Inject(settings, command).value) == settings <==> Clean(settings)
  {
    var injected := Inject(settings, command).value;
    GrownReflexive(settings);
    InjectGrows(settings, settings, command);
    if Clean(settings) {
      RemoveUndoes(settings, injected);
    }
    InjectWellKeyed(settings, command);
    RemoveCleans(injected);
  }

  lemma {:induction false} InjectWellKeyed(settings: seq<Entry>, command: string)
    requires WellKeyed(settings) && IsSpnrHookCommand(command) && Inject(settings, command).Ok?
    ensures WellKeyed(Inject(settings, command).value)
  {
    match Get(settings, "hooks") {
      case Some(Object(o)) =>
        forall i | 0 <= i < |o| ensures EntryGrown(o[i], o[i]) {
        }
        InjectEventsGrows(o, o, EVENTS, command);
        var hooks := InjectEvents(o, EVENTS, command).value;
        PutUnique(settings, "hooks", Object(hooks));
        PutGet(settings, "hooks", Object(hooks), "hooks");
      case None =>
        InjectEventsGrows([], [], EVENTS, command);
      case Some(_) =>
    }
  }

  /** Several installations, one after the other. */
  function InjectMany(settings: seq<Entry>, commands: seq<string>): Result<seq<Entry>, Drift> {
    if commands == [] then Ok(settings)
    else
      match InjectMany(settings, Init(commands))
      case Ok(s) => Inject(s, Last(commands))
      case Err(d) => Err(d)
  }

  /** Installing any number of times, even under different paths, is undone by
      one removal. */
  lemma {:induction false} RemoveInvertsMany(settings: seq<Entry>, commands: seq<string>)
    requires WellKeyed(settings) && Clean(settings)
    requires forall c :: c in commands ==> IsSpnrHookCommand(c)
    ensures InjectMany(settings, commands).Ok? ==>
      Grown(settings, InjectMany(settings, commands).value) && Remove(InjectMany(settings, commands).value) == settings
  {
    if commands == [] {
      GrownReflexive(settings);
      RemoveUndoes(settings, settings);
    } else {
      forall c | c in Init(commands) ensures IsSpnrHookCommand(c) {
        assert c in commands;
      }
      assert Last(commands) in commands;
      RemoveInvertsMany(settings, Init(commands));
      var before := InjectMany(settings, Init(commands));
      if before.Ok? && Inject(before.value, Last(commands)).Ok? {
        InjectGrows(settings, before.value, Last(commands));
        RemoveUndoes(settings, Inject(before.value, Last(commands)).value);
      }
    }
  }

  /** Removing twice is removing once. */
  lemma {:induction false} RemoveIdempotent(settings: seq<Entry>)
    requires WellKeyed(settings)
    ensures Remove(Remove(settings)) == Remove(settings)
  {
    RemoveCleans(settings);
    GrownReflexive(Remove(settings));
    RemoveUndoes(Remove(settings), Remove(settings));
  }

  /** Injecting keeps every key at its place and every foreign value; each
      original event array is a prefix of the new one. */
  lemma {:induction false} InjectKeeps(settings: seq<Entry>, command: string)
    requires WellKeyed(settings) && IsSpnrHookCommand(command) && Inject(settings, command).Ok?
    ensures Grown(settings, Inject(settings, command).value)
  {
    GrownReflexive(settings);
    InjectGrows(settings, settings, command);
  }

  /** The event's array holds a group with exactly this command. */
  predicate Wired(hooks: seq<Entry>, event: string, command: string) {
    match Get(hooks, event)
    case Some(Array(items)) => Installed(items, command)
    case _ => false
  }

  lemma {:induction false} InjectEventWires(hooks: seq<Entry>, event: string, command: string, other: string)
    requires Unique(hooks) && InjectEvent(hooks, event, command).Ok?
    ensures var hooks' := InjectEvent(hooks, event, command).value;
      Unique(hooks') && Wired(hooks', event, command) && (Wired(hooks, other, command) ==> Wired(hooks', other, command))
    ensures Wired(hooks, event, command) ==> InjectEvent(hooks, event, command).value == hooks
  {
    GroupHasCommand(command);
    var items := match Get(hooks, event) { case Some(Array(items)) => items case _ => [] };
    var v := Array(WithGroup(items, command));
    assert Group(command) in items + [Group(command)];
    assert [] + [Group(command)] == [Group(command)];
    assert InjectEvent(hooks, event, command).value == Put(hooks, event, v);
    PutUnique(hooks, event, v);
    PutGet(hooks, event, v, event);
    PutGet(hooks, event, v, other);
    if Wired(hooks, event, command) {
      PutSame(hooks, event, v);
    }
  }

  lemma {:induction false} InjectEventsWires(hooks: seq<Entry>, events: seq<string>, command: string, other: string)
    requires Unique(hooks) && InjectEvents(hooks, events, command).Ok?
    ensures var hooks' := InjectEvents(hooks, events, command).value;
      Unique(hooks') && (other in events || Wired(hooks, other, command) ==> Wired(hooks', other, command))
    decreases |events|
  {
    if events == [] {
    } else {
      InjectEventWires(hooks, events[0], command, other);
      InjectEventsWires(InjectEvent(hooks, events[0], command).value, events[1..], command, other);
    }
  }

  lemma {:induction false} WiredUnchanged(hooks: seq<Entry>, events: seq<string>, command: string)
    requires Unique(hooks) && forall e :: e in events ==> Wired(hooks, e, command)
    ensures InjectEvents(hooks, events, command) == Ok(hooks)
    decreases |events|
  {
    if events == [] {
    } else {
      assert Wired(hooks, events[0], command);
      InjectEventWires(hooks, events[0], command, events[0]);
      WiredUnchanged(hooks, events[1..], command);
    }
  }

  /** Injecting wires every event, and doing it again changes nothing. */
  lemma {:induction false} InjectIdempotent(settings: seq<Entry>, command: string)
    requires WellKeyed(settings) && Inject(settings, command).Ok?
    ensures var injected := Inject(settings, command).value;
      && Inject(injected, command) == Ok(injected)
      && match Get(injected, "hooks") {
           case Some(Object(hooks)) => forall e :: e in EVENTS ==> Wired(hooks, e, command)
           case _ => false
         }
  {
    var before := HooksIn(settings);
    var hooks := InjectEvents(before, EVENTS, command).value;
    forall e | e in EVENTS ensures Wired(hooks, e, command) && Unique(hooks) {
      InjectEventsWires(before, EVENTS, command, e);
    }
    assert EVENTS[0] in EVENTS;
    WiredUnchanged(hooks, EVENTS, command);
    assert Inject(settings, command).value == Put(settings, "hooks", Object(hooks));
    PutGet(settings, "hooks", Object(hooks), "hooks");
    PutSame(Put(settings, "hooks", Object(hooks)), "hooks", Object(hooks));
  }

  /** Injecting refuses exactly settings whose `hooks` is not an object or one
      of whose events is not an array. */
  lemma {:induction false} RefusesOddShapes(settings: seq<Entry>, command: string)
    requires WellKeyed(settings)
    ensures Inject(settings, command).Err? <==>
      match Get(settings, "hooks")
      case None => false
      case Some(Object(o)) => exists e :: e in EVENTS && Get(o, e).Some? && !Get(o, e).value.Array?
      case Some(_) => true
  {
    var before := HooksIn(settings);
    RefusesEvents(before, EVENTS, command);
  }

  lemma {:induction false} RefusesEvents(hooks: seq<Entry>, events: seq<string>, command: string)
    requires Unique(hooks)
    ensures InjectEvents(hooks, events, command).Err? <==>
      exists e :: e in events && Get(hooks, e).Some? && !Get(hooks, e).value.Array?
    decreases |events|
  {
    if events == [] {
    } else {
      var event := events[0];
      assert event in events;
      if InjectEvent(hooks, event, command).Ok? {
        var hooks' := InjectEvent(hooks, event, command).value;
        InjectEventWires(hooks, event, command, event);
        RefusesEvents(hooks', events[1..], command);
        forall e ensures (Get(hooks', e).Some? && !Get(hooks', e).value.Array?) <==> (Get(hooks, e).Some? && !Get(hooks, e).value.Array?) {
          var items := match Get(hooks, event) { case Some(Array(items)) => items case _ => [] };
          assert [] + [Group(command)] == [Group(command)];
          GroupHasCommand(command);
          PutGet(hooks, event, Array(WithGroup(items, command)), e);
        }
      }
    }
  }

  // ---------------------------------------------- what is written, word for word

  /** The three events that are wired. */
  predicate WiredEvent(e: string) {
    e == "UserPromptSubmit" || e == "Stop" || e == "SessionEnd"
  }

  lemma {:induction false} EventsAre(e: string)
    ensures e in EVENTS <==> WiredEvent(e)
  {
    assert EVENTS[0] == "UserPromptSubmit" && EVENTS[1] == "Stop" && EVENTS[2] == "SessionEnd";
  }

  /** Some hook of the group has exactly this command. */
  predicate RunsCommand(group: Value, command: string) {
    match Field(group, "hooks")
    case Some(Array(hooks)) => exists h :: h in hooks && Field(h, "command") == Some(Str(command))
    case _ => false
  }

  /** A group with an empty matcher and one hook, which runs the command. */
  predicate CommandGroup(group: Value, command: string) {
    && group.Object? && |group.entries| == 2 && group.entries[0].key == "matcher"
    && Field(group, "matcher") == Some(Str(""))
    && match Field(group, "hooks") {
         case Some(Array(hooks)) => |hooks| == 1 && CommandHook(hooks[0], command)
         case _ => false
       }
  }

  predicate CommandHook(h: Value, command: string) {
    && h.Object? && |h.entries| == 2 && h.entries[0].key == "type"
    && Field(h, "type") == Some(Str("command")) && Field(h, "command") == Some(Str(command))
  }

  lemma {:induction false} GroupIsCommandGroup(command: string)
    ensures CommandGroup(Group(command), command)
  {
    var g := Group(command);
    var h := Object([Entry("type", Str("command")), Entry("command", Str(command))]);
    FindUnique(g.entries, 0);
    FindUnique(g.entries, 1);
    FindUnique(h.entries, 0);
    FindUnique(h.entries, 1);
  }

  /** The groups an event has, if it has an array. */
  function GroupsOf(hooks: seq<Entry>, event: string): seq<Value> {
    match Get(hooks, event)
    case Some(Array(items)) => items
    case _ => []
  }

  /** What an event's groups become: nothing is added if one runs the command
      already, and otherwise exactly one new group that does. */
  predicate Appended(before: seq<Value>, after: seq<Value>, command: string) {
    if exists g :: g in before && RunsCommand(g, command) then after == before
    else |after| == |before| + 1 && before <= after && CommandGroup(after[|before|], command)
  }

  lemma {:induction false} WithGroupAppends(items: seq<Value>, command: string)
    ensures Appended(items, WithGroup(items, command), command)
  {
    assert forall g :: HasExactCommand(g, command) <==> RunsCommand(g, command);
    GroupIsCommandGroup(command);
  }

  lemma {:induction false} InjectEventGet(hooks: seq<Entry>, event: string, command: string, k: string)
    requires Unique(hooks) && InjectEvent(hooks, event, command).Ok?
    ensures var hooks' := InjectEvent(hooks, event, command).value;
      Unique(hooks') && Get(hooks', k) == if k == event then Some(Array(WithGroup(GroupsOf(hooks, event), command))) else Get(hooks, k)
  {
    var v := Array(WithGroup(GroupsOf(hooks, event), command));
    assert [] + [Group(command)] == [Group(command)];
    assert InjectEvent(hooks, event, command).value == Put(hooks, event, v);
    PutUnique(hooks, event, v);
    PutGet(hooks, event, v, k);
  }

  ghost predicate AllDifferent(events: seq<string>) {
    forall i, j :: 0 <= i < j < |events| ==> events[i] != events[j]
  }

  lemma {:induction false} InjectEventsGet(hooks: seq<Entry>, events: seq<string>, command: string, k: string)
    requires Unique(hooks) && AllDifferent(events) && InjectEvents(hooks, events, command).Ok?
    ensures Get(InjectEvents(hooks, events, command).value, k) ==
      if k in events then Some(Array(WithGroup(GroupsOf(hooks, k), command))) else Get(hooks, k)
    decreases |events|
  {
    if events == [] {
    } else {
      var event, rest := events[0], events[1..];
      var hooks' := InjectEvent(hooks, event, command).value;
      InjectEventGet(hooks, event, command, k);
      InHeadOrTail(events, k);
      InjectEventsGet(hooks', rest, command, k);
    }
  }

  lemma {:induction false} InHeadOrTail(events: seq<string>, k: string)
    requires AllDifferent(events) && events != []
    ensures k in events <==> k == events[0] || k in events[1..]
    ensures AllDifferent(events[1..]) && events[0] !in events[1..]
  {
    assert events == [events[0]] + events[1..];
  }

  function HooksIn(settings: seq<Entry>): seq<Entry> {
    match Get(settings, "hooks")
    case Some(Object(o)) => o
    case _ => []
  }

  /** The groups of the three events grow as `Appended` says, and every other
      event keeps its value. */
  predicate Written(before: seq<Entry>, after: seq<Entry>, event: string, command: string) {
    if WiredEvent(event) then
      match Get(after, event) {
        case Some(Array(items)) => Appended(GroupsOf(before, event), items, command)
        case _ => false
      }
    else Get(after, event) == Get(before, event)
  }

  lemma {:induction false} EventsWritten(before: seq<Entry>, event: string, command: string)
    requires Unique(before) && InjectEvents(before, EVENTS, command).Ok?
    ensures Written(before, InjectEvents(before, EVENTS, command).value, event, command)
  {
    EventsAre(event);
    InjectEventsGet(before, EVENTS, command, event);
    WithGroupAppends(GroupsOf(before, event), command);
  }

  lemma {:induction false} InjectIsPut(settings: seq<Entry>, command: string)
    requires WellKeyed(settings) && Inject(settings, command).Ok?
    ensures Unique(settings) && Unique(HooksIn(settings)) && InjectEvents(HooksIn(settings), EVENTS, command).Ok?
    ensures Inject(settings, command).value ==
      Put(settings, "hooks", Object(InjectEvents(HooksIn(settings), EVENTS, command).value))
  {
  }

  /** What injecting writes, key by key: every settings key but `hooks` keeps its
      value, and the events are as `Written` says. */
  lemma {:induction false} InjectWrites(settings: seq<Entry>, command: string, key: string, event: string)
    requires WellKeyed(settings) && Inject(settings, command).Ok?
    ensures var injected := Inject(settings, command).value;
      && (key != "hooks" ==> Get(injected, key) == Get(settings, key))
      && match Get(injected, "hooks") {
           case Some(Object(after)) => Written(HooksIn(settings), after, event, command)
           case _ => false
         }
  {
    InjectIsPut(settings, command);
    var hooks := InjectEvents(HooksIn(settings), EVENTS, command).value;
    PutGet(settings, "hooks", Object(hooks), key);
    PutGet(settings, "hooks", Object(hooks), "hooks");
    EventsWritten(HooksIn(settings), event, command);
  }

  function Keys(m: seq<Entry>): (ks: seq<string>)
    ensures |ks| == |m| && forall i :: 0 <= i < |m| ==> ks[i] == m[i].key
  {
    seq(|m|, i requires 0 <= i < |m| => m[i].key)
  }

  /** A key that is not there yet. */
  function NewKey(hooks: seq<Entry>, event: string): seq<string> {
    if Get(hooks, event).None? then [event] else []
  }

  lemma {:induction false} InjectEventKeys(hooks: seq<Entry>, event: string, command: string)
    requires Unique(hooks) && InjectEvent(hooks, event, command).Ok?
    ensures var hooks' := InjectEvent(hooks, event, command).value; Unique(hooks') && Keys(hooks') == Keys(hooks) + NewKey(hooks, event)
  {
    InjectEventGet(hooks, event, command, event);
  }

  lemma {:induction false} EventByEvent(hooks: seq<Entry>, command: string)
    requires InjectEvents(hooks, EVENTS, command).Ok?
    ensures InjectEvent(hooks, "UserPromptSubmit", command).Ok?
    ensures var h1 := InjectEvent(hooks, "UserPromptSubmit", command).value;
      && InjectEvent(h1, "Stop", command).Ok?
      && InjectEvents(hooks, EVENTS, command) == InjectEvent(InjectEvent(h1, "Stop", command).value, "SessionEnd", command)
  {
    var u, s, e := "UserPromptSubmit", "Stop", "SessionEnd";
    assert EVENTS[0] == u && EVENTS[1..][0] == s && EVENTS[1..][1..][0] == e && EVENTS[1..][1..][1..] == [];
    var h1 := InjectEvent(hooks, u, command).value;
    assert InjectEvents(hooks, EVENTS, command) == InjectEvents(h1, EVENTS[1..], command);
    var h2 := InjectEvent(h1, s, command).value;
    assert InjectEvents(h1, EVENTS[1..], command) == InjectEvents(h2, EVENTS[1..][1..], command);
    var h3 := InjectEvent(h2, e, command);
    assert InjectEvents(h2, EVENTS[1..][1..], command) == InjectEvents(h3.value, [], command) == h3;
  }

  lemma {:induction false} NewKeyKept(hooks: seq<Entry>, event: string, command: string, other: string)
    requires Unique(hooks) && InjectEvent(hooks, event, command).Ok? && other != event
    ensures NewKey(InjectEvent(hooks, event, command).value, other) == NewKey(hooks, other)
  {
    InjectEventGet(hooks, event, command, other);
  }

  lemma {:induction false} ThreeKeys(hooks: seq<Entry>, u: string, s: string, e: string, command: string)
    requires Unique(hooks) && u != s && s != e && e != u
    requires InjectEvent(hooks, u, command).Ok? && InjectEvent(InjectEvent(hooks, u, command).value, s, command).Ok?
    ensures var h2 := InjectEvent(InjectEvent(hooks, u, command).value, s, command).value;
      InjectEvent(h2, e, command).Ok? ==>
        Keys(InjectEvent(h2, e, command).value) == Keys(hooks) + (NewKey(hooks, u) + NewKey(hooks, s) + NewKey(hooks, e))
  {
    var h1 := InjectEvent(hooks, u, command).value;
    InjectEventKeys(hooks, u, command);
    NewKeyKept(hooks, u, command, s);
    NewKeyKept(hooks, u, command, e);
    var h2 := InjectEvent(h1, s, command).value;
    InjectEventKeys(h1, s, command);
    NewKeyKept(h1, s, command, e);
    if InjectEvent(h2, e, command).Ok? {
      InjectEventKeys(h2, e, command);
      JoinThree(Keys(hooks), NewKey(hooks, u), NewKey(hooks, s), NewKey(hooks, e));
    }
  }

  lemma {:induction false} JoinThree(k: seq<string>, a: seq<string>, b: seq<string>, c: seq<string>)
    ensures ((k + a) + b) + c == k + (a + b + c)
  {
  }

  /** Missing events are appended behind all other keys, in the order
      `UserPromptSubmit`, `Stop`, `SessionEnd`. */
  lemma {:induction false} InjectKeys(hooks: seq<Entry>, command: string)
    requires Unique(hooks) && InjectEvents(hooks, EVENTS, command).Ok?
    ensures Keys(InjectEvents(hooks, EVENTS, command).value) ==
      Keys(hooks) + (NewKey(hooks, "UserPromptSubmit") + NewKey(hooks, "Stop") + NewKey(hooks, "SessionEnd"))
  {
    EventByEvent(hooks, command);
    ThreeKeys(hooks, "UserPromptSubmit", "Stop", "SessionEnd", command);
  }

  // ---------------------------------------------------- what counts as spnr's own

  /** The bare name, or any path that ends in it. */
  lemma {:induction false} SpnrCommandIs(command: string)
    ensures IsSpnrHookCommand(command) <==> command == "spnr-hook" || exists path: string :: command == path + "/spnr-hook"
  {
    var suffix := "/spnr-hook";
    if |command| >= |suffix| && command[|command| - |suffix|..] == suffix {
      var path := command[..|command| - |suffix|];
      assert command == path + "/spnr-hook";
    }
  }

  /** A group is spnr's if and only if one of its hooks runs spnr. */
  lemma {:induction false} SpnrGroupIs(group: Value)
    ensures IsSpnrGroup(group) <==> exists command: string :: IsSpnrHookCommand(command) && RunsCommand(group, command)
  {
    if h :| h in HooksOf(group) && IsSpnrHook(h) {
      var command := Field(h, "command").value.s;
      assert RunsCommand(group, command);
    }
    if command: string :| IsSpnrHookCommand(command) && RunsCommand(group, command) {
      var h :| h in HooksOf(group) && Field(h, "command") == Some(Str(command));
      assert IsSpnrHook(h);
    }
  }

  /** An old group under the bare name goes too. */
  lemma {:induction false} BareNameRemoved(group: Value)
    requires RunsCommand(group, "spnr-hook")
    ensures Keep([group]) == []
  {
    SpnrGroupIs(group);
    assert AllSpnr([group]);
    KeepNone([group]);
  }
}
