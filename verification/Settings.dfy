/** Merging the hook groups into `settings.json` and taking them out again
    (crates/spnr-settings/src/lib.rs). A JSON object keeps its keys in order:
    inserting a new key appends it, removing one moves the last entry into the
    gap, as serde_json's order-preserving map does. */
module Settings {
  import opened Basics

  datatype Value =
    | Null
    | Bool(b: bool)
    | Number(text: string)
    | Str(s: string)
    | Array(items: seq<Value>)
    | Object(entries: seq<Entry>)

  datatype Entry = Entry(key: string, value: Value)

  // ------------------------------------------------------- the ordered object

  ghost predicate Unique(m: seq<Entry>) {
    forall i, j :: 0 <= i < j < |m| ==> m[i].key != m[j].key
  }

  function Find(m: seq<Entry>, key: string): (at: Option<nat>)
    ensures at.Some? ==> at.value < |m| && m[at.value].key == key
    ensures at.None? ==> forall i :: 0 <= i < |m| ==> m[i].key != key
  {
    if m == [] then None
    else if m[|m| - 1].key == key then Some(|m| - 1)
    else Find(m[..|m| - 1], key)
  }

  function Get(m: seq<Entry>, key: string): Option<Value> {
    match Find(m, key)
    case None => None
    case Some(i) => Some(m[i].value)
  }

  function Put(m: seq<Entry>, key: string, v: Value): seq<Entry> {
    match Find(m, key)
    case None => m + [Entry(key, v)]
    case Some(i) => m[i := Entry(key, v)]
  }

  /** Removes the entry; the last one takes its place. */
  function SwapRemove(m: seq<Entry>, key: string): seq<Entry> {
    match Find(m, key)
    case None => m
    case Some(i) => if i == |m| - 1 then m[..i] else m[i := m[|m| - 1]][..|m| - 1]
  }

  lemma {:induction false} FindUnique(m: seq<Entry>, i: nat)
    requires Unique(m) && i < |m|
    ensures Find(m, m[i].key) == Some(i)
  {
    assert Find(m, m[i].key).Some?;
  }

  lemma {:induction false} PutUnique(m: seq<Entry>, key: string, v: Value)
    requires Unique(m)
    ensures Unique(Put(m, key, v))
  {
  }

  lemma {:induction false} PutGet(m: seq<Entry>, key: string, v: Value, k: string)
    requires Unique(m)
    ensures Get(Put(m, key, v), k) == if k == key then Some(v) else Get(m, k)
  {
    var m', at := Put(m, key, v), Find(m, k);
    PutUnique(m, key, v);
    if at.Some? {
      FindUnique(m', at.value);
    } else if k == key {
      FindUnique(m', |m|);
    }
  }

  lemma {:induction false} SwapRemoveUnique(m: seq<Entry>, key: string)
    requires Unique(m)
    ensures Unique(SwapRemove(m, key))
    ensures forall e :: e in SwapRemove(m, key) ==> e in m && e.key != key
  {
  }

  lemma {:induction false} SwapRemoveGet(m: seq<Entry>, key: string, k: string)
    requires Unique(m)
    ensures Get(SwapRemove(m, key), k) == if k == key then None else Get(m, k)
  {
    var m', at, gap := SwapRemove(m, key), Find(m, k), Find(m, key);
    SwapRemoveUnique(m, key);
    if gap.Some? && k != key && at.Some? {
      FindUnique(m', if at.value == |m| - 1 then gap.value else at.value);
    } else if Find(m', k).Some? {
      assert m'[Find(m', k).value] in m';
    }
  }

  // --------------------------------------------------------------- hook groups

  const EVENTS: seq<string> := ["UserPromptSubmit", "Stop", "SessionEnd"]

  function Field(v: Value, key: string): Option<Value> {
    if v.Object? then Get(v.entries, key) else None
  }

  /** The matcher-group appended for each event. */
  function Group(command: string): Value {
    Object([Entry("matcher", Str("")),
            Entry("hooks", Array([Object([Entry("type", Str("command")), Entry("command", Str(command))])]))])
  }

  /** The hooks of a group; anything of another shape has none. */
  function HooksOf(group: Value): seq<Value> {
    match Field(group, "hooks")
    case Some(Array(hooks)) => hooks
    case _ => []
  }

  predicate HasExactCommand(group: Value, command: string) {
    exists h :: h in HooksOf(group) && Field(h, "command") == Some(Str(command))
  }

  predicate IsSpnrHookCommand(command: string) {
    var suffix := "/spnr-hook";
    command == "spnr-hook" || (|command| >= |suffix| && command[|command| - |suffix|..] == suffix)
  }

  predicate IsSpnrHook(h: Value) {
    match Field(h, "command")
    case Some(Str(command)) => IsSpnrHookCommand(command)
    case _ => false
  }

  predicate IsSpnrGroup(group: Value) {
    exists h :: h in HooksOf(group) && IsSpnrHook(h)
  }

  lemma {:induction false} GroupHasCommand(command: string)
    ensures HasExactCommand(Group(command), command)
    ensures IsSpnrHookCommand(command) ==> IsSpnrGroup(Group(command))
  {
    var g := Group(command);
    var h := Object([Entry("type", Str("command")), Entry("command", Str(command))]);
    assert Find(g.entries, "hooks") == Some(1);
    assert h in HooksOf(g);
    assert Find(h.entries, "command") == Some(1);
  }

  // ------------------------------------------------------------------- inject

  datatype Drift = HooksNotObject | EventNotArray(event: string)

  predicate Installed(items: seq<Value>, command: string) {
    exists g :: g in items && HasExactCommand(g, command)
  }

  function WithGroup(items: seq<Value>, command: string): (items': seq<Value>) {
    if Installed(items, command) then items else items + [Group(command)]
  }

  function InjectEvent(hooks: seq<Entry>, event: string, command: string): Result<seq<Entry>, Drift> {
    match Get(hooks, event)
    case None => Ok(hooks + [Entry(event, Array([Group(command)]))])
    case Some(Array(items)) => Ok(Put(hooks, event, Array(WithGroup(items, command))))
    case _ => Err(EventNotArray(event))
  }

  function InjectEvents(hooks: seq<Entry>, events: seq<string>, command: string): Result<seq<Entry>, Drift>
    decreases |events|
  {
    if events == [] then Ok(hooks)
    else
      match InjectEvent(hooks, events[0], command)
      case Ok(hooks') => InjectEvents(hooks', events[1..], command)
      case Err(d) => Err(d)
  }

  function Inject(settings: seq<Entry>, command: string): Result<seq<Entry>, Drift> {
    match Get(settings, "hooks")
    case None =>
      (match InjectEvents([], EVENTS, command)
       case Ok(hooks) => Ok(settings + [Entry("hooks", Object(hooks))])
       case Err(d) => Err(d))
    case Some(Object(o)) =>
      (match InjectEvents(o, EVENTS, command)
       case Ok(hooks) => Ok(Put(settings, "hooks", Object(hooks)))
       case Err(d) => Err(d))
    case _ => Err(HooksNotObject)
  }

  // ------------------------------------------------------------------- remove

  /** The groups that stay, in order. */
  function Keep(items: seq<Value>): (kept: seq<Value>)
    ensures |kept| <= |items|
    ensures forall g :: g in kept ==> g in items && !IsSpnrGroup(g)
  {
    if items == [] then []
    else Keep(items[..|items| - 1]) + (if IsSpnrGroup(items[|items| - 1]) then [] else [items[|items| - 1]])
  }

  function CleanedEntry(e: Entry): Entry {
    if e.key in EVENTS && e.value.Array? then Entry(e.key, Array(Keep(e.value.items))) else e
  }

  function Cleaned(hooks: seq<Entry>): (hooks': seq<Entry>)
    ensures |hooks'| == |hooks| && forall i :: 0 <= i < |hooks| ==> hooks'[i] == CleanedEntry(hooks[i])
  {
    seq(|hooks|, i requires 0 <= i < |hooks| => CleanedEntry(hooks[i]))
  }

  function Prune(hooks: seq<Entry>, events: seq<string>): seq<Entry>
    decreases |events|
  {
    if events == [] then hooks
    else
      var hooks' := if Get(hooks, events[0]) == Some(Array([])) then SwapRemove(hooks, events[0]) else hooks;
      Prune(hooks', events[1..])
  }

  function Remove(settings: seq<Entry>): seq<Entry> {
    match Get(settings, "hooks")
    case Some(Object(o)) =>
      var hooks := Prune(Cleaned(o), EVENTS);
      if hooks == [] then SwapRemove(settings, "hooks") else Put(settings, "hooks", Object(hooks))
    case _ => settings
  }

  /** Keys are distinct in the settings and in their hooks object. */
  ghost predicate WellKeyed(settings: seq<Entry>) {
    Unique(settings) && match Get(settings, "hooks") { case Some(Object(o)) => Unique(o) case _ => true }
  }

  // ------------------------------------------------------- the two operations

  method AnyWithCommand(items: seq<Value>, command: string) returns (found: bool)
    ensures found == Installed(items, command)
  {
    found := false;
    for i := 0 to |items|
      invariant found == exists g :: g in items[..i] && HasExactCommand(g, command)
    {
      assert items[..i + 1] == items[..i] + [items[i]];
      if HasExactCommand(items[i], command) {
        found := true;
      }
    }
    assert items[..|items|] == items;
  }

  /** `inject_hooks` on the parsed settings: the object to write, or a refusal. */
  method InjectHooks(settings: seq<Entry>, command: string) returns (r: Result<seq<Entry>, Drift>)
    requires WellKeyed(settings)
    ensures r == Inject(settings, command)
  {
    var hooks: seq<Entry> := [];
    var entry := Get(settings, "hooks");
    if entry.Some? {
      if !entry.value.Object? {
        return Err(HooksNotObject);
      }
      hooks := entry.value.entries;
    }
    ghost var target := InjectEvents(hooks, EVENTS, command);
    for k := 0 to |EVENTS|
      invariant target == InjectEvents(hooks, EVENTS[k..], command)
    {
      var event := EVENTS[k];
      assert EVENTS[k..][1..] == EVENTS[k + 1..];
      var slot := Get(hooks, event);
      if slot.None? {
        slot := Some(Array([]));
        hooks := hooks + [Entry(event, Array([Group(command)]))];
      } else if slot.value.Array? {
        var items := slot.value.items;
        var found := AnyWithCommand(items, command);
        if !found {
          items := items + [Group(command)];
        }
        hooks := Put(hooks, event, Array(items));
      } else {
        return Err(EventNotArray(event));
      }
    }
    return Ok(if entry.None? then settings + [Entry("hooks", Object(hooks))] else Put(settings, "hooks", Object(hooks)));
  }

  /** `Vec::retain` with the group test. */
  method Retain(items: seq<Value>) returns (kept: seq<Value>)
    ensures kept == Keep(items)
  {
    kept := [];
    for i := 0 to |items|
      invariant kept == Keep(items[..i])
    {
      assert items[..i + 1][..i] == items[..i];
      if !IsSpnrGroup(items[i]) {
        kept := kept + [items[i]];
      }
    }
    assert items[..|items|] == items;
  }

  /** The first loop of `remove_hooks`: event by event, in place. */
  method RetainEach(hooks: seq<Entry>) returns (cleaned: seq<Entry>)
    requires Unique(hooks)
    ensures cleaned == Cleaned(hooks)
  {
    cleaned := hooks;
    for k := 0 to |EVENTS|
      invariant |cleaned| == |hooks|
      invariant forall i :: 0 <= i < |hooks| ==>
        cleaned[i] == if hooks[i].key in EVENTS[..k] then CleanedEntry(hooks[i]) else hooks[i]
    {
      var event := EVENTS[k];
      assert EVENTS[..k + 1] == EVENTS[..k] + [event];
      assert event !in EVENTS[..k];
      var at := Find(cleaned, event);
      if at.Some? && cleaned[at.value].value.Array? {
        var kept := Retain(cleaned[at.value].value.items);
        cleaned := cleaned[at.value := Entry(event, Array(kept))];
      }
    }
    assert EVENTS[..|EVENTS|] == EVENTS;
  }

  /** `remove_hooks` on the parsed settings. */
  method RemoveHooks(settings: seq<Entry>) returns (settings': seq<Entry>)
    requires WellKeyed(settings)
    ensures settings' == Remove(settings)
  {
    var entry := Get(settings, "hooks");
    if entry.None? || !entry.value.Object? {
      return settings;
    }
    var hooks := RetainEach(entry.value.entries);
    ghost var target := Prune(hooks, EVENTS);
    for k := 0 to |EVENTS|
      invariant target == Prune(hooks, EVENTS[k..])
    {
      assert EVENTS[k..][1..] == EVENTS[k + 1..];
      if Get(hooks, EVENTS[k]) == Some(Array([])) {
        hooks := SwapRemove(hooks, EVENTS[k]);
      }
    }
    if hooks == [] {
      settings' := SwapRemove(settings, "hooks");
    } else {
      settings' := Put(settings, "hooks", Object(hooks));
    }
  }
}
