/** The coalescing queue of glib-2.56.1/gio/gactiongroupexporter.c, and a remote mirror that follows its Changed
    signals. */
module Exporter {

  datatype Option<T> = None | Some(value: T)

  type Name = string
  type Variant = string // a serialised GVariant

  /** What g_action_group_describe_action reports. */
  datatype Action = Action(enabled: bool, parameterType: string, state: Option<Variant>)

  type Group = map<Name, Action>

  const ADDED: bv32 := 1
  const REMOVED: bv32 := 2
  const STATE_CHANGED: bv32 := 4
  const ENABLED_CHANGED: bv32 := 8

  // ---------- the Changed signal and its receiver ----------

  datatype Changed = Changed(removals: seq<Name>, enabled: seq<(Name, bool)>, states: seq<(Name, Variant)>,
    additions: seq<(Name, Action)>)

  function Remove(m: Group, r: seq<Name>): Group {
    if r == [] then m else Remove(m, r[..|r| - 1]) - {r[|r| - 1]}
  }

  function Enable(m: Group, c: seq<(Name, bool)>): Group {
    if c == [] then m
    else
      var m', (n, b) := Enable(m, c[..|c| - 1]), c[|c| - 1];
      if n in m' then m'[n := m'[n].(enabled := b)] else m'
  }

  function SetStates(m: Group, c: seq<(Name, Variant)>): Group {
    if c == [] then m
    else
      var m', (n, v) := SetStates(m, c[..|c| - 1]), c[|c| - 1];
      if n in m' then m'[n := m'[n].(state := Some(v))] else m'
  }

  function Add(m: Group, c: seq<(Name, Action)>): Group {
    if c == [] then m else Add(m, c[..|c| - 1])[c[|c| - 1].0 := c[|c| - 1].1]
  }

  /** Removals, then changes, then additions. */
  function Receive(m: Group, c: Changed): Group {
    Add(SetStates(Enable(Remove(m, c.removals), c.enabled), c.states), c.additions)
  }

  function ReceiveAll(m: Group, cs: seq<Changed>): Group {
    if cs == [] then m else Receive(ReceiveAll(m, cs[..|cs| - 1]), cs[|cs| - 1])
  }

  lemma ReceiveMore(m: Group, cs: seq<Changed>, c: Changed)
    ensures ReceiveAll(m, cs + [c]) == Receive(ReceiveAll(m, cs), c)
  {
    assert (cs + [c])[..|cs|] == cs;
  }

  // ---------- what each part does to one name ----------

  function At(m: Group, n: Name): Option<Action> { if n in m then Some(m[n]) else None }

  lemma {:induction false} RemoveAt(m: Group, r: seq<Name>, n: Name)
    ensures At(Remove(m, r), n) == if n in r then None else At(m, n)
  {
    if r != [] {
      RemoveAt(m, r[..|r| - 1], n);
      assert r == r[..|r| - 1] + [r[|r| - 1]];
    }
  }

  /** The names that occur in a list of changes. */
  ghost function NamesOf<T>(c: seq<(Name, T)>): set<Name> { set i | 0 <= i < |c| :: c[i].0 }

  ghost predicate EnabledFrom(c: seq<(Name, bool)>, g: Group) {
    forall i :: 0 <= i < |c| ==> c[i].0 in g && c[i].1 == g[c[i].0].enabled
  }

  ghost predicate StatesFrom(c: seq<(Name, Variant)>, g: Group) {
    forall i :: 0 <= i < |c| ==> c[i].0 in g && g[c[i].0].state == Some(c[i].1)
  }

  ghost predicate AddedFrom(c: seq<(Name, Action)>, g: Group) {
    forall i :: 0 <= i < |c| ==> c[i].0 in g && c[i].1 == g[c[i].0]
  }

  lemma NamesLast<T>(c: seq<(Name, T)>)
    requires c != []
    ensures NamesOf(c) == NamesOf(c[..|c| - 1]) + {c[|c| - 1].0}
  {
    var d := c[..|c| - 1];
    forall n | n in NamesOf(c) ensures n in NamesOf(d) + {c[|c| - 1].0} {
      var i :| 0 <= i < |c| && c[i].0 == n;
      if i < |d| { assert d[i].0 == n; }
    }
    forall n | n in NamesOf(d) ensures n in NamesOf(c) {
      var i :| 0 <= i < |d| && d[i].0 == n;
      assert c[i].0 == n;
    }
    assert c[|c| - 1].0 in NamesOf(c);
  }

  lemma {:induction false} EnableAt(m: Group, c: seq<(Name, bool)>, g: Group, n: Name)
    requires EnabledFrom(c, g)
    ensures At(Enable(m, c), n) ==
      if n in NamesOf(c) && n in m && n in g then Some(m[n].(enabled := g[n].enabled)) else At(m, n)
  {
    if c != [] {
      EnableAt(m, c[..|c| - 1], g, n);
      NamesLast(c);
    }
  }

  lemma {:induction false} SetStatesAt(m: Group, c: seq<(Name, Variant)>, g: Group, n: Name)
    requires StatesFrom(c, g)
    ensures At(SetStates(m, c), n) ==
      if n in NamesOf(c) && n in m && n in g then Some(m[n].(state := g[n].state)) else At(m, n)
  {
    if c != [] {
      SetStatesAt(m, c[..|c| - 1], g, n);
      NamesLast(c);
    }
  }

  lemma {:induction false} AddAt(m: Group, c: seq<(Name, Action)>, g: Group, n: Name)
    requires AddedFrom(c, g)
    ensures At(Add(m, c), n) == if n in NamesOf(c) then At(g, n) else At(m, n)
  {
    if c != [] {
      AddAt(m, c[..|c| - 1], g, n);
      NamesLast(c);
    }
  }

  // ---------- what a mask stands for ----------

  type Masks = map<Name, bv32>

  function MaskAt(p: Masks, n: Name): bv32 { if n in p then p[n] else 0 }

  /** The mask of a name accounts for the difference between the mirror and the group. */
  ghost predicate Accounts(mask: bv32, then_: Option<Action>, now: Option<Action>) {
    || (mask == 0 && then_ == now)
    || (mask == ADDED && then_.None? && now.Some?)
    || (mask == REMOVED && then_.Some? && now.None?)
    || (mask == 3 && then_.Some? && now.Some?)
    || (mask in {4, 8, 12} && then_.Some? && now.Some? && Differ(then_.value, now.value, mask != 8, mask != 4))
  }

  /** `b` is `a` with possibly another state and another enabled flag. */
  ghost predicate Differ(a: Action, b: Action, state: bool, enabled: bool) {
    && a.parameterType == b.parameterType
    && (if state then b.state.Some? else a.state == b.state)
    && (enabled || a.enabled == b.enabled)
  }

  /** Only six masks ever wait, and each accounts for its name. */
  ghost predicate Waiting(p: Masks, mirror: Group, g: Group) {
    && (forall n :: n in p ==> p[n] != 0)
    && (forall n :: Accounts(MaskAt(p, n), At(mirror, n), At(g, n)))
  }

  /** What the lists of a Changed signal hold for the names in `done`. */
  ghost predicate Collected(c: Changed, p: Masks, g: Group, done: set<Name>) {
    && EnabledFrom(c.enabled, g) && StatesFrom(c.states, g) && AddedFrom(c.additions, g)
    && (forall n :: n in c.removals <==> n in done && n in p && p[n] in {2, 3})
    && (forall n :: n in NamesOf(c.enabled) <==> n in done && n in p && p[n] in {8, 12})
    && (forall n :: n in NamesOf(c.states) <==> n in done && n in p && p[n] in {4, 12})
    && (forall n :: n in NamesOf(c.additions) <==> n in done && n in p && p[n] in {1, 3})
  }

  /** A signal collected from all that waits takes the mirror to the group. */
  lemma Converges(c: Changed, p: Masks, mirror: Group, g: Group)
    requires Waiting(p, mirror, g) && Collected(c, p, g, p.Keys)
    ensures Receive(mirror, c) == g
  {
    hide Remove, Enable, SetStates, Add, Waiting, Collected;
    forall n ensures At(Receive(mirror, c), n) == At(g, n) { ConvergesAt(c, p, mirror, g, n); }
    SameMaps(Receive(mirror, c), g);
  }

  lemma SameMaps(a: Group, b: Group)
    requires forall n :: At(a, n) == At(b, n)
    ensures a == b
  {
    forall n ensures n in a <==> n in b { assert At(a, n) == At(b, n); }
    forall n | n in a ensures a[n] == b[n] { assert At(a, n) == At(b, n); }
  }

  lemma ConvergesAt(c: Changed, p: Masks, mirror: Group, g: Group, n: Name)
    requires Waiting(p, mirror, g) && Collected(c, p, g, p.Keys)
    ensures At(Receive(mirror, c), n) == At(g, n)
  {
    hide Remove, Enable, SetStates, Add, EnabledFrom, StatesFrom, AddedFrom, NamesOf;
    var m1 := Remove(mirror, c.removals);
    var m2 := Enable(m1, c.enabled);
    var m3 := SetStates(m2, c.states);
    RemoveAt(mirror, c.removals, n);
    EnableAt(m1, c.enabled, g, n);
    SetStatesAt(m2, c.states, g, n);
    AddAt(m3, c.additions, g, n);
    assert Accounts(MaskAt(p, n), At(mirror, n), At(g, n));
  }

  // ---------- the exporter ----------

  predicate Bit(mask: bv32, bit: bv32) { mask & bit != 0 }

  function Clear(mask: bv32, bits: bv32): bv32 { mask & !bits }

  function With(mask: bv32, bits: bv32): bv32 { mask | bits }

  /** One signal at a name, and what it leaves of the mask. */
  datatype Signal = ActionAdded(name: Name, action: Action) | ActionRemoved(name: Name)
    | StateChanged(name: Name, state: Variant) | EnabledChanged(name: Name, enabled: bool)

  /** What a group may signal: it adds what it has not, removes and changes what it has, and only a stateful action
      changes state. */
  predicate Legal(g: Group, s: Signal) {
    match s
    case ActionAdded(n, _) => n !in g
    case ActionRemoved(n) => n in g
    case StateChanged(n, _) => n in g && g[n].state.Some?
    case EnabledChanged(n, _) => n in g
  }

  function Next(g: Group, s: Signal): Group
    requires Legal(g, s)
  {
    match s
    case ActionAdded(n, a) => g[n := a]
    case ActionRemoved(n) => g - {n}
    case StateChanged(n, v) => g[n := g[n].(state := Some(v))]
    case EnabledChanged(n, b) => g[n := g[n].(enabled := b)]
  }

  /** The mask a handler computes. */
  function Coalesce(mask: bv32, s: Signal): bv32 {
    match s
    case ActionAdded(_, _) => With(mask, ADDED)
    case ActionRemoved(_) =>
      if Bit(mask, ADDED) then Clear(mask, ADDED) else Clear(With(mask, REMOVED), STATE_CHANGED | ENABLED_CHANGED)
    case StateChanged(_, _) => if Bit(mask, ADDED) then mask else With(mask, STATE_CHANGED)
    case EnabledChanged(_, _) => if Bit(mask, ADDED) then mask else With(mask, ENABLED_CHANGED)
  }

  lemma CoalesceAccounts(mask: bv32, mirror: Group, g: Group, s: Signal)
    requires Legal(g, s) && Accounts(mask, At(mirror, s.name), At(g, s.name))
    ensures Accounts(Coalesce(mask, s), At(mirror, s.name), At(Next(g, s), s.name))
  {
  }

  /** The table after set_events. */
  function WithMask(p: Masks, n: Name, mask: bv32): Masks {
    if mask != 0 then p[n := mask] else p - {n}
  }

  lemma CoalesceKeeps(p: Masks, mirror: Group, g: Group, s: Signal)
    requires Waiting(p, mirror, g) && Legal(g, s)
    ensures Waiting(WithMask(p, s.name, Coalesce(MaskAt(p, s.name), s)), mirror, Next(g, s))
  {
    hide Coalesce, Accounts;
    var n := s.name;
    var p', g' := WithMask(p, n, Coalesce(MaskAt(p, n), s)), Next(g, s);
    assert Accounts(MaskAt(p, n), At(mirror, n), At(g, n));
    CoalesceAccounts(MaskAt(p, n), mirror, g, s);
    forall m ensures Accounts(MaskAt(p', m), At(mirror, m), At(g', m)) {
      assert Accounts(MaskAt(p, m), At(mirror, m), At(g, m));
    }
  }

  lemma StartsAccounted(p: Masks, g: Group)
    requires p == map[]
    ensures Waiting(p, g, g)
  {
  }

  class ActionGroupExporter {
    var group: Group            // what action_group holds
    var pendingChanges: Masks
    var pendingSource: bool     // whether the idle source is queued
    var sent: seq<Changed>      // signals emitted on the connection
    ghost const first: Group    // the group when it was exported

    /** The group as a client that was right at first sees it. */
    ghost function Mirror(): Group
      reads this`sent
    {
      ReceiveAll(first, sent)
    }

    ghost predicate Valid()
      reads this
    {
      Waiting(pendingChanges, Mirror(), group) && (pendingSource <==> pendingChanges != map[])
    }

    /** g_dbus_connection_export_action_group */
    constructor (group: Group)
      ensures Valid() && this.group == group && first == group && Mirror() == group && sent == []
    {
      this.group, first := group, group;
      pendingChanges, pendingSource, sent := map[], false, [];
      StartsAccounted(map[], group);
    }

    /** g_action_group_exporter_get_events */
    method GetEvents(name: Name) returns (mask: bv32)
      ensures mask == MaskAt(pendingChanges, name)
    {
      mask := if name in pendingChanges then pendingChanges[name] else 0;
    }

    /** g_action_group_exporter_set_events */
    method SetEvents(name: Name, events: bv32)
      requires pendingSource <==> pendingChanges != map[]
      modifies this`pendingChanges, this`pendingSource
      ensures pendingChanges == WithMask(old(pendingChanges), name, events)
        && (pendingSource <==> pendingChanges != map[])
    {
      if events != 0 {
        pendingChanges := pendingChanges[name := events];
      } else {
        pendingChanges := pendingChanges - {name};
      }
      var haveEvents, isQueued := |pendingChanges| > 0, pendingSource;
      if haveEvents && !isQueued { pendingSource := true; }
      if !haveEvents && isQueued { pendingSource := false; }
    }

    /** g_action_group_exporter_action_added */
    method OnActionAdded(name: Name)
      requires pendingSource <==> pendingChanges != map[]
      requires MaskAt(pendingChanges, name) in {0, 2}
      modifies this`pendingChanges, this`pendingSource
      ensures forall a ::
        pendingChanges == WithMask(old(pendingChanges), name,
          Coalesce(old(MaskAt(pendingChanges, name)), ActionAdded(name, a)))
      ensures pendingSource <==> pendingChanges != map[]
    {
      var mask := GetEvents(name);
      assert !mask & (STATE_CHANGED | ENABLED_CHANGED) != 0;
      mask := With(mask, ADDED);
      SetEvents(name, mask);
    }

    /** g_action_group_exporter_action_removed */
    method OnActionRemoved(name: Name)
      requires pendingSource <==> pendingChanges != map[]
      requires MaskAt(pendingChanges, name) in {0, 1, 3, 4, 8, 12}
      modifies this`pendingChanges, this`pendingSource
      ensures pendingChanges ==
        WithMask(old(pendingChanges), name, Coalesce(old(MaskAt(pendingChanges, name)), ActionRemoved(name)))
      ensures pendingSource <==> pendingChanges != map[]
    {
      hide Clear, With, WithMask;
      var mask := GetEvents(name);
      if Bit(mask, ADDED) {
        assert !mask & !(STATE_CHANGED | ENABLED_CHANGED) != 0;
        assert !Bit(mask, STATE_CHANGED | ENABLED_CHANGED); // what that is meant to say
        mask := Clear(mask, ADDED);
      } else {
        mask := With(mask, REMOVED);
        mask := Clear(mask, STATE_CHANGED | ENABLED_CHANGED);
      }
      SetEvents(name, mask);
    }

    /** g_action_group_exporter_action_state_changed */
    method OnStateChanged(name: Name)
      requires pendingSource <==> pendingChanges != map[]
      requires MaskAt(pendingChanges, name) in {0, 1, 3, 4, 8, 12}
      modifies this`pendingChanges, this`pendingSource
      ensures forall v ::
        pendingChanges == WithMask(old(pendingChanges), name,
          Coalesce(old(MaskAt(pendingChanges, name)), StateChanged(name, v)))
      ensures pendingSource <==> pendingChanges != map[]
    {
      var mask := GetEvents(name);
      assert !mask & REMOVED != 0 || mask & ADDED != 0;
      if !Bit(mask, ADDED) { mask := With(mask, STATE_CHANGED); }
      SetEvents(name, mask);
    }

    /** g_action_group_exporter_action_enabled_changed */
    method OnEnabledChanged(name: Name)
      requires pendingSource <==> pendingChanges != map[]
      requires MaskAt(pendingChanges, name) in {0, 1, 3, 4, 8, 12}
      modifies this`pendingChanges, this`pendingSource
      ensures forall b ::
        pendingChanges == WithMask(old(pendingChanges), name,
          Coalesce(old(MaskAt(pendingChanges, name)), EnabledChanged(name, b)))
      ensures pendingSource <==> pendingChanges != map[]
    {
      var mask := GetEvents(name);
      assert !mask & REMOVED != 0 || mask & ADDED != 0;
      if !Bit(mask, ADDED) { mask := With(mask, ENABLED_CHANGED); }
      SetEvents(name, mask);
    }

    /** A signal of the action group reaches its handler. */
    method Handle(s: Signal)
      requires Valid() && Legal(group, s)
      modifies this`group, this`pendingChanges, this`pendingSource
      ensures Valid() && group == Next(old(group), s)
    {
      hide Coalesce, WithMask, Accounts, Differ, Waiting;
      MaskWhen(pendingChanges, Mirror(), group, s.name);
      CoalesceKeeps(pendingChanges, Mirror(), group, s);
      group := Next(group, s);
      match s {
        case ActionAdded(n, a) => OnActionAdded(n);
        case ActionRemoved(n) => OnActionRemoved(n);
        case StateChanged(n, v) => OnStateChanged(n);
        case EnabledChanged(n, b) => OnEnabledChanged(n);
      }
    }

    /** One turn of the loop in dispatch_events. */
    method Report(c: Changed, name: Name, ghost done: set<Name>) returns (c': Changed)
      requires Waiting(pendingChanges, Mirror(), group) && name in pendingChanges && name !in done
      requires Collected(c, pendingChanges, group, done)
      ensures Collected(c', pendingChanges, group, done + {name})
    {
      hide Waiting, Collected, EnabledFrom, StatesFrom, AddedFrom, NamesOf;
      Reachable(pendingChanges, Mirror(), group, name);
      var events := pendingChanges[name];
      assert (events & (ENABLED_CHANGED | STATE_CHANGED) == 0) != (events & (REMOVED | ADDED) == 0);
      c' := c;
      if Bit(events, REMOVED) { c' := c'.(removals := c'.removals + [name]); }
      if Bit(events, ENABLED_CHANGED) { c' := c'.(enabled := c'.enabled + [(name, group[name].enabled)]); }
      if Bit(events, STATE_CHANGED) { c' := c'.(states := c'.states + [(name, group[name].state.value)]); }
      if Bit(events, ADDED) { c' := c'.(additions := c'.additions + [(name, group[name])]); }
      CollectMore(c, c', pendingChanges, group, done, name);
    }

    /** g_action_group_exporter_dispatch_events */
    method DispatchEvents()
      requires Valid()
      modifies this`pendingChanges, this`pendingSource, this`sent
      ensures Valid() && Mirror() == group && pendingChanges == map[] && !pendingSource
      ensures |sent| == |old(sent)| + 1 && old(sent) < sent
    {
      hide Waiting, Collected, Receive;
      var c := Changed([], [], [], []);
      var todo := pendingChanges.Keys;
      ghost var done: set<Name> := {};
      CollectNone(pendingChanges, group);
      while todo != {}
        invariant pendingChanges == old(pendingChanges) && sent == old(sent)
        invariant todo + done == pendingChanges.Keys && todo !! done && Collected(c, pendingChanges, group, done)
        decreases todo
      {
        var name :| name in todo;
        c := Report(c, name, done);
        todo, done := todo - {name}, done + {name};
      }
      assert done == pendingChanges.Keys;
      Converges(c, pendingChanges, Mirror(), group);
      ReceiveMore(first, sent, c);
      pendingChanges := map[];
      sent := sent + [c];
      pendingSource := false;
      StartsAccounted(pendingChanges, group);
    }

    /** g_action_group_exporter_flush_queue */
    method FlushQueue()
      requires Valid()
      modifies this`pendingChanges, this`pendingSource, this`sent
      ensures Valid() && Mirror() == group && pendingChanges == map[] && !pendingSource
      ensures old(pendingSource) ==> |sent| == |old(sent)| + 1 && old(sent) < sent
      ensures !old(pendingSource) ==> sent == old(sent)
    {
      hide Waiting;
      if pendingSource {
        DispatchEvents();
        assert !pendingSource;
      } else {
        QuietMeansEqual(pendingChanges, Mirror(), group);
      }
    }
  }

  // ---------- whole runs ----------

  /** What happens to an exported group: it signals, the main loop runs the idle source if there is one, or a client
      calls a method, which flushes first. */
  datatype Step = Emit(signal: Signal) | Idle | Call

  predicate LegalRun(g: Group, steps: seq<Step>)
    decreases |steps|
  {
    steps == [] ||
      if steps[0].Emit? then Legal(g, steps[0].signal) && LegalRun(Next(g, steps[0].signal), steps[1..])
      else LegalRun(g, steps[1..])
  }

  function FinalGroup(g: Group, steps: seq<Step>): Group
    requires LegalRun(g, steps)
    decreases |steps|
  {
    if steps == [] then g
    else if steps[0].Emit? then FinalGroup(Next(g, steps[0].signal), steps[1..])
    else FinalGroup(g, steps[1..])
  }

  /** From export on, over any legal run, a client that applies the Changed signals it has received is right whenever
      a flush has just happened. */
  method Run(g: Group, steps: seq<Step>) returns (sent: seq<Changed>)
    requires LegalRun(g, steps)
    ensures ReceiveAll(g, sent) == FinalGroup(g, steps)
  {
    hide Legal, Next, ActionGroupExporter.Valid, Receive;
    var e := new ActionGroupExporter(g);
    var i := 0;
    while i < |steps|
      invariant 0 <= i <= |steps| && e.Valid() && e.first == g && fresh(e)
      invariant LegalRun(e.group, steps[i..]) && FinalGroup(e.group, steps[i..]) == FinalGroup(g, steps)
    {
      assert steps[i..][1..] == steps[i + 1..];
      match steps[i] {
        case Emit(s) => e.Handle(s);
        case Idle => e.FlushQueue(); // the source runs iff it is queued
        case Call => e.FlushQueue();
      }
      i := i + 1;
    }
    e.FlushQueue();
    sent := e.sent;
  }

  lemma Reachable(p: Masks, mirror: Group, g: Group, n: Name)
    requires Waiting(p, mirror, g) && n in p
    ensures p[n] in {1, 2, 3, 4, 8, 12}
    ensures p[n] != 2 ==> n in g && (p[n] in {4, 12} ==> g[n].state.Some?)
  {
    assert Accounts(MaskAt(p, n), At(mirror, n), At(g, n));
  }

  lemma MaskWhen(p: Masks, mirror: Group, g: Group, n: Name)
    requires Waiting(p, mirror, g)
    ensures MaskAt(p, n) in if n in g then {0, 1, 3, 4, 8, 12} else {0, 2}
  {
    assert Accounts(MaskAt(p, n), At(mirror, n), At(g, n));
  }

  lemma QuietMeansEqual(p: Masks, mirror: Group, g: Group)
    requires Waiting(p, mirror, g) && p == map[]
    ensures mirror == g
  {
    forall n ensures At(mirror, n) == At(g, n) { assert Accounts(MaskAt(p, n), At(mirror, n), At(g, n)); }
    SameMaps(mirror, g);
  }

  lemma CollectNone(p: Masks, g: Group)
    ensures Collected(Changed([], [], [], []), p, g, {})
  {
  }

  lemma NamesMore<T>(c: seq<(Name, T)>, e: (Name, T))
    ensures NamesOf(c + [e]) == NamesOf(c) + {e.0}
  {
    assert (c + [e])[..|c|] == c;
    NamesLast(c + [e]);
  }

  lemma CollectMore(c: Changed, c': Changed, p: Masks, g: Group, done: set<Name>, n: Name)
    requires Collected(c, p, g, done) && n in p && n !in done && p[n] in {1, 2, 3, 4, 8, 12}
    requires p[n] != 2 ==> n in g && (p[n] in {4, 12} ==> g[n].state.Some?)
    requires c'.removals == if p[n] in {2, 3} then c.removals + [n] else c.removals
    requires c'.enabled == if p[n] in {8, 12} then c.enabled + [(n, g[n].enabled)] else c.enabled
    requires c'.states == if p[n] in {4, 12} then c.states + [(n, g[n].state.value)] else c.states
    requires c'.additions == if p[n] in {1, 3} then c.additions + [(n, g[n])] else c.additions
    ensures Collected(c', p, g, done + {n})
  {
    hide NamesOf;
    if p[n] in {8, 12} { NamesMore(c.enabled, (n, g[n].enabled)); }
    if p[n] in {4, 12} { NamesMore(c.states, (n, g[n].state.value)); }
    if p[n] in {1, 3} { NamesMore(c.additions, (n, g[n])); }
  }
}
