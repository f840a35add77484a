/** What holds of the protocol registry after every run of operations. */
module RegistryRuns {
  import opened CText
  import opened RegistrySpec

  // ---------------------------------------------------------------- the table is an ordered map

  /** At most 16 dependencies with truncated names. */
  ghost predicate DepsFormed(ds: seq<Dependency>) {
    |ds| <= MAX_DEPS && forall j :: 0 <= j < |ds| ==> |ds[j].name| <= KEY_LENGTH
  }

  /** At most 32 entries with truncated, pairwise distinct names. */
  ghost predicate WellFormed(es: seq<Entry>) {
    && |es| <= MAX_ENTRIES
    && (forall i :: 0 <= i < |es| ==> |es[i].name| <= KEY_LENGTH && DepsFormed(es[i].deps))
    && forall i, j :: 0 <= i < j < |es| ==> es[i].name != es[j].name
  }

  /** Looking an entry up by its name finds that entry. */
  lemma GetAt(es: seq<Entry>, i: nat)
    requires WellFormed(es) && i < |es|
    ensures Has(es, es[i].name) && IndexOf(es, es[i].name) == i && Get(es, es[i].name) == es[i]
  {
    hide IndexOf;
  }

  /** The keys of the entries, in registration order. */
  function Names(es: seq<Entry>): (ns: seq<string>)
    ensures |ns| == |es| && forall i :: 0 <= i < |es| ==> ns[i] == es[i].name
  {
    seq(|es|, i requires 0 <= i < |es| => es[i].name)
  }

  /** The other keys, in their order. */
  function Without(ns: seq<string>, key: string): seq<string> {
    if ns == [] then []
    else if ns[0] == key then Without(ns[1..], key)
    else [ns[0]] + Without(ns[1..], key)
  }

  /** The key order after one operation: a new key goes last, a removed key leaves the others in order. */
  function NamesAfter(ns: seq<string>, op: Op): seq<string> {
    match op
    case Register(d) => if |ns| >= MAX_ENTRIES || Key(d.name) in ns then ns else ns + [Key(d.name)]
    case Builtin(d) => if |ns| >= MAX_ENTRIES || Key(d.name) in ns then ns else ns + [Key(d.name)]
    case Unregister(name) => Without(ns, Key(name))
    case _ => ns
  }

  function NamesRun(ops: seq<Op>): seq<string> {
    if ops == [] then [] else NamesAfter(NamesRun(ops[..|ops| - 1]), ops[|ops| - 1])
  }

  lemma {:induction false} WithoutAbsent(ns: seq<string>, key: string)
    requires key !in ns
    ensures Without(ns, key) == ns
  {
    if ns != [] {
      WithoutAbsent(ns[1..], key);
    }
  }

  lemma {:induction false} WithoutOne(ns: seq<string>, i: nat)
    requires i < |ns| && forall j :: 0 <= j < |ns| && j != i ==> ns[j] != ns[i]
    ensures Without(ns, ns[i]) == ns[..i] + ns[i + 1..]
  {
    if i == 0 {
      assert ns[i] !in ns[1..];
      WithoutAbsent(ns[1..], ns[i]);
    } else {
      assert ns[1..][i - 1] == ns[i];
      WithoutOne(ns[1..], i - 1);
      assert ns[1..][..i - 1] == ns[1..i] && ns[1..][i..] == ns[i + 1..];
      assert [ns[0]] + ns[1..i] == ns[..i];
    }
  }

  lemma HasIsMembership(es: seq<Entry>, key: string)
    ensures Has(es, key) <==> key in Names(es)
  {
    hide IndexOf;
    var i := IndexOf(es, key);
    assert i < |es| ==> Names(es)[i] == key;
    assert key in Names(es) ==> exists j :: 0 <= j < |es| && es[j].name == key;
  }

  lemma RegisterKeepsOrder(es: seq<Entry>, d: Definition)
    requires WellFormed(es)
    ensures WellFormed(DoRegister(es, d).entries)
    ensures Names(DoRegister(es, d).entries) == NamesAfter(Names(es), Register(d))
  {
    HasIsMembership(es, Key(d.name));
  }

  lemma RemovalKeepsOrder(es: seq<Entry>, i: nat)
    requires WellFormed(es) && i < |es|
    ensures WellFormed(es[..i] + es[i + 1..])
    ensures Names(es[..i] + es[i + 1..]) == Without(Names(es), es[i].name)
  {
    hide DepsFormed, Without;
    var es' := es[..i] + es[i + 1..];
    assert forall j :: 0 <= j < |es'| ==> es'[j] == es[if j < i then j else j + 1];
    WithoutOne(Names(es), i);
  }

  lemma UnregisterKeepsOrder(es: seq<Entry>, name: string)
    requires WellFormed(es)
    ensures WellFormed(DoUnregister(es, name).entries)
    ensures Names(DoUnregister(es, name).entries) == NamesAfter(Names(es), Unregister(name))
  {
    hide IndexOf, DepsFormed, Without;
    var i := IndexOf(es, Key(name));
    HasIsMembership(es, Key(name));
    if i == |es| {
      WithoutAbsent(Names(es), Key(name));
    } else {
      RemovalKeepsOrder(es, i);
    }
  }

  /** Replacing one entry by another of the same name changes no key. */
  lemma ReplaceKeepsOrder(es: seq<Entry>, i: nat, e: Entry)
    requires WellFormed(es) && i < |es| && e.name == es[i].name && DepsFormed(e.deps)
    ensures WellFormed(es[i := e]) && Names(es[i := e]) == Names(es)
  {
  }

  lemma SetStateKeepsOrder(es: seq<Entry>, name: string, s: State)
    requires WellFormed(es)
    ensures WellFormed(DoSetState(es, name, s).entries) && Names(DoSetState(es, name, s).entries) == Names(es)
  {
    hide IndexOf;
    var i := IndexOf(es, Key(name));
    if i < |es| {
      ReplaceKeepsOrder(es, i, es[i].(state := s));
    }
  }

  lemma BuiltinKeepsOrder(es: seq<Entry>, d: Definition)
    requires WellFormed(es)
    ensures WellFormed(DoBuiltin(es, d).entries)
    ensures Names(DoBuiltin(es, d).entries) == NamesAfter(Names(es), Builtin(d))
  {
    hide DepsReady, DoSetState;
    RegisterKeepsOrder(es, d);
    var first := DoRegister(es, d);
    if first.events != [] {
      var e := first.entries[|es|].(isBuiltin := true);
      ReplaceKeepsOrder(first.entries, |es|, e);
      SetStateKeepsOrder(first.entries[|es| := e], d.name, ACTIVE);
      SetStateKeepsOrder(first.entries[|es| := e], d.name, ERROR);
    }
  }

  lemma RefreshKeepsOrder(es: seq<Entry>, key: string, s: State)
    requires WellFormed(es)
    ensures WellFormed(RefreshAll(es, key, s)) && Names(RefreshAll(es, key, s)) == Names(es)
  {
  }

  /** Every operation keeps the table well formed and moves the key order as an ordered map does. */
  lemma StepKeepsOrder(es: seq<Entry>, op: Op)
    requires WellFormed(es)
    ensures WellFormed(Step(es, op).entries)
    ensures Names(Step(es, op).entries) == NamesAfter(Names(es), op)
  {
    hide IndexOf, DoRegister, DoUnregister, DoSetState, DoBuiltin, RefreshDeps;
    match op
    case Register(d) => RegisterKeepsOrder(es, d);
    case Unregister(name) => UnregisterKeepsOrder(es, name);
    case SetState(name, s) => SetStateKeepsOrder(es, name, s);
    case AddDependency(name, dep) =>
      var i := IndexOf(es, Key(name));
      if i < |es| && |es[i].deps| < MAX_DEPS {
        var e := es[i].(deps := es[i].deps + [Dependency(Key(dep), UNREGISTERED)]);
        ReplaceKeepsOrder(es, i, e);
      }
    case Activate(name) =>
      SetStateKeepsOrder(es, name, ACTIVE);
      SetStateKeepsOrder(es, name, ERROR);
    case Heartbeat(name) =>
      if Has(es, Key(name)) {
        RefreshKeepsOrder(es, Key(name), Get(es, Key(name)).state);
      }
    case Builtin(d) => BuiltinKeepsOrder(es, d);
  }

  /** After any run the table is an insertion-ordered map of at most 32 keys. */
  lemma {:induction false} RunIsOrderedMap(ops: seq<Op>)
    ensures WellFormed(Run(ops).entries)
    ensures Names(Run(ops).entries) == NamesRun(ops)
  {
    if ops != [] {
      hide WellFormed, NamesAfter, Step;
      RunIsOrderedMap(ops[..|ops| - 1]);
      StepKeepsOrder(Run(ops[..|ops| - 1]).entries, ops[|ops| - 1]);
    }
  }

  // ---------------------------------------------------------------- events replay to the state

  /** The state of every registered key. */
  function StateMap(es: seq<Entry>): map<string, State> {
    map k | k in Names(es) && Has(es, k) :: Get(es, k).state
  }

  /** The state an observer of the events attributes to a key. */
  function StateIn(m: map<string, State>, key: string): State {
    if key in m then m[key] else UNREGISTERED
  }

  function ApplyEvent(m: map<string, State>, e: Event): map<string, State> {
    if e.kind == UnregisterEvent then m - {Key(e.name)} else m[Key(e.name) := e.after]
  }

  /** The map an observer builds from the events alone. */
  function Replay(events: seq<Event>): map<string, State> {
    if events == [] then map[]
    else ApplyEvent(Replay(events[..|events| - 1]), events[|events| - 1])
  }

  /** Each event starts from the state that the earlier events left the key in. */
  ghost predicate Chained(events: seq<Event>) {
    forall i :: 0 <= i < |events| ==>
      events[i].before == StateIn(Replay(events[..i]), Key(events[i].name))
  }

  lemma ReplaySnoc(events: seq<Event>, e: Event)
    ensures Replay(events + [e]) == ApplyEvent(Replay(events), e)
    ensures Chained(events) && e.before == StateIn(Replay(events), Key(e.name)) ==> Chained(events + [e])
  {
    var all := events + [e];
    assert all[..|all| - 1] == events;
    if Chained(events) {
      assert forall i :: 0 <= i < |events| ==> all[..i] == events[..i] && all[i] == events[i];
    }
  }

  /** A key's state in the map is its entry's state. */
  lemma StateMapAt(es: seq<Entry>, i: nat)
    requires WellFormed(es) && i < |es|
    ensures es[i].name in StateMap(es) && StateMap(es)[es[i].name] == es[i].state
  {
    hide IndexOf;
    GetAt(es, i);
    assert Names(es)[i] == es[i].name;
  }

  lemma StatesOf(es: seq<Entry>)
    requires WellFormed(es)
    ensures forall i :: 0 <= i < |es| ==> es[i].name in StateMap(es) && StateMap(es)[es[i].name] == es[i].state
    ensures forall k :: k in StateMap(es) ==> k in Names(es)
  {
    hide IndexOf, WellFormed;
    forall i | 0 <= i < |es|
      ensures es[i].name in StateMap(es) && StateMap(es)[es[i].name] == es[i].state
    {
      StateMapAt(es, i);
    }
  }

  /** A map that agrees with every entry, and has no other key, is the state map. */
  lemma StateMapIs(es: seq<Entry>, m: map<string, State>)
    requires WellFormed(es)
    requires forall i :: 0 <= i < |es| ==> es[i].name in m && m[es[i].name] == es[i].state
    requires forall k :: k in m ==> k in Names(es)
    ensures StateMap(es) == m
  {
    hide IndexOf, StateMap, WellFormed;
    StatesOf(es);
    forall k | k in m || k in StateMap(es)
      ensures k in m && k in StateMap(es) && m[k] == StateMap(es)[k]
    {
      var i :| 0 <= i < |es| && Names(es)[i] == k;
      assert es[i].name == k;
    }
  }

  lemma RegisterReplays(es: seq<Entry>, d: Definition)
    requires WellFormed(es) && DoRegister(es, d).events != []
    ensures var e := DoRegister(es, d).events[0];
            StateMap(DoRegister(es, d).entries) == ApplyEvent(StateMap(es), e)
            && e.before == StateIn(StateMap(es), Key(e.name))
  {
    hide IndexOf, Key, StateMap, WellFormed;
    var es' := es + [NewEntry(d)];
    RegisterKeepsOrder(es, d);
    HasIsMembership(es, Key(d.name));
    StatesOf(es);
    assert Names(es') == Names(es) + [Key(d.name)];
    StateMapIs(es', StateMap(es)[Key(d.name) := REGISTERED]);
  }

  lemma SetStateReplays(es: seq<Entry>, name: string, s: State)
    requires WellFormed(es) && Has(es, Key(name))
    ensures var e := Event(StateEvent, name, Get(es, Key(name)).state, s);
            && DoSetState(es, name, s).events == [e]
            && StateMap(DoSetState(es, name, s).entries) == ApplyEvent(StateMap(es), e)
            && e.before == StateIn(StateMap(es), Key(name))
  {
    hide IndexOf, Key, StateMap, DepsFormed;
    var i := IndexOf(es, Key(name));
    var es' := es[i := es[i].(state := s)];
    ReplaceKeepsOrder(es, i, es[i].(state := s));
    StatesOf(es);
    StateMapIs(es', StateMap(es)[Key(name) := s]);
  }

  lemma OtherEntry(es: seq<Entry>, i: nat, j: nat)
    requires WellFormed(es) && i < |es| && j < |es| - 1
    ensures var from := if j < i then j else j + 1;
            (es[..i] + es[i + 1..])[j] == es[from] && es[from].name != es[i].name
  {
    hide DepsFormed;
  }

  lemma OtherName(es: seq<Entry>, i: nat, k: string)
    requires i < |es| && k in Names(es) && k != es[i].name
    ensures k in Names(es[..i] + es[i + 1..])
  {
    var es' := es[..i] + es[i + 1..];
    var j :| 0 <= j < |es| && Names(es)[j] == k;
    assert Names(es')[if j < i then j else j - 1] == k;
  }

  /** Removing an entry removes its key from the state map. */
  lemma RemovalStates(es: seq<Entry>, i: nat)
    requires WellFormed(es) && i < |es| && WellFormed(es[..i] + es[i + 1..])
    ensures StateMap(es[..i] + es[i + 1..]) == StateMap(es) - {es[i].name}
  {
    hide StateMap, WellFormed;
    var es' := es[..i] + es[i + 1..];
    var m := StateMap(es) - {es[i].name};
    StatesOf(es);
    forall j | 0 <= j < |es'|
      ensures es'[j].name in m && m[es'[j].name] == es'[j].state
    {
      OtherEntry(es, i, j);
    }
    forall k | k in m
      ensures k in Names(es')
    {
      OtherName(es, i, k);
    }
    StateMapIs(es', m);
  }

  lemma UnregisterReplays(es: seq<Entry>, name: string)
    requires WellFormed(es) && Has(es, Key(name))
    ensures var e := Event(UnregisterEvent, name, Get(es, Key(name)).state, UNREGISTERED);
            && DoUnregister(es, name).events == [e]
            && StateMap(DoUnregister(es, name).entries) == ApplyEvent(StateMap(es), e)
            && e.before == StateIn(StateMap(es), Key(name))
  {
    hide IndexOf, Key, StateMap, WellFormed;
    UnregisterKeepsOrder(es, name);
    StatesOf(es);
    RemovalStates(es, IndexOf(es, Key(name)));
  }

  /** Entries that differ in their dependencies or marks only have the same state map. */
  lemma SameStates(es: seq<Entry>, es': seq<Entry>)
    requires WellFormed(es) && WellFormed(es') && Names(es) == Names(es')
    requires forall i :: 0 <= i < |es| ==> es'[i].state == es[i].state
    ensures StateMap(es') == StateMap(es)
  {
    hide IndexOf;
    forall i | 0 <= i < |es|
      ensures es'[i].name in StateMap(es) && StateMap(es)[es'[i].name] == es'[i].state
    {
      StateMapAt(es, i);
      assert Names(es)[i] == Names(es')[i];
    }
    StateMapIs(es', StateMap(es));
  }

  /** An observer that knows the states before one operation knows them after it. */
  ghost predicate Follows(events: seq<Event>, es: seq<Entry>) {
    Chained(events) && Replay(events) == StateMap(es)
  }

  lemma FollowsSnoc(events: seq<Event>, es: seq<Entry>, e: Event, es': seq<Entry>)
    requires Follows(events, es)
    requires StateMap(es') == ApplyEvent(StateMap(es), e) && e.before == StateIn(StateMap(es), Key(e.name))
    ensures Follows(events + [e], es')
  {
    ReplaySnoc(events, e);
  }

  lemma ActivateFollows(events: seq<Event>, es: seq<Entry>, name: string)
    requires WellFormed(es) && Follows(events, es)
    ensures Follows(events + DoActivate(es, name).events, DoActivate(es, name).entries)
  {
    hide IndexOf, DepsReady, Follows, DoSetState, StateMap, ApplyEvent;
    if Has(es, Key(name)) {
      var s := if DepsReady(Get(es, Key(name))) then ACTIVE else ERROR;
      SetStateReplays(es, name, s);
      var e := Event(StateEvent, name, Get(es, Key(name)).state, s);
      FollowsSnoc(events, es, e, DoSetState(es, name, s).entries);
    } else {
      assert events + [] == events;
    }
  }

  lemma FreshDeps(es: seq<Entry>, i: nat)
    requires WellFormed(es) && i < |es|
    ensures DepsFormed(es[i].deps)
  {
  }

  lemma MarkedFollows(events: seq<Event>, es: seq<Entry>, d: Definition)
    requires WellFormed(es) && Follows(events, es) && DoRegister(es, d).events != []
    ensures var first := DoRegister(es, d);
            var marked := first.entries[|es| := first.entries[|es|].(isBuiltin := true)];
            WellFormed(marked) && Follows(events + first.events, marked)
  {
    hide IndexOf, Follows, StateMap, WellFormed;
    var first := DoRegister(es, d);
    RegisterKeepsOrder(es, d);
    RegisterReplays(es, d);
    FreshDeps(first.entries, |es|);
    var e := first.entries[|es|].(isBuiltin := true);
    ReplaceKeepsOrder(first.entries, |es|, e);
    var marked := first.entries[|es| := e];
    SameStates(first.entries, marked);
    FollowsSnoc(events, es, first.events[0], marked);
  }

  lemma BuiltinFollows(events: seq<Event>, es: seq<Entry>, d: Definition)
    requires WellFormed(es) && Follows(events, es)
    ensures Follows(events + DoBuiltin(es, d).events, DoBuiltin(es, d).entries)
  {
    hide IndexOf, Follows, DoActivate, StateMap, WellFormed;
    var first := DoRegister(es, d);
    if first.events == [] {
      assert events + [] == events;
    } else {
      var marked := first.entries[|es| := first.entries[|es|].(isBuiltin := true)];
      MarkedFollows(events, es, d);
      ActivateFollows(events + first.events, marked, d.name);
      var second := DoActivate(marked, d.name).events;
      assert events + first.events + second == events + (first.events + second);
    }
  }

  lemma FollowsSame(events: seq<Event>, es: seq<Entry>, es': seq<Entry>)
    requires Follows(events, es) && StateMap(es') == StateMap(es)
    ensures Follows(events, es')
  {
  }

  lemma AbsentKeeps(es: seq<Entry>, name: string)
    requires !Has(es, Key(name))
    ensures DoUnregister(es, name) == Outcome(es, [])
    ensures forall s :: DoSetState(es, name, s) == Outcome(es, [])
  {
  }

  lemma StepFollows(events: seq<Event>, es: seq<Entry>, op: Op)
    requires WellFormed(es) && Follows(events, es)
    ensures Follows(events + Step(es, op).events, Step(es, op).entries)
  {
    hide IndexOf, Follows, DoActivate, DoBuiltin, DoSetState, DoUnregister, StateMap, ApplyEvent, RefreshDeps;
    StepKeepsOrder(es, op);
    assert events + [] == events;
    match op
    case Register(d) =>
      if DoRegister(es, d).events != [] {
        RegisterReplays(es, d);
        FollowsSnoc(events, es, DoRegister(es, d).events[0], DoRegister(es, d).entries);
      }
    case Unregister(name) =>
      if Has(es, Key(name)) {
        UnregisterReplays(es, name);
        FollowsSnoc(events, es, DoUnregister(es, name).events[0], DoUnregister(es, name).entries);
      } else {
        AbsentKeeps(es, name);
      }
    case SetState(name, s) =>
      if Has(es, Key(name)) {
        SetStateReplays(es, name, s);
        FollowsSnoc(events, es, DoSetState(es, name, s).events[0], DoSetState(es, name, s).entries);
      } else {
        AbsentKeeps(es, name);
      }
    case Activate(name) => ActivateFollows(events, es, name);
    case Builtin(d) => BuiltinFollows(events, es, d);
    case _ =>
      SameStates(es, Step(es, op).entries);
      FollowsSame(events, es, Step(es, op).entries);
  }

  /** In every run, replaying the events gives the current states, and each event continues the last. */
  lemma {:induction false} EventsTellTheState(ops: seq<Op>)
    ensures Replay(Run(ops).events) == StateMap(Run(ops).entries)
    ensures Chained(Run(ops).events)
  {
    if ops != [] {
      var before := Run(ops[..|ops| - 1]);
      EventsTellTheState(ops[..|ops| - 1]);
      RunIsOrderedMap(ops[..|ops| - 1]);
      StepFollows(before.events, before.entries, ops[|ops| - 1]);
    }
  }

  // ---------------------------------------------------------------- looking up after a step

  /** What an entry says about the protocol, and whether it came from the built-in list. */
  datatype Origin = Origin(def: Definition, isBuiltin: bool)

  function OriginOf(e: Entry): Origin {
    Origin(Definition(e.name, e.category, e.kind, e.capabilities), e.isBuiltin)
  }

  /** Where the entry `key` comes from after one operation that leaves it in the table. */
  ghost predicate OriginAfter(es: seq<Entry>, op: Op, key: string, origin: Origin) {
    if Has(es, key) then origin == OriginOf(Get(es, key))
    else
      && (op.Register? || op.Builtin?) && Key(op.def.name) == key
      && origin == Origin(op.def.(name := key), op.Builtin?)
  }

  /** The dependencies of the entry `key` after one operation. */
  function DepsAfter(es: seq<Entry>, op: Op, key: string): seq<Dependency> {
    if !Has(es, key) then []
    else
      var ds := Get(es, key).deps;
      match op
      case AddDependency(name, dep) =>
        if Key(name) == key && |ds| < MAX_DEPS then ds + [Dependency(Key(dep), UNREGISTERED)] else ds
      case Heartbeat(name) =>
        if Has(es, Key(name)) then RefreshDeps(ds, Key(name), Get(es, Key(name)).state) else ds
      case _ => ds
  }

  /** The state of the entry `key` after one operation that leaves it in the table. */
  function StateAfter(es: seq<Entry>, op: Op, key: string): State {
    if !Has(es, key) then (if op.Builtin? then ACTIVE else REGISTERED)
    else
      match op
      case SetState(name, s) => if Key(name) == key then s else Get(es, key).state
      case Activate(name) =>
        if Key(name) != key then Get(es, key).state else if DepsReady(Get(es, key)) then ACTIVE else ERROR
      case _ => Get(es, key).state
  }

  /** Looking up a key in a table with one entry replaced. */
  lemma GetReplaced(es: seq<Entry>, i: nat, e: Entry, key: string)
    requires WellFormed(es) && i < |es| && e.name == es[i].name && DepsFormed(e.deps)
    requires Has(es[i := e], key)
    ensures Has(es, key)
    ensures Get(es[i := e], key) == if key == e.name then e else Get(es, key)
  {
    hide IndexOf, DepsFormed;
    var es' := es[i := e];
    ReplaceKeepsOrder(es, i, e);
    var j := IndexOf(es', key);
    GetAt(es, j);
  }

  lemma GetRegistered(es: seq<Entry>, d: Definition, key: string)
    requires WellFormed(es) && Has(DoRegister(es, d).entries, key)
    ensures if Has(es, key) then Get(DoRegister(es, d).entries, key) == Get(es, key)
            else key == Key(d.name) && Get(DoRegister(es, d).entries, key) == NewEntry(d)
  {
    hide IndexOf, DepsFormed;
    var es' := DoRegister(es, d).entries;
    RegisterKeepsOrder(es, d);
    if es' != es {
      if Has(es, key) {
        var j := IndexOf(es, key);
        assert es'[j] == es[j];
        GetAt(es', j);
      } else {
        var j := IndexOf(es', key);
        assert j == |es|;
      }
    }
  }

  lemma GetUnregistered(es: seq<Entry>, name: string, key: string)
    requires WellFormed(es) && Has(DoUnregister(es, name).entries, key)
    ensures key != Key(name) && Has(es, key) && Get(DoUnregister(es, name).entries, key) == Get(es, key)
  {
    hide IndexOf, DepsFormed;
    var i := IndexOf(es, Key(name));
    if i < |es| {
      var es' := es[..i] + es[i + 1..];
      assert forall j :: 0 <= j < |es'| ==> es'[j] == es[if j < i then j else j + 1];
      var j := IndexOf(es', key);
      GetAt(es, if j < i then j else j + 1);
    }
  }

  lemma SetStateDeps(es: seq<Entry>, name: string, s: State, key: string)
    requires WellFormed(es) && Has(DoSetState(es, name, s).entries, key)
    ensures Has(es, key) && Get(DoSetState(es, name, s).entries, key).deps == Get(es, key).deps
    ensures OriginOf(Get(DoSetState(es, name, s).entries, key)) == OriginOf(Get(es, key))
    ensures Get(DoSetState(es, name, s).entries, key).state == if Key(name) == key then s else Get(es, key).state
  {
    hide IndexOf, DepsFormed;
    var i := IndexOf(es, Key(name));
    if i < |es| {
      FreshDeps(es, i);
      GetReplaced(es, i, es[i].(state := s), key);
      GetAt(es, i);
    }
  }

  lemma ActivateDeps(es: seq<Entry>, name: string, key: string)
    requires WellFormed(es) && Has(DoActivate(es, name).entries, key)
    ensures Has(es, key) && Get(DoActivate(es, name).entries, key).deps == Get(es, key).deps
    ensures OriginOf(Get(DoActivate(es, name).entries, key)) == OriginOf(Get(es, key))
    ensures Get(DoActivate(es, name).entries, key).state == StateAfter(es, Activate(name), key)
  {
    hide IndexOf, DepsReady, DoSetState, WellFormed;
    if Has(es, Key(name)) {
      var s := if DepsReady(Get(es, Key(name))) then ACTIVE else ERROR;
      SetStateDeps(es, name, s, key);
    }
  }

  lemma NoDepsReady(e: Entry)
    requires e.deps == []
    ensures DepsReady(e)
  {
  }

  lemma BuiltinDeps(es: seq<Entry>, d: Definition, key: string)
    requires WellFormed(es) && Has(DoBuiltin(es, d).entries, key)
    ensures Get(DoBuiltin(es, d).entries, key).deps == if Has(es, key) then Get(es, key).deps else []
    ensures OriginAfter(es, Builtin(d), key, OriginOf(Get(DoBuiltin(es, d).entries, key)))
    ensures Get(DoBuiltin(es, d).entries, key).state == StateAfter(es, Builtin(d), key)
  {
    hide IndexOf, DepsReady, DoSetState, WellFormed, DepsFormed;
    var first := DoRegister(es, d);
    RegisterKeepsOrder(es, d);
    if first.events != [] {
      FreshDeps(first.entries, |es|);
      var e := first.entries[|es|].(isBuiltin := true);
      var marked := first.entries[|es| := e];
      ReplaceKeepsOrder(first.entries, |es|, e);
      NoDepsReady(e);
      ActivateDeps(marked, d.name, key);
      GetReplaced(first.entries, |es|, e, key);
    }
    GetRegistered(es, d, key);
  }

  lemma HeartbeatDeps(es: seq<Entry>, name: string, key: string)
    requires WellFormed(es) && Has(DoHeartbeat(es, name).entries, key)
    ensures Has(es, key)
    ensures Get(DoHeartbeat(es, name).entries, key).deps == DepsAfter(es, Heartbeat(name), key)
    ensures OriginOf(Get(DoHeartbeat(es, name).entries, key)) == OriginOf(Get(es, key))
    ensures Get(DoHeartbeat(es, name).entries, key).state == Get(es, key).state
  {
    hide IndexOf, RefreshDeps;
    if Has(es, Key(name)) {
      var es' := RefreshAll(es, Key(name), Get(es, Key(name)).state);
      var j := IndexOf(es', key);
      GetAt(es, j);
    }
  }

  lemma LongerDeps(ds: seq<Dependency>, dep: string)
    requires DepsFormed(ds) && |ds| < MAX_DEPS
    ensures DepsFormed(ds + [Dependency(Key(dep), UNREGISTERED)])
  {
  }

  lemma AddDependencyDeps(es: seq<Entry>, name: string, dep: string, key: string)
    requires WellFormed(es) && Has(DoAddDependency(es, name, dep).entries, key)
    ensures Has(es, key)
    ensures Get(DoAddDependency(es, name, dep).entries, key).deps
            == DepsAfter(es, AddDependency(name, dep), key)
    ensures OriginOf(Get(DoAddDependency(es, name, dep).entries, key)) == OriginOf(Get(es, key))
    ensures Get(DoAddDependency(es, name, dep).entries, key).state == Get(es, key).state
  {
    hide IndexOf, DepsFormed;
    var i := IndexOf(es, Key(name));
    if i < |es| && |es[i].deps| < MAX_DEPS {
      var e := es[i].(deps := es[i].deps + [Dependency(Key(dep), UNREGISTERED)]);
      FreshDeps(es, i);
      LongerDeps(es[i].deps, dep);
      GetReplaced(es, i, e, key);
      GetAt(es, i);
    }
  }

  lemma StepDeps(es: seq<Entry>, op: Op, key: string)
    requires WellFormed(es) && Has(Step(es, op).entries, key)
    ensures Get(Step(es, op).entries, key).deps == DepsAfter(es, op, key)
    ensures OriginAfter(es, op, key, OriginOf(Get(Step(es, op).entries, key)))
    ensures Get(Step(es, op).entries, key).state == StateAfter(es, op, key)
    ensures !op.Register? && !op.Builtin? ==> Has(es, key)
    ensures op.Unregister? ==> Key(op.name) != key
  {
    hide IndexOf, DoRegister, DoUnregister, DoSetState, DoActivate, DoBuiltin, DoHeartbeat, DoAddDependency,
         RefreshDeps, WellFormed;
    match op
    case Register(d) => GetRegistered(es, d, key);
    case Unregister(name) => GetUnregistered(es, name, key);
    case SetState(name, s) => SetStateDeps(es, name, s, key);
    case AddDependency(name, dep) => AddDependencyDeps(es, name, dep, key);
    case Activate(name) => ActivateDeps(es, name, key);
    case Heartbeat(name) => HeartbeatDeps(es, name, key);
    case Builtin(d) => BuiltinDeps(es, d, key);
  }

  // ---------------------------------------------------------------- entries are what was registered

  /** The latest accepted registration of a key that was not unregistered since. */
  function RegisteredBy(ops: seq<Op>, key: string): Option<Origin> {
    if ops == [] then None
    else
      var n := |ops| - 1;
      var names := NamesRun(ops[..n]);
      var op := ops[n];
      if (op.Register? || op.Builtin?) && Key(op.def.name) == key && key !in names && |names| < MAX_ENTRIES
      then Some(Origin(op.def.(name := key), op.Builtin?))
      else if op.Unregister? && Key(op.name) == key then None
      else RegisteredBy(ops[..n], key)
  }

  lemma {:induction false} MembershipWithout(ns: seq<string>, gone: string, key: string)
    ensures key in Without(ns, gone) <==> key in ns && key != gone
  {
    if ns != [] {
      MembershipWithout(ns[1..], gone, key);
    }
  }

  /** Which keys an ordered map holds after one operation. */
  lemma MembershipAfter(ns: seq<string>, op: Op, key: string)
    ensures key in NamesAfter(ns, op) <==>
              if (op.Register? || op.Builtin?) && Key(op.def.name) == key then key in ns || |ns| < MAX_ENTRIES
              else if op.Unregister? && Key(op.name) == key then false
              else key in ns
  {
    if op.Unregister? {
      MembershipWithout(ns, Key(op.name), key);
    }
  }

  lemma EmptyHasNothing(key: string)
    ensures !Has([], key)
  {
  }

  /**
   After every run the table holds exactly the keys with a standing registration, and each entry's
   category, kind, capabilities and built-in mark are those of that registration.
   */
  lemma {:induction false} EntryIsLatestRegistration(ops: seq<Op>, key: string)
    ensures Has(Run(ops).entries, key) <==> RegisteredBy(ops, key).Some?
    ensures Has(Run(ops).entries, key) ==>
              OriginOf(Get(Run(ops).entries, key)) == RegisteredBy(ops, key).value
  {
    hide Has, Get, Step, WellFormed, OriginOf, NamesAfter;
    if ops == [] {
      EmptyHasNothing(key);
    } else {
      var n := |ops| - 1;
      var es, op := Run(ops[..n]).entries, ops[n];
      EntryIsLatestRegistration(ops[..n], key);
      RunIsOrderedMap(ops[..n]);
      StepKeepsOrder(es, op);
      HasIsMembership(es, key);
      HasIsMembership(Step(es, op).entries, key);
      MembershipAfter(Names(es), op, key);
      if Has(Step(es, op).entries, key) {
        StepDeps(es, op, key);
      }
    }
  }

  // ---------------------------------------------------------------- cached dependency states

  /** The position of the operation that declared each present dependency of the entry `key`. */
  function DeclaredAt(ops: seq<Op>, key: string): seq<nat> {
    if ops == [] then []
    else
      var n := |ops| - 1;
      var es := Run(ops[..n]).entries;
      if !Has(es, key) then []
      else
        match ops[n]
        case Unregister(name) => if Key(name) == key then [] else DeclaredAt(ops[..n], key)
        case AddDependency(name, _) =>
          if Key(name) == key && |Get(es, key).deps| < MAX_DEPS then DeclaredAt(ops[..n], key) + [n]
          else DeclaredAt(ops[..n], key)
        case _ => DeclaredAt(ops[..n], key)
  }

  /** The state `key` had at its latest heartbeat from operation `from` on; UNREGISTERED if none. */
  function LatestBeat(ops: seq<Op>, from: nat, key: string): State {
    if |ops| <= from then UNREGISTERED
    else
      var n := |ops| - 1;
      var es := Run(ops[..n]).entries;
      if ops[n].Heartbeat? && Key(ops[n].name) == key && Has(es, key) then Get(es, key).state
      else LatestBeat(ops[..n], from, key)
  }

  /** Each cached state is the target's state at its latest heartbeat since the declaration. */
  ghost predicate CachesCorrect(ops: seq<Op>, key: string)
    requires Has(Run(ops).entries, key)
  {
    var ds, at := Get(Run(ops).entries, key).deps, DeclaredAt(ops, key);
    && |at| == |ds|
    && forall j :: 0 <= j < |ds| ==>
         at[j] < |ops| && ds[j].state == LatestBeat(ops, at[j] + 1, ds[j].name)
  }

  lemma NewlyRegistered(ops: seq<Op>, key: string)
    requires ops != [] && Has(Run(ops).entries, key)
    requires var n := |ops| - 1;
             !Has(Run(ops[..n]).entries, key) && Get(Run(ops).entries, key).deps == []
    ensures CachesCorrect(ops, key)
  {
    hide Has, Get, Step, Run;
  }

  /** The situation before the last operation of a run, for an entry that was there. */
  ghost predicate BeforeLast(ops: seq<Op>, key: string) {
    && ops != [] && Has(Run(ops).entries, key)
    && var n := |ops| - 1;
    var es := Run(ops[..n]).entries;
    && Has(es, key) && CachesCorrect(ops[..n], key)
    && Get(Run(ops).entries, key).deps == DepsAfter(es, ops[n], key)
    && (ops[n].Unregister? ==> Key(ops[n].name) != key)
  }

  lemma LastStep(ops: seq<Op>, key: string)
    requires BeforeLast(ops, key)
    ensures ops != [] && Has(Run(ops).entries, key)
    ensures |DeclaredAt(ops, key)| == |Get(Run(ops).entries, key).deps|
  {
    hide Has, Get, Run, LatestBeat;
  }

  lemma CacheAt(ops: seq<Op>, key: string, j: nat)
    requires BeforeLast(ops, key) && j < |Get(Run(ops).entries, key).deps|
    requires |DeclaredAt(ops, key)| == |Get(Run(ops).entries, key).deps|
    ensures var d, at := Get(Run(ops).entries, key).deps[j], DeclaredAt(ops, key)[j];
            at < |ops| && d.state == LatestBeat(ops, at + 1, d.name)
  {
    hide Has, Get, Run;
    var n := |ops| - 1;
    var es := Run(ops[..n]).entries;
    var earlier := Get(es, key).deps;
    if j < |earlier| {
      var d, at := Get(Run(ops).entries, key).deps[j], DeclaredAt(ops, key)[j];
      assert at == DeclaredAt(ops[..n], key)[j];
      assert d.name == earlier[j].name;
    }
  }

  lemma CacheStep(ops: seq<Op>, key: string)
    requires BeforeLast(ops, key)
    ensures CachesCorrect(ops, key)
  {
    hide Has, Get, Run, BeforeLast, LatestBeat;
    assert ops != [] && Has(Run(ops).entries, key) by { LastStep(ops, key); }
    var ds := Get(Run(ops).entries, key).deps;
    LastStep(ops, key);
    forall j | 0 <= j < |ds|
      ensures DeclaredAt(ops, key)[j] < |ops|
              && ds[j].state == LatestBeat(ops, DeclaredAt(ops, key)[j] + 1, ds[j].name)
    {
      CacheAt(ops, key, j);
    }
  }

  /** At every reachable state, every cached dependency state is the one last heard. */
  lemma {:induction false} CachedStateIsLatestBeat(ops: seq<Op>, key: string)
    requires Has(Run(ops).entries, key)
    ensures CachesCorrect(ops, key)
    decreases |ops|
  {
    hide Has, Get, Step, WellFormed, CachesCorrect;
    EmptyHasNothing(key);
    var n := |ops| - 1;
    var init, op := ops[..n], ops[n];
    var es := Run(init).entries;
    RunIsOrderedMap(init);
    StepDeps(es, op, key);
    if Has(es, key) {
      CachedStateIsLatestBeat(init, key);
      CacheStep(ops, key);
    } else {
      NewlyRegistered(ops, key);
    }
  }

  lemma ActivationState(es: seq<Entry>, name: string)
    requires WellFormed(es) && Has(es, Key(name))
    ensures Has(DoActivate(es, name).entries, Key(name))
    ensures Get(DoActivate(es, name).entries, Key(name)).state
            == if DepsReady(Get(es, Key(name))) then ACTIVE else ERROR
  {
    hide IndexOf, DepsReady, DepsFormed;
    var i := IndexOf(es, Key(name));
    var s := if DepsReady(Get(es, Key(name))) then ACTIVE else ERROR;
    ReplaceKeepsOrder(es, i, es[i].(state := s));
    GetAt(es[i := es[i].(state := s)], i);
  }

  lemma ActivateLast(ops: seq<Op>, name: string)
    ensures Run(ops + [Activate(name)]).entries == DoActivate(Run(ops).entries, name).entries
  {
    hide DoActivate;
    assert (ops + [Activate(name)])[..|ops|] == ops;
  }

  lemma ReadyWhenHeard(ops: seq<Op>, key: string)
    requires Has(Run(ops).entries, key) && CachesCorrect(ops, key)
    ensures var ds, at := Get(Run(ops).entries, key).deps, DeclaredAt(ops, key);
            && |at| == |ds|
            && (DepsReady(Get(Run(ops).entries, key)) <==>
                  forall j :: 0 <= j < |ds| ==> Usable(LatestBeat(ops, at[j] + 1, ds[j].name)))
  {
    hide Run, Has, Get, DeclaredAt, LatestBeat, Usable;
  }

  /** Activation succeeds exactly when every dependency was usable when last heard. */
  lemma ActivationOutcome(ops: seq<Op>, name: string)
    requires Has(Run(ops).entries, Key(name))
    ensures var key := Key(name);
            var ds, at := Get(Run(ops).entries, key).deps, DeclaredAt(ops, key);
            && |at| == |ds|
            && Has(Run(ops + [Activate(name)]).entries, key)
            && Get(Run(ops + [Activate(name)]).entries, key).state ==
               if forall j :: 0 <= j < |ds| ==> Usable(LatestBeat(ops, at[j] + 1, ds[j].name))
               then ACTIVE else ERROR
  {
    hide DeclaredAt, LatestBeat, DoActivate, WellFormed, Has, Get, Run, DepsReady, CachesCorrect, Usable;
    CachedStateIsLatestBeat(ops, Key(name));
    ReadyWhenHeard(ops, Key(name));
    RunIsOrderedMap(ops);
    ActivateLast(ops, name);
    ActivationState(Run(ops).entries, name);
  }
}
