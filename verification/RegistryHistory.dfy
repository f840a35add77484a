/**
 The registry told by its history: the state of every key, its dependencies and all events, read off
 the operations alone, and the proof that the table and the callback say the same.
 */
module RegistryHistory {
  import opened CText
  import opened RegistrySpec
  import opened RegistryRuns

  // ---------------------------------------------------------------- what the operations say

  /** A dependency and the place of the operation that declared it. */
  datatype Declared = Declared(name: string, at: nat)

  /** The state of a key, or none while it is not registered. */
  function StateOf(ops: seq<Op>, key: string): Option<State>
    decreases |ops|, 0
  {
    if ops == [] then None
    else
      var n := |ops| - 1;
      var init := ops[..n];
      var before := StateOf(init, key);
      match ops[n]
      case Register(d) =>
        if Key(d.name) == key && before.None? && |NamesRun(init)| < 32 then Some(REGISTERED) else before
      case Builtin(d) =>
        if Key(d.name) == key && before.None? && |NamesRun(init)| < 32 then Some(ACTIVE) else before
      case Unregister(name) => if Key(name) == key then None else before
      case SetState(name, s) => if Key(name) == key && before.Some? then Some(s) else before
      case Activate(name) =>
        if Key(name) == key && before.Some? then Some(if AllHeardUsable(init, key) then ACTIVE else ERROR)
        else before
      case AddDependency(_, _) => before
      case Heartbeat(_) => before
  }

  /** The dependencies of a key: those declared since it was registered, up to sixteen. */
  function DepsOf(ops: seq<Op>, key: string): seq<Declared>
    decreases |ops|, 0
  {
    if ops == [] then []
    else
      var n := |ops| - 1;
      var init := ops[..n];
      var before := DepsOf(init, key);
      if StateOf(init, key).None? then []
      else
        match ops[n]
        case Unregister(name) => if Key(name) == key then [] else before
        case AddDependency(name, dep) =>
          if Key(name) == key && |before| < 16 then before + [Declared(Key(dep), n)] else before
        case _ => before
  }

  /** The state a key had at its latest heartbeat from operation `from` on; UNREGISTERED if none. */
  function Heard(ops: seq<Op>, from: nat, key: string): State
    decreases |ops|, 0
  {
    if |ops| <= from || ops == [] then UNREGISTERED
    else
      var n := |ops| - 1;
      if ops[n].Heartbeat? && Key(ops[n].name) == key && StateOf(ops[..n], key).Some?
      then StateOf(ops[..n], key).value
      else Heard(ops[..n], from, key)
  }

  predicate AllHeardUsable(ops: seq<Op>, key: string)
    decreases |ops|, 1
  {
    var ds := DepsOf(ops, key);
    forall j :: 0 <= j < |ds| ==>
      var s := Heard(ops, ds[j].at + 1, ds[j].name);
      s == ACTIVE || s == READY
  }

  // ---------------------------------------------------------------- the table agrees

  ghost predicate StateAgrees(ops: seq<Op>, key: string) {
    var es := Run(ops).entries;
    && (Has(es, key) <==> StateOf(ops, key).Some?)
    && (Has(es, key) ==> Get(es, key).state == StateOf(ops, key).value)
  }

  ghost predicate DepsAgree(ops: seq<Op>, key: string) {
    var es, ds, at := Run(ops).entries, DepsOf(ops, key), DeclaredAt(ops, key);
    && |at| == |ds| && (forall j :: 0 <= j < |ds| ==> at[j] == ds[j].at)
    && (Has(es, key) ==>
          |Get(es, key).deps| == |ds| && forall j :: 0 <= j < |ds| ==> Get(es, key).deps[j].name == ds[j].name)
  }

  /** The last operation of a run on the table before it. */
  lemma RunLast(ops: seq<Op>, key: string)
    requires ops != []
    ensures var n := |ops| - 1;
            var es, es' := Run(ops[..n]).entries, Run(ops).entries;
            && es' == Step(es, ops[n]).entries && WellFormed(es) && |es| == |NamesRun(ops[..n])|
            && (Has(es', key) <==> key in NamesAfter(Names(es), ops[n])) && (Has(es, key) <==> key in Names(es))
  {
    hide Step, WellFormed, Has, NamesAfter;
    var n := |ops| - 1;
    var es := Run(ops[..n]).entries;
    RunIsOrderedMap(ops[..n]);
    StepKeepsOrder(es, ops[n]);
    HasIsMembership(es, key);
    HasIsMembership(Step(es, ops[n]).entries, key);
  }

  lemma StateStep(ops: seq<Op>, key: string)
    requires ops != [] && StateAgrees(ops[..|ops| - 1], key)
    requires ops[|ops| - 1].Activate? && Key(ops[|ops| - 1].name) == key
             && Has(Run(ops[..|ops| - 1]).entries, key) ==>
               (AllHeardUsable(ops[..|ops| - 1], key) <==> DepsReady(Get(Run(ops[..|ops| - 1]).entries, key)))
    ensures StateAgrees(ops, key)
  {
    hide Has, Get, Step, WellFormed, Run, DepsReady, AllHeardUsable, NamesAfter;
    var n := |ops| - 1;
    var es := Run(ops[..n]).entries;
    RunLast(ops, key);
    MembershipAfter(Names(es), ops[n], key);
    if Has(Run(ops).entries, key) {
      StepDeps(es, ops[n], key);
    }
  }

  lemma RefreshKeepsNames(ds: seq<Dependency>, key: string, s: State)
    ensures forall j :: 0 <= j < |ds| ==> RefreshDeps(ds, key, s)[j].name == ds[j].name
  {
  }

  lemma DepsStep(ops: seq<Op>, key: string)
    requires ops != [] && DepsAgree(ops[..|ops| - 1], key) && StateAgrees(ops[..|ops| - 1], key)
    ensures DepsAgree(ops, key)
  {
    hide Has, Get, Step, WellFormed, Run, StateOf, NamesAfter, RefreshDeps;
    var n := |ops| - 1;
    var es := Run(ops[..n]).entries;
    RunLast(ops, key);
    if Has(Run(ops).entries, key) {
      StepDeps(es, ops[n], key);
      if Has(es, key) && ops[n].Heartbeat? && Has(es, Key(ops[n].name)) {
        RefreshKeepsNames(Get(es, key).deps, Key(ops[n].name), Get(es, Key(ops[n].name)).state);
      }
    }
  }

  lemma {:induction false} HeardAgrees(ops: seq<Op>, from: nat, key: string)
    ensures Heard(ops, from, key) == LatestBeat(ops, from, key)
    decreases |ops|, 0
  {
    hide StateOf, Has, Get, Run;
    if from < |ops| {
      var n := |ops| - 1;
      HistoryAgrees(ops[..n], key);
      HeardAgrees(ops[..n], from, key);
    }
  }

  lemma ReadyAgrees(ops: seq<Op>, key: string)
    requires Has(Run(ops).entries, key) && DepsAgree(ops, key)
    requires forall from: nat, name :: Heard(ops, from, name) == LatestBeat(ops, from, name)
    ensures AllHeardUsable(ops, key) <==> DepsReady(Get(Run(ops).entries, key))
  {
    hide Heard, LatestBeat, DepsOf, DeclaredAt, Run, Has, Get;
    CachedStateIsLatestBeat(ops, key);
    var ds, deps := DepsOf(ops, key), Get(Run(ops).entries, key).deps;
    forall j | 0 <= j < |ds|
      ensures Heard(ops, ds[j].at + 1, ds[j].name) == deps[j].state
    {
      assert DeclaredAt(ops, key)[j] == ds[j].at;
    }
  }

  lemma {:induction false} HistoryAgrees(ops: seq<Op>, key: string)
    ensures StateAgrees(ops, key) && DepsAgree(ops, key)
    decreases |ops|, 1
  {
    if ops == [] {
      EmptyHasNothing(key);
    } else {
      hide StateAgrees, DepsAgree, Has, Get, Run, AllHeardUsable, DepsReady, Heard, LatestBeat;
      var n := |ops| - 1;
      var init := ops[..n];
      HistoryAgrees(init, key);
      DepsStep(ops, key);
      if Has(Run(init).entries, key) {
        forall from: nat, name
          ensures Heard(init, from, name) == LatestBeat(init, from, name)
        {
          HeardAgrees(init, from, name);
        }
        ReadyAgrees(init, key);
      }
      StateStep(ops, key);
    }
  }

  /**
   After every run, a key is in the table exactly while the operations say so, and its entry has the
   state that the last of them gave it: REGISTERED by its registration, ACTIVE by a built-in one,
   any state by SetState, and ACTIVE or ERROR by an activation, as its dependencies were last heard.
   */
  lemma StateFromHistory(ops: seq<Op>, key: string)
    ensures Has(Run(ops).entries, key) <==> StateOf(ops, key).Some?
    ensures Has(Run(ops).entries, key) ==> Get(Run(ops).entries, key).state == StateOf(ops, key).value
  {
    hide Has, Get, Run, StateOf;
    HistoryAgrees(ops, key);
  }

  // ---------------------------------------------------------------- the events agree

  /** The event of a change of state, if the name is registered. */
  function Change(ops: seq<Op>, name: string, kind: EventKind, after: State): seq<Event> {
    match StateOf(ops, Key(name))
    case None => []
    case Some(before) => [Event(kind, name, before, after)]
  }

  /** The events of one operation after a run. */
  function EventsOf(ops: seq<Op>, op: Op): seq<Event> {
    match op
    case Register(d) =>
      if StateOf(ops, Key(d.name)).None? && |NamesRun(ops)| < 32
      then [Event(RegisterEvent, d.name, UNREGISTERED, REGISTERED)] else []
    case Builtin(d) =>
      if StateOf(ops, Key(d.name)).None? && |NamesRun(ops)| < 32
      then [Event(RegisterEvent, d.name, UNREGISTERED, REGISTERED), Event(StateEvent, d.name, REGISTERED, ACTIVE)]
      else []
    case Unregister(name) => Change(ops, name, UnregisterEvent, UNREGISTERED)
    case SetState(name, s) => Change(ops, name, StateEvent, s)
    case Activate(name) =>
      Change(ops, name, StateEvent, if AllHeardUsable(ops, Key(name)) then ACTIVE else ERROR)
    case AddDependency(_, _) => []
    case Heartbeat(_) => []
  }

  function EventLog(ops: seq<Op>): seq<Event> {
    if ops == [] then []
    else EventLog(ops[..|ops| - 1]) + EventsOf(ops[..|ops| - 1], ops[|ops| - 1])
  }

  lemma BuiltinEvents(es: seq<Entry>, d: Definition)
    requires WellFormed(es)
    ensures DoBuiltin(es, d).events ==
            if |es| < MAX_ENTRIES && !Has(es, Key(d.name))
            then [Event(RegisterEvent, d.name, UNREGISTERED, REGISTERED), Event(StateEvent, d.name, REGISTERED, ACTIVE)]
            else []
  {
    hide IndexOf, WellFormed, DepsFormed;
    if |es| < MAX_ENTRIES && !Has(es, Key(d.name)) {
      RegisterKeepsOrder(es, d);
      var first := DoRegister(es, d).entries;
      FreshDeps(first, |es|);
      var e := NewEntry(d).(isBuiltin := true);
      ReplaceKeepsOrder(first, |es|, e);
      GetAt(first[|es| := e], |es|);
      NoDepsReady(e);
    }
  }

  lemma StateBefore(es: seq<Entry>, key: string)
    requires Has(es, key)
    ensures es[IndexOf(es, key)].state == Get(es, key).state
  {
    hide IndexOf;
  }

  lemma StepEvents(ops: seq<Op>, op: Op)
    ensures Step(Run(ops).entries, op).events == EventsOf(ops, op)
  {
    hide IndexOf, Run, StateOf, AllHeardUsable, DepsReady, WellFormed, DoBuiltin, Get;
    var es := Run(ops).entries;
    RunIsOrderedMap(ops);
    var name := if op.Register? || op.Builtin? then op.def.name else op.name;
    var key := Key(name);
    HistoryAgrees(ops, key);
    match op
    case Builtin(d) => BuiltinEvents(es, d);
    case Activate(_) =>
      if Has(es, key) {
        forall from: nat, n
          ensures Heard(ops, from, n) == LatestBeat(ops, from, n)
        {
          HeardAgrees(ops, from, n);
        }
        ReadyAgrees(ops, key);
        StateBefore(es, key);
      }
    case _ =>
      if Has(es, key) {
        StateBefore(es, key);
      }
  }

  /** In every run the callback sees exactly the events that the operations call for. */
  lemma {:induction false} EventsFromHistory(ops: seq<Op>)
    ensures Run(ops).events == EventLog(ops)
  {
    if ops != [] {
      hide Step, EventsOf;
      EventsFromHistory(ops[..|ops| - 1]);
      StepEvents(ops[..|ops| - 1], ops[|ops| - 1]);
    }
  }

  // ---------------------------------------------------------------- who can be found

  /** An operation that may change the state of a key or remove it. */
  predicate Touches(op: Op, key: string) {
    (op.SetState? || op.Activate? || op.Unregister?) && Key(op.name) == key
  }

  /** Without such an operation a key keeps its state, however many other operations come. */
  lemma {:induction false} StateStays(ops: seq<Op>, more: seq<Op>, key: string)
    requires StateOf(ops, key).Some? && forall op :: op in more ==> !Touches(op, key)
    ensures StateOf(ops + more, key) == StateOf(ops, key)
    decreases |more|
  {
    if more == [] {
      assert ops + more == ops;
    } else {
      var n := |more| - 1;
      StateStays(ops, more[..n], key);
      assert (ops + more)[..|ops| + n] == ops + more[..n];
      assert !Touches(more[n], key);
    }
  }

  /** A usable entry is one whose key the operations left ACTIVE or READY. */
  lemma UsableFromHistory(ops: seq<Op>, i: nat)
    requires i < |Run(ops).entries|
    ensures var e := Run(ops).entries[i];
            Usable(e.state) <==> StateOf(ops, e.name) == Some(ACTIVE) || StateOf(ops, e.name) == Some(READY)
  {
    hide Run, StateOf, WellFormed;
    RunIsOrderedMap(ops);
    GetAt(Run(ops).entries, i);
    StateFromHistory(ops, Run(ops).entries[i].name);
  }

  /** What was registered and never activated is not usable, whatever else happens. */
  lemma NotUsableUntilActivated(ops: seq<Op>, d: Definition, more: seq<Op>, i: nat)
    requires StateOf(ops, Key(d.name)).None? && |NamesRun(ops)| < 32
    requires forall op :: op in more ==> !Touches(op, Key(d.name))
    requires i < |Run(ops + [Register(d)] + more).entries|
    ensures var e := Run(ops + [Register(d)] + more).entries[i];
            e.name == Key(d.name) ==> e.state == REGISTERED && !Usable(e.state)
  {
    hide Run, WellFormed, NamesRun;
    var first := ops + [Register(d)];
    assert first[..|ops|] == ops;
    assert StateOf(first, Key(d.name)) == Some(REGISTERED);
    StateStays(first, more, Key(d.name));
    var all := first + more;
    RunIsOrderedMap(all);
    GetAt(Run(all).entries, i);
    StateFromHistory(all, Run(all).entries[i].name);
  }

  /** Every newly added built-in is usable, with the type and capabilities it was defined with. */
  lemma BuiltinIsUsable(ops: seq<Op>, d: Definition)
    requires StateOf(ops, Key(d.name)).None? && |NamesRun(ops)| < 32
    ensures var es := Run(ops + [Builtin(d)]).entries;
            && Has(es, Key(d.name)) && Usable(Get(es, Key(d.name)).state)
            && Get(es, Key(d.name)).kind == d.kind && Get(es, Key(d.name)).capabilities == d.capabilities
            && Get(es, Key(d.name)).category == d.category && Get(es, Key(d.name)).isBuiltin
  {
    hide Run, Has, Get, NamesRun;
    var all := ops + [Builtin(d)];
    assert all[..|ops|] == ops;
    StateFromHistory(ops, Key(d.name));
    StateFromHistory(all, Key(d.name));
    EntryIsLatestRegistration(all, Key(d.name));
    RunIsOrderedMap(ops);
    HasIsMembership(Run(ops).entries, Key(d.name));
  }
}
