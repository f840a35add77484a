/**
 The protocol registry as a step function over its operations, and what every run of it satisfies.

 Names are C strings. Entries are found by the first 63 bytes of their name (`Key`). The state is
 the insertion-ordered list of entries; `Step` gives the new state and the events the callback sees.
 */
module RegistrySpec {
  import opened CText

  const MAX_ENTRIES: nat := 32
  const MAX_DEPS: nat := 16
  const KEY_LENGTH: nat := 63

  datatype State =
    UNREGISTERED | REGISTERED | INITIALIZING | READY | ACTIVE | DEGRADED | ERROR | SHUTDOWN

  datatype Dependency = Dependency(name: string, state: State)

  datatype Entry = Entry(name: string, category: int, kind: int, capabilities: bv32,
                         state: State, deps: seq<Dependency>, isBuiltin: bool)

  datatype Definition = Definition(name: string, category: int, kind: int, capabilities: bv32)

  function Key(name: string): (k: string)
    ensures |k| <= KEY_LENGTH && (|name| <= KEY_LENGTH ==> k == name)
  {
    Truncate(name, KEY_LENGTH)
  }

  /** A key is the first 63 bytes of a name. */
  lemma KeyIsPrefix(name: string)
    ensures Key(name) == if |name| <= 63 then name else name[..63]
  {
  }

  /** An entry serves requests. */
  predicate Usable(s: State) { s == ACTIVE || s == READY }

  // ---------------------------------------------------------------- lookup

  /** The position of the entry with the given key, or the number of entries. */
  function IndexOf(es: seq<Entry>, key: string): (i: nat)
    ensures i <= |es|
    ensures i < |es| ==> es[i].name == key
    ensures forall j :: 0 <= j < i ==> es[j].name != key
  {
    if es == [] || es[0].name == key then 0 else 1 + IndexOf(es[1..], key)
  }

  predicate Has(es: seq<Entry>, key: string) { IndexOf(es, key) < |es| }

  function Get(es: seq<Entry>, key: string): Entry
    requires Has(es, key)
  {
    es[IndexOf(es, key)]
  }

  // ---------------------------------------------------------------- operations

  datatype Op =
    | Register(def: Definition)
    | Unregister(name: string)
    | SetState(name: string, state: State)
    | AddDependency(name: string, dep: string)
    | Activate(name: string)
    | Heartbeat(name: string)
    | Builtin(def: Definition)

  datatype EventKind = RegisterEvent | StateEvent | UnregisterEvent
  datatype Event = Event(kind: EventKind, name: string, before: State, after: State)

  datatype Outcome = Outcome(entries: seq<Entry>, events: seq<Event>)

  function NewEntry(d: Definition): Entry {
    Entry(Key(d.name), d.category, d.kind, d.capabilities, REGISTERED, [], false)
  }

  function DoRegister(es: seq<Entry>, d: Definition): Outcome {
    if |es| >= MAX_ENTRIES || Has(es, Key(d.name)) then Outcome(es, [])
    else Outcome(es + [NewEntry(d)], [Event(RegisterEvent, d.name, UNREGISTERED, REGISTERED)])
  }

  function DoUnregister(es: seq<Entry>, name: string): Outcome {
    var i := IndexOf(es, Key(name));
    if i == |es| then Outcome(es, [])
    else Outcome(es[..i] + es[i + 1..], [Event(UnregisterEvent, name, es[i].state, UNREGISTERED)])
  }

  function DoSetState(es: seq<Entry>, name: string, s: State): Outcome {
    var i := IndexOf(es, Key(name));
    if i == |es| then Outcome(es, [])
    else Outcome(es[i := es[i].(state := s)], [Event(StateEvent, name, es[i].state, s)])
  }

  function DoAddDependency(es: seq<Entry>, name: string, dep: string): Outcome {
    var i := IndexOf(es, Key(name));
    if i == |es| || |es[i].deps| >= MAX_DEPS then Outcome(es, [])
    else Outcome(es[i := es[i].(deps := es[i].deps + [Dependency(Key(dep), UNREGISTERED)])], [])
  }

  /** Whether every cached dependency state is usable. */
  predicate DepsReady(e: Entry) {
    forall j :: 0 <= j < |e.deps| ==> Usable(e.deps[j].state)
  }

  function DoActivate(es: seq<Entry>, name: string): Outcome {
    if !Has(es, Key(name)) then Outcome(es, [])
    else DoSetState(es, name, if DepsReady(Get(es, Key(name))) then ACTIVE else ERROR)
  }

  /** Every cached state for `key` becomes `s`. */
  function Refresh(d: Dependency, key: string, s: State): Dependency {
    if d.name == key then d.(state := s) else d
  }

  function RefreshDeps(ds: seq<Dependency>, key: string, s: State): (r: seq<Dependency>)
    ensures |r| == |ds|
  {
    seq(|ds|, j requires 0 <= j < |ds| => Refresh(ds[j], key, s))
  }

  function RefreshAll(es: seq<Entry>, key: string, s: State): (r: seq<Entry>)
    ensures |r| == |es|
    ensures forall i :: 0 <= i < |es| ==> r[i] == es[i].(deps := RefreshDeps(es[i].deps, key, s))
  {
    seq(|es|, i requires 0 <= i < |es| => es[i].(deps := RefreshDeps(es[i].deps, key, s)))
  }

  function DoHeartbeat(es: seq<Entry>, name: string): Outcome {
    if !Has(es, Key(name)) then Outcome(es, [])
    else Outcome(RefreshAll(es, Key(name), Get(es, Key(name)).state), [])
  }

  /** One definition of the built-in list: register it, mark it and activate it. */
  function DoBuiltin(es: seq<Entry>, d: Definition): Outcome {
    var first := DoRegister(es, d);
    if first.events == [] then first
    else
      var n := |es|;
      var marked := first.entries[n := first.entries[n].(isBuiltin := true)];
      var second := DoActivate(marked, d.name);
      Outcome(second.entries, first.events + second.events)
  }

  function Step(es: seq<Entry>, op: Op): Outcome {
    match op
    case Register(d) => DoRegister(es, d)
    case Unregister(name) => DoUnregister(es, name)
    case SetState(name, s) => DoSetState(es, name, s)
    case AddDependency(name, dep) => DoAddDependency(es, name, dep)
    case Activate(name) => DoActivate(es, name)
    case Heartbeat(name) => DoHeartbeat(es, name)
    case Builtin(d) => DoBuiltin(es, d)
  }

  /** The entries and all events after a run from the empty registry. */
  function Run(ops: seq<Op>): Outcome {
    if ops == [] then Outcome([], [])
    else
      var before := Run(ops[..|ops| - 1]);
      var s := Step(before.entries, ops[|ops| - 1]);
      Outcome(s.entries, before.events + s.events)
  }
}
