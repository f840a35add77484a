/**
 The registry itself: a fixed array of entries changed in place.

 The ghost history records the operations performed, and `Valid` says that the array and the events
 are exactly what `RegistrySpec.Run` gives for that history, so the results of `RegistryRuns` hold
 of the object in every reachable state.
 */
module RegistryTable {
  import opened CText
  import opened RegistrySpec
  import opened RegistryRuns

  datatype Status = Done | TableFull | Duplicate | NotFound | DepsNotReady

  lemma RunSnoc(history: seq<Op>, op: Op)
    ensures Run(history + [op]).entries == Step(Run(history).entries, op).entries
    ensures Run(history + [op]).events == Run(history).events + Step(Run(history).entries, op).events
  {
    hide Step;
    assert (history + [op])[..|history|] == history;
  }

  /** Comparing a stored name with strncmp is comparing it with the key. */
  lemma NameMatches(stored: string, name: string)
    requires |stored| <= KEY_LENGTH
    ensures StrnEqual(stored, name, KEY_LENGTH) <==> stored == Key(name)
  {
    StrnEqualIsPrefixEquality(stored, name, KEY_LENGTH);
  }

  /** The entries that satisfy a predicate, in order. */
  function Filter(es: seq<Entry>, test: Entry -> bool): (r: seq<Entry>)
    ensures |r| <= |es|
  {
    if es == [] then []
    else
      var n := |es| - 1;
      Filter(es[..n], test) + if test(es[n]) then [es[n]] else []
  }

  lemma {:induction false} FilterPrefix(es: seq<Entry>, test: Entry -> bool, i: nat)
    requires i <= |es|
    ensures Filter(es[..i], test) <= Filter(es, test)
    decreases |es|
  {
    if i < |es| {
      FilterPrefix(es[..|es| - 1], test, i);
      assert es[..|es| - 1][..i] == es[..i];
    } else {
      assert es[..i] == es;
    }
  }

  lemma FilterSnoc(es: seq<Entry>, e: Entry, test: Entry -> bool)
    ensures Filter(es + [e], test) == Filter(es, test) + if test(e) then [e] else []
  {
    assert (es + [e])[..|es|] == es;
  }

  lemma FilterNone(test: Entry -> bool)
    ensures Filter([], test) == []
  {
  }

  /** What selecting means: each entry is taken or left by itself, and the order is kept. */
  lemma {:induction false} FilterMeans(a: seq<Entry>, b: seq<Entry>, e: Entry, test: Entry -> bool)
    ensures Filter([e], test) == if test(e) then [e] else []
    ensures Filter(a + b, test) == Filter(a, test) + Filter(b, test)
    decreases |b|
  {
    hide Filter;
    FilterNone(test);
    FilterSnoc([], e, test);
    assert [] + [e] == [e];
    if b == [] {
      assert a + b == a;
    } else {
      var n := |b| - 1;
      FilterMeans(a, b[..n], e, test);
      FilterSnoc(a + b[..n], b[n], test);
      FilterSnoc(b[..n], b[n], test);
      assert b[..n] + [b[n]] == b && a + b[..n] + [b[n]] == a + b;
    }
  }

  /** Once all hits are found, the rest of the table adds none. */
  lemma NoMoreHits(es: seq<Entry>, test: Entry -> bool, i: nat, found: seq<Entry>)
    requires i <= |es| && found == Filter(es[..i], test)
    requires i == |es| || |found| == |Filter(es, test)|
    ensures found == Filter(es, test)
  {
    FilterPrefix(es, test, i);
    assert es[..|es|] == es;
  }

  lemma DepNames(es: seq<Entry>, i: nat)
    requires WellFormed(es) && i < |es|
    ensures forall k :: 0 <= k < |es[i].deps| ==> |es[i].deps[k].name| <= KEY_LENGTH
  {
  }

  /** An entry whose key is new is found at the end. */
  lemma FoundLast(es: seq<Entry>, e: Entry)
    requires !Has(es, e.name)
    ensures IndexOf(es + [e], e.name) == |es|
  {
    hide IndexOf;
    assert (es + [e])[|es|] == e;
    assert forall j :: 0 <= j < |es| ==> (es + [e])[j] == es[j];
  }

  class Registry {
    const entries: array<Entry>
    var count: nat
    const callback: bool
    ghost var events: seq<Event>
    ghost var history: seq<Op>

    ghost predicate Valid()
      reads this, entries
    {
      && entries.Length == MAX_ENTRIES && count <= MAX_ENTRIES
      && WellFormed(entries[..count])
      && entries[..count] == Run(history).entries
      && (callback ==> events == Run(history).events)
    }

    constructor (withCallback: bool)
      ensures Valid() && history == [] && callback == withCallback && fresh(entries)
    {
      var blank := Entry("", 0, 0, 0, UNREGISTERED, [], false);
      entries := new Entry[MAX_ENTRIES](_ => blank);
      count, callback, events, history := 0, withCallback, [], [];
    }

    /** The entry with the name's key. */
    method Find(name: string) returns (r: Option<Entry>)
      requires Valid()
      ensures r == if Has(entries[..count], Key(name)) then Some(Get(entries[..count], Key(name))) else None
    {
      hide IndexOf, Run, WellFormed;
      var i := ScanFor(name);
      r := if i < count then Some(entries[i]) else None;
    }

    /** The earliest registered usable entry of a type. */
    method FindByType(kind: int) returns (r: Option<Entry>)
      requires Valid()
      ensures r.None? ==> forall j :: 0 <= j < count ==> !(entries[j].kind == kind && Usable(entries[j].state))
      ensures r.Some? ==>
                exists i :: 0 <= i < count && r.value == entries[i]
                            && entries[i].kind == kind && Usable(entries[i].state)
                            && forall j :: 0 <= j < i ==> !(entries[j].kind == kind && Usable(entries[j].state))
    {
      hide Run, WellFormed;
      for i := 0 to count
        invariant forall j :: 0 <= j < i ==> !(entries[j].kind == kind && Usable(entries[j].state))
      {
        if entries[i].kind == kind && Usable(entries[i].state) {
          return Some(entries[i]);
        }
      }
      return None;
    }

    /** The earliest registered usable entry that offers all required capabilities. */
    method FindByCapability(required: bv32) returns (r: Option<Entry>)
      requires Valid()
      ensures r.None? ==>
                forall j :: 0 <= j < count ==>
                  !(entries[j].capabilities & required == required && Usable(entries[j].state))
      ensures r.Some? ==>
                exists i :: 0 <= i < count && r.value == entries[i]
                            && entries[i].capabilities & required == required && Usable(entries[i].state)
                            && forall j :: 0 <= j < i ==>
                                 !(entries[j].capabilities & required == required && Usable(entries[j].state))
    {
      hide Run, WellFormed;
      for i := 0 to count
        invariant forall j :: 0 <= j < i ==>
                    !(entries[j].capabilities & required == required && Usable(entries[j].state))
      {
        if entries[i].capabilities & required == required && Usable(entries[i].state) {
          return Some(entries[i]);
        }
      }
      return None;
    }

    /** The first pass: how many entries match. */
    method CountMatches(test: Entry -> bool) returns (hits: nat)
      requires Valid()
      ensures hits == |Filter(entries[..count], test)|
    {
      hide Run, WellFormed;
      hits := 0;
      for i := 0 to count
        invariant hits == |Filter(entries[..i], test)|
      {
        assert entries[..i + 1][..i] == entries[..i];
        if test(entries[i]) {
          hits := hits + 1;
        }
      }
    }

    /** Copies the matching entries in two passes: count, allocate, fill. */
    method Select(test: Entry -> bool) returns (found: seq<Entry>)
      requires Valid()
      ensures found == Filter(entries[..count], test)
    {
      hide Run, WellFormed;
      ghost var all := entries[..count];
      var hits := CountMatches(test);
      if hits == 0 {
        return [];
      }
      found := [];
      var i := 0;
      while i < count && |found| < hits
        invariant i <= count
        invariant found == Filter(all[..i], test)
        decreases count - i
      {
        assert all[..i + 1][..i] == all[..i];
        if test(entries[i]) {
          found := found + [entries[i]];
        }
        i := i + 1;
      }
      FilterPrefix(all, test, i);
      NoMoreHits(all, test, i, found);
    }

    /** Adds an entry at the end unless the table is full or its key is taken. */
    method Register(d: Definition) returns (r: Status)
      requires Valid()
      modifies this`count, this`events, this`history, entries
      ensures Valid() && history == old(history) + [Op.Register(d)]
      ensures r == if old(count) >= MAX_ENTRIES then TableFull
                   else if Has(old(entries[..count]), Key(d.name)) then Duplicate
                   else Done
      ensures count == old(count) + if r == Done then 1 else 0
      ensures r == Done ==>
                entries[old(count)] == Entry(Key(d.name), d.category, d.kind, d.capabilities, REGISTERED, [], false)
    {
      hide IndexOf, Run, WellFormed;
      ghost var es := entries[..count];
      RunSnoc(history, Op.Register(d));
      StepKeepsOrder(es, Op.Register(d));
      history := history + [Op.Register(d)];
      if count >= MAX_ENTRIES {
        return TableFull;
      }
      var i := ScanFor(d.name);
      if i < count {
        return Duplicate;
      }
      entries[count] := Entry(Truncate(d.name, KEY_LENGTH), d.category, d.kind, d.capabilities, REGISTERED, [], false);
      count := count + 1;
      if callback {
        events := events + [Event(RegisterEvent, d.name, UNREGISTERED, REGISTERED)];
      }
      assert entries[..count] == es + [NewEntry(d)];
      return Done;
    }

    /** Moves the entries after `i` down by one. */
    method CloseGap(i: nat)
      requires i < count <= entries.Length
      modifies this`count, entries
      ensures count == old(count) - 1
      ensures entries[..count] == old(entries[..count])[..i] + old(entries[..count])[i + 1..]
    {
      forall j | i <= j < count - 1 {
        entries[j] := entries[j + 1];
      }
      count := count - 1;
    }

    /** Removes an entry and moves the later ones down by one. */
    method Unregister(name: string) returns (r: Status)
      requires Valid()
      modifies this`count, this`events, this`history, entries
      ensures Valid() && history == old(history) + [Op.Unregister(name)]
      ensures r == if Has(old(entries[..count]), Key(name)) then Done else NotFound
    {
      hide IndexOf, Run, WellFormed;
      ghost var es := entries[..count];
      RunSnoc(history, Op.Unregister(name));
      StepKeepsOrder(es, Op.Unregister(name));
      var i := ScanFor(name);
      history := history + [Op.Unregister(name)];
      if i == count {
        return NotFound;
      }
      var before := entries[i].state;
      CloseGap(i);
      if callback {
        events := events + [Event(UnregisterEvent, name, before, UNREGISTERED)];
      }
      return Done;
    }

    /** Sets a state and reports the change. */
    method PutState(i: nat, name: string, s: State)
      requires i < count <= entries.Length
      modifies this`events, entries
      ensures entries[..count] == old(entries[..count])[i := old(entries[i]).(state := s)]
      ensures callback ==> events == old(events) + [Event(StateEvent, name, old(entries[i]).state, s)]
    {
      var before := entries[i].state;
      entries[i] := entries[i].(state := s);
      if callback {
        events := events + [Event(StateEvent, name, before, s)];
      }
    }

    method SetState(name: string, s: State) returns (r: Status)
      requires Valid()
      modifies this`events, this`history, entries
      ensures Valid() && history == old(history) + [Op.SetState(name, s)]
      ensures r == if Has(old(entries[..count]), Key(name)) then Done else NotFound
    {
      hide IndexOf, Run, WellFormed;
      RunSnoc(history, Op.SetState(name, s));
      StepKeepsOrder(entries[..count], Op.SetState(name, s));
      var i := ScanFor(name);
      history := history + [Op.SetState(name, s)];
      if i == count {
        return NotFound;
      }
      PutState(i, name, s);
      return Done;
    }

    /** Puts an entry out of service without removing it. */
    method Deactivate(name: string) returns (r: Status)
      requires Valid()
      modifies this`events, this`history, entries
      ensures Valid() && history == old(history) + [Op.SetState(name, READY)]
      ensures r == if Has(old(entries[..count]), Key(name)) then Done else NotFound
    {
      r := SetState(name, READY);
    }

    method AddDependency(name: string, dep: string) returns (r: Status)
      requires Valid()
      modifies this`history, entries
      ensures Valid() && history == old(history) + [Op.AddDependency(name, dep)]
      ensures r == if !Has(old(entries[..count]), Key(name)) then NotFound
                   else if |Get(old(entries[..count]), Key(name)).deps| >= MAX_DEPS then TableFull
                   else Done
    {
      hide IndexOf, Run, WellFormed;
      RunSnoc(history, Op.AddDependency(name, dep));
      StepKeepsOrder(entries[..count], Op.AddDependency(name, dep));
      var i := ScanFor(name);
      history := history + [Op.AddDependency(name, dep)];
      if i == count {
        return NotFound;
      }
      if |entries[i].deps| >= MAX_DEPS {
        return TableFull;
      }
      entries[i] := entries[i].(deps := entries[i].deps + [Dependency(Truncate(dep, KEY_LENGTH), UNREGISTERED)]);
      return Done;
    }

    /** Whether every cached dependency state is usable. */
    method CheckDeps(e: Entry) returns (ready: bool)
      ensures ready == DepsReady(e)
    {
      for j := 0 to |e.deps|
        invariant forall k :: 0 <= k < j ==> Usable(e.deps[k].state)
      {
        if e.deps[j].state != ACTIVE && e.deps[j].state != READY {
          return false;
        }
      }
      return true;
    }

    method Activate(name: string) returns (r: Status)
      requires Valid()
      modifies this`events, this`history, entries
      ensures Valid() && history == old(history) + [Op.Activate(name)]
      ensures r == if !Has(old(entries[..count]), Key(name)) then NotFound
                   else if DepsReady(Get(old(entries[..count]), Key(name))) then Done
                   else DepsNotReady
    {
      hide IndexOf, Run, WellFormed, DepsReady;
      RunSnoc(history, Op.Activate(name));
      StepKeepsOrder(entries[..count], Op.Activate(name));
      var i := ScanFor(name);
      history := history + [Op.Activate(name)];
      if i == count {
        return NotFound;
      }
      var ready := CheckDeps(entries[i]);
      if !ready {
        PutState(i, name, ERROR);
        return DepsNotReady;
      }
      PutState(i, name, ACTIVE);
      return Done;
    }

    /** Stores the entry's present state wherever the entry is a dependency. */
    method Heartbeat(name: string) returns (r: Status)
      requires Valid()
      modifies this`history, entries
      ensures Valid() && history == old(history) + [Op.Heartbeat(name)]
      ensures r == if Has(old(entries[..count]), Key(name)) then Done else NotFound
    {
      hide IndexOf, Run, WellFormed, RefreshDeps;
      ghost var es := entries[..count];
      RunSnoc(history, Op.Heartbeat(name));
      StepKeepsOrder(es, Op.Heartbeat(name));
      var at := ScanFor(name);
      history := history + [Op.Heartbeat(name)];
      if at == count {
        return NotFound;
      }
      ghost var s := entries[at].state;
      for i := 0 to count
        modifies entries
        invariant forall j :: 0 <= j < i ==> entries[j] == es[j].(deps := RefreshDeps(es[j].deps, Key(name), s))
        invariant forall j :: i <= j < count ==> entries[j] == es[j]
      {
        DepNames(es, i);
        RefreshEntry(i, name, at);
      }
      assert entries[..count] == RefreshAll(es, Key(name), s);
      return Done;
    }

    /** Refreshes the cached states of one entry. */
    method RefreshEntry(i: nat, name: string, at: nat)
      requires i < count <= entries.Length && at < count
      requires forall k :: 0 <= k < |entries[i].deps| ==> |entries[i].deps[k].name| <= KEY_LENGTH
      modifies entries
      ensures entries[i] ==
              old(entries[i]).(deps := RefreshDeps(old(entries[i]).deps, Key(name), old(entries[at]).state))
      ensures forall j :: 0 <= j < entries.Length && j != i ==> entries[j] == old(entries[j])
    {
      ghost var e, s := entries[i], entries[at].state;
      for j := 0 to |entries[i].deps|
        invariant |entries[i].deps| == |e.deps| && entries[i] == e.(deps := entries[i].deps)
        invariant entries[at].state == s
        invariant forall k :: 0 <= k < j ==> entries[i].deps[k] == Refresh(e.deps[k], Key(name), s)
        invariant forall k :: j <= k < |e.deps| ==> entries[i].deps[k] == e.deps[k]
        invariant forall k :: 0 <= k < entries.Length && k != i ==> entries[k] == old(entries[k])
      {
        var d := entries[i].deps[j];
        NameMatches(d.name, name);
        if StrnEqual(d.name, name, KEY_LENGTH) {
          entries[i] := entries[i].(deps := entries[i].deps[j := d.(state := entries[at].state)]);
        }
      }
      assert entries[i].deps == RefreshDeps(e.deps, Key(name), s);
    }

    /** One built-in definition: registered, marked and, having no dependencies, activated. */
    method RegisterBuiltin(d: Definition) returns (added: bool)
      requires Valid()
      modifies this`count, this`events, this`history, entries
      ensures Valid() && history == old(history) + [Op.Builtin(d)]
      ensures added == (old(count) < MAX_ENTRIES && !Has(old(entries[..count]), Key(d.name)))
      ensures count == old(count) + if added then 1 else 0
      ensures added ==>
                entries[old(count)] == Entry(Key(d.name), d.category, d.kind, d.capabilities, ACTIVE, [], true)
    {
      hide IndexOf, Run, WellFormed;
      ghost var es, past := entries[..count], history;
      RunSnoc(past, Op.Builtin(d));
      RunSnoc(past, Op.Register(d));
      StepKeepsOrder(es, Op.Builtin(d));
      var r := Register(d);
      history := past + [Op.Builtin(d)];
      if r != Done {
        return false;
      }
      ghost var first := entries[..count];
      FoundLast(es, NewEntry(d));
      var i := ScanFor(d.name);
      entries[i] := entries[i].(isBuiltin := true);
      assert entries[..count] == first[i := first[i].(isBuiltin := true)];
      FoundLast(es, first[i].(isBuiltin := true));
      NoDepsReady(entries[i]);
      var ready := CheckDeps(entries[i]);
      PutState(i, d.name, if ready then ACTIVE else ERROR);
      return true;
    }

    /** Registers a list of built-in definitions; the result counts those that were new. */
    method RegisterBuiltins(defs: seq<Definition>) returns (registered: nat)
      requires Valid()
      modifies this`count, this`events, this`history, entries
      ensures Valid() && registered == count - old(count)
      ensures history == old(history) + seq(|defs|, i requires 0 <= i < |defs| => Op.Builtin(defs[i]))
    {
      hide Run, WellFormed;
      registered := 0;
      for i := 0 to |defs|
        invariant Valid() && registered == count - old(count)
        invariant history == old(history) + seq(i, j requires 0 <= j < i => Op.Builtin(defs[j]))
      {
        var added := RegisterBuiltin(defs[i]);
        if added {
          registered := registered + 1;
        }
      }
    }

    /** The scan over the names, on an array whose present contents are well formed. */
    method ScanFor(name: string) returns (i: nat)
      requires count <= entries.Length && WellFormed(entries[..count])
      ensures i == IndexOf(entries[..count], Key(name))
    {
      hide IndexOf, DepsFormed, StrnEqual, Key;
      i := 0;
      while i < count
        invariant i <= count
        invariant forall j :: 0 <= j < i ==> entries[j].name != Key(name)
      {
        assert entries[..count][i] == entries[i];
        NameMatches(entries[i].name, name);
        if StrnEqual(entries[i].name, name, KEY_LENGTH) {
          return;
        }
        i := i + 1;
      }
    }
  }
}
