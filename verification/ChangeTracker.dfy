/** `src/change_tracker.rs`: a log of the components added, removed and modified since it was last
    cleared, kept by a wrapper around the simple world. */
module ChangeTracking {
  import opened Collections
  import opened SimpleWorlds

  datatype Log = Log(added: seq<Key>, removed: seq<Key>, modified: seq<Key>)

  /** A world and its log. For the specification also: what was stored when the log was cleared,
      and the removals since then that uncovered a second copy in the sparse map. */
  datatype Tracked = Tracked(world: SimpleState, log: Log, baseline: map<Key, Bytes>, uncovered: multiset<Key>)

  // ----- what each call records -----

  function KeysOf(e: EntityId, types: seq<Symbol>): seq<Key> {
    if types == [] then [] else KeysOf(e, types[..|types| - 1]) + [(e, types[|types| - 1])]
  }

  function LogAdd(l: Log, s: SimpleState, e: EntityId, t: Symbol): Log {
    if Stored(s, e, t) then l.(modified := l.modified + [(e, t)]) else l.(added := l.added + [(e, t)])
  }

  function LogRemove(l: Log, s: SimpleState, e: EntityId, t: Symbol): Log {
    if Stored(s, e, t) then l.(removed := l.removed + [(e, t)]) else l
  }

  function LogDespawn(l: Log, s: SimpleState, e: EntityId): Log {
    if e in s.lists then l.(removed := l.removed + KeysOf(e, s.lists[e])) else l
  }

  datatype TrackedCall = Call(c: SimpleWorlds.Call, storage: ComponentStorage) | Clear

  function TrackedStep(x: Tracked, call: TrackedCall): Tracked {
    match call
    case Clear => Tracked(x.world, Log([], [], []), Model(x.world), multiset{})
    case Call(c, storage) =>
      var s := x.world;
      var x' := x.(world := Step(s, c, _ => storage));
      match c
      case Spawn => x'
      case Add(e, t, data) => x'.(log := LogAdd(x.log, s, e, t))
      case Remove(e, t) =>
        x'.(log := LogRemove(x.log, s, e, t),
            uncovered := if (e, t) in s.components && (e, t) in s.sparse then x.uncovered + multiset{(e, t)}
              else x.uncovered)
      case Despawn(e) => x'.(log := LogDespawn(x.log, s, e))
  }

  function TrackedRun(x: Tracked, calls: seq<TrackedCall>): Tracked {
    if calls == [] then x else TrackedStep(TrackedRun(x, calls[..|calls| - 1]), calls[|calls| - 1])
  }

  function Count(log: seq<Key>, k: Key): int {
    multiset(log)[k]
  }

  function Present(m: map<Key, Bytes>, k: Key): int {
    if k in m then 1 else 0
  }

  // ----- what the log says -----

  lemma {:induction false} KeysOfAt(e: EntityId, types: seq<Symbol>, i: nat)
    requires i < |types|
    ensures |KeysOf(e, types)| == |types| && KeysOf(e, types)[i] == (e, types[i])
  {
    if i < |types| - 1 {
      KeysOfAt(e, types[..|types| - 1], i);
    } else if i > 0 {
      KeysOfAt(e, types[..|types| - 1], i - 1);
    }
  }

  lemma KeysOfNext(log: seq<Key>, e: EntityId, types: seq<Symbol>, i: nat)
    requires i < |types|
    ensures log + KeysOf(e, types[..i + 1]) == log + KeysOf(e, types[..i]) + [(e, types[i])]
  {
    assert types[..i + 1][..i] == types[..i];
  }

  /** What each call appends to the log: an add the key as added if the world had it in neither map and
      as modified if it had; a remove the key if the world had it; a despawn the listed components in
      order; a spawn nothing; and a clear empties it. */
  lemma TrackedStepRecords(x: Tracked, call: TrackedCall)
    ensures var l, l', s := x.log, TrackedStep(x, call).log, x.world;
            match call
            case Clear => l' == Log([], [], []) && TrackedStep(x, call).world == s
            case Call(c, storage) =>
              match c
              case Spawn => l' == l
              case Add(e, t, data) =>
                && l'.removed == l.removed
                && ((e, t) in s.components || (e, t) in s.sparse ==>
                      l'.added == l.added && l'.modified == l.modified + [(e, t)])
                && ((e, t) !in s.components && (e, t) !in s.sparse ==>
                      l'.added == l.added + [(e, t)] && l'.modified == l.modified)
              case Remove(e, t) =>
                && l'.added == l.added && l'.modified == l.modified
                && ((e, t) in s.components || (e, t) in s.sparse ==> l'.removed == l.removed + [(e, t)])
                && ((e, t) !in s.components && (e, t) !in s.sparse ==> l'.removed == l.removed)
              case Despawn(e) =>
                && l'.added == l.added && l'.modified == l.modified
                && (e !in s.lists ==> l'.removed == l.removed)
                && (e in s.lists ==>
                      && |l'.removed| == |l.removed| + |s.lists[e]| && l'.removed[..|l.removed|] == l.removed
                      && forall i | 0 <= i < |s.lists[e]| :: l'.removed[|l.removed| + i] == (e, s.lists[e][i]))
  {
    if call.Call? && call.c.Despawn? && call.c.e in x.world.lists {
      var e := call.c.e;
      var types := x.world.lists[e];
      forall i | 0 <= i < |types|
        ensures |KeysOf(e, types)| == |types| && KeysOf(e, types)[i] == (e, types[i])
      {
        KeysOfAt(e, types, i);
      }
      if types == [] {
        assert KeysOf(e, types) == [];
      }
    }
  }

  /** The call adds to a key that is stored already. */
  predicate Overwriting(s: SimpleState, c: SimpleWorlds.Call, k: Key) {
    c.Add? && (c.e, c.t) == k && (k in s.components || k in s.sparse)
  }

  /** How many calls since the last clear did so. */
  ghost function Overwrites(x: Tracked, calls: seq<TrackedCall>, k: Key): nat {
    if calls == [] then 0
    else
      var front, last := calls[..|calls| - 1], calls[|calls| - 1];
      var s := TrackedRun(x, front).world;
      if last.Clear? then 0
      else
        Overwrites(x, front, k) + (if Overwriting(s, last.c, k) then 1 else 0)
  }

  ghost predicate ClearedIn(calls: seq<TrackedCall>) {
    exists i :: 0 <= i < |calls| && calls[i].Clear?
  }

  lemma CountSnoc(log: seq<Key>, x: Key, k: Key)
    ensures Count(log + [x], k) == Count(log, k) + (if x == k then 1 else 0)
  {
  }

  lemma ModificationsNext(x: Tracked, call: TrackedCall, k: Key)
    ensures Count(TrackedStep(x, call).log.modified, k) ==
            if call.Clear? then 0
            else
              Count(x.log.modified, k)
              + (if Overwriting(x.world, call.c, k) then 1 else 0)
  {
    if call.Call? && call.c.Add? {
      CountSnoc(x.log.modified, (call.c.e, call.c.t), k);
    }
  }

  lemma ClearedNext(calls: seq<TrackedCall>)
    requires calls != []
    ensures ClearedIn(calls) <==> ClearedIn(calls[..|calls| - 1]) || calls[|calls| - 1].Clear?
  {
    var front, last := calls[..|calls| - 1], calls[|calls| - 1];
    assert calls == front + [last];
    if i :| 0 <= i < |front| && front[i].Clear? {
      assert calls[i].Clear?;
    }
  }

  /** The modifications in the log are exactly those, each once. */
  lemma {:induction false} ModificationsAreOverwrites(x: Tracked, calls: seq<TrackedCall>, k: Key)
    ensures Count(TrackedRun(x, calls).log.modified, k)
         == Overwrites(x, calls, k) + (if ClearedIn(calls) then 0 else Count(x.log.modified, k))
  {
    if calls != [] {
      var front, last := calls[..|calls| - 1], calls[|calls| - 1];
      ModificationsAreOverwrites(x, front, k);
      ClearedNext(calls);
      ModificationsNext(TrackedRun(x, front), last, k);
    }
  }

  // ----- presence is conserved -----

  /** Additions less removals account for what is present now and was not before, but for the
      removals that uncovered a second copy. */
  ghost predicate BalancedAt(x: Tracked, k: Key) {
    Count(x.log.added, k) - Count(x.log.removed, k) + x.uncovered[k]
      == Present(Model(x.world), k) - Present(x.baseline, k)
  }

  ghost predicate Balanced(x: Tracked) {
    Ok(x.world) && forall k :: BalancedAt(x, k)
  }

  lemma {:induction false} KeysOfCount(e: EntityId, types: seq<Symbol>, k: Key)
    requires NoDup(types)
    ensures Count(KeysOf(e, types), k) == if k.0 == e && k.1 in types then 1 else 0
  {
    if types != [] {
      var front, last := types[..|types| - 1], types[|types| - 1];
      assert types == front + [last];
      KeysOfCount(e, front, k);
      assert last !in front;
      assert k == (k.0, k.1);
    }
  }

  lemma AddBalances(x: Tracked, e: EntityId, t: Symbol, data: Bytes, storage: ComponentStorage, k: Key)
    requires BalancedAt(x, k)
    ensures BalancedAt(TrackedStep(x, Call(Add(e, t, data), storage)), k)
  {
    var x' := TrackedStep(x, Call(Add(e, t, data), storage));
    assert k in Model(x'.world) <==> k in Model(x.world) || k == (e, t);
  }

  lemma RemoveBalances(x: Tracked, e: EntityId, t: Symbol, storage: ComponentStorage, k: Key)
    requires BalancedAt(x, k)
    ensures BalancedAt(TrackedStep(x, Call(Remove(e, t), storage)), k)
  {
    var x' := TrackedStep(x, Call(Remove(e, t), storage));
    var s := x.world;
    PresenceAfterRemove(s, e, t);
    assert k in Model(x'.world) <==> k in Model(s) && (k != (e, t) || (k in s.components && k in s.sparse));
    if Stored(s, e, t) {
      CountSnoc(x.log.removed, (e, t), k);
    }
  }

  lemma DespawnBalances(x: Tracked, e: EntityId, storage: ComponentStorage, k: Key)
    requires Ok(x.world) && BalancedAt(x, k)
    ensures BalancedAt(TrackedStep(x, Call(Despawn(e), storage)), k)
  {
    var x' := TrackedStep(x, Call(Despawn(e), storage));
    var s := x.world;
    if e in s.lists {
      KeysOfCount(e, s.lists[e], k);
      assert Count(x'.log.removed, k) == Count(x.log.removed, k) + Count(KeysOf(e, s.lists[e]), k);
      assert k.0 == e && k.1 in s.lists[e] ==> Stored(s, k.0, k.1);
    }
    assert k in Model(x'.world) <==> k in Model(s) && !(k.0 == e && Listed(s, e, k.1));
  }

  lemma StepBalances(x: Tracked, call: TrackedCall)
    requires Balanced(x)
    ensures Balanced(TrackedStep(x, call))
  {
    match call {
      case Clear =>
      case Call(c, storage) =>
        forall k
          ensures BalancedAt(TrackedStep(x, call), k)
        {
          match c {
            case Spawn => assert BalancedAt(x, k);
            case Add(e, t, data) => AddBalances(x, e, t, data, storage, k);
            case Remove(e, t) => RemoveBalances(x, e, t, storage, k);
            case Despawn(e) => DespawnBalances(x, e, storage, k);
          }
        }
        match c {
          case Spawn =>
          case Add(e, t, data) => AddedKeepsOk(x.world, e, t, data, storage);
          case Remove(e, t) => RemovedKeepsOk(x.world, e, t);
          case Despawn(e) => DespawnedKeepsOk(x.world, e);
        }
    }
  }

  /** After any run the log balances for every key, whatever storage kinds were used. */
  lemma {:induction false} RunBalances(x: Tracked, calls: seq<TrackedCall>)
    requires Balanced(x)
    ensures Balanced(TrackedRun(x, calls))
  {
    if calls != [] {
      RunBalances(x, calls[..|calls| - 1]);
      StepBalances(TrackedRun(x, calls[..|calls| - 1]), calls[|calls| - 1]);
    }
  }

  /** A removal that meets a copy in both maps takes the table's and uncovers the sparse one. */
  predicate Uncovers(s: SimpleState, call: TrackedCall, k: Key) {
    call.Call? && call.c == Remove(k.0, k.1) && k in s.components && k in s.sparse
  }

  predicate NoClearFrom(calls: seq<TrackedCall>, i: nat) {
    forall j | i <= j < |calls| :: calls[j].Call?
  }

  /** Call `i`, a removal since the last clear, met the key in both maps. */
  ghost predicate MetBothAt(x: Tracked, calls: seq<TrackedCall>, i: nat, k: Key)
    requires i < |calls|
  {
    Uncovers(TrackedRun(x, calls[..i]).world, calls[i], k) && NoClearFrom(calls, i)
  }

  ghost predicate MetBoth(x: Tracked, calls: seq<TrackedCall>, k: Key) {
    exists i: nat :: i < |calls| && MetBothAt(x, calls, i, k)
  }

  lemma MetBothEarlier(x: Tracked, calls: seq<TrackedCall>, i: nat, k: Key)
    requires i + 1 < |calls|
    ensures MetBothAt(x, calls, i, k) <==> MetBothAt(x, calls[..|calls| - 1], i, k) && calls[|calls| - 1].Call?
  {
    var front, last := calls[..|calls| - 1], calls[|calls| - 1];
    assert front[..i] == calls[..i];
    assert NoClearFrom(calls, i) <==> NoClearFrom(front, i) && last.Call? by {
      assert calls == front + [last];
    }
  }

  lemma MetBothNext(x: Tracked, calls: seq<TrackedCall>, k: Key)
    requires calls != []
    ensures var front, last := calls[..|calls| - 1], calls[|calls| - 1];
            MetBoth(x, calls, k)
            <==> last.Call? && (MetBoth(x, front, k) || Uncovers(TrackedRun(x, front).world, last, k))
  {
    var n := |calls| - 1;
    forall i: nat | i < n
      ensures MetBothAt(x, calls, i, k) <==> MetBothAt(x, calls[..n], i, k) && calls[n].Call?
    {
      MetBothEarlier(x, calls, i, k);
    }
    assert MetBothAt(x, calls, n, k) <==> Uncovers(TrackedRun(x, calls[..n]).world, calls[n], k);
  }

  lemma UncoveredNext(x: Tracked, call: TrackedCall, k: Key)
    ensures k in TrackedStep(x, call).uncovered
       <==> call.Call? && (k in x.uncovered || Uncovers(x.world, call, k))
  {
    assert k == (k.0, k.1);
  }

  /** What a run uncovered is what a caller could have seen before each removal. */
  lemma {:induction false} UncoveredIffMetBoth(x: Tracked, calls: seq<TrackedCall>, k: Key)
    ensures k in TrackedRun(x, calls).uncovered
       <==> MetBoth(x, calls, k) || (k in x.uncovered && NoClearFrom(calls, 0))
  {
    if calls != [] {
      var front, last := calls[..|calls| - 1], calls[|calls| - 1];
      UncoveredIffMetBoth(x, front, k);
      MetBothNext(x, calls, k);
      UncoveredNext(TrackedRun(x, front), last, k);
      assert NoClearFrom(calls, 0) <==> NoClearFrom(front, 0) && last.Call? by {
        assert calls == front + [last];
      }
    }
  }

  /** Hence the log conserves a key's presence exactly when none of its removals since the clear
      met a copy in both maps. */
  lemma ConservedIffNothingUncovered(x: Tracked, calls: seq<TrackedCall>, k: Key)
    requires Balanced(x)
    ensures var r := TrackedRun(x, calls);
            Count(r.log.added, k) - Count(r.log.removed, k) == Present(Model(r.world), k) - Present(r.baseline, k)
            <==> !MetBoth(x, calls, k) && (k in x.uncovered ==> !NoClearFrom(calls, 0))
  {
    RunBalances(x, calls);
    UncoveredIffMetBoth(x, calls, k);
    assert BalancedAt(TrackedRun(x, calls), k);
  }

  /** A new world in which this happens: added to both storages and removed once, the component is
      still stored, but the log has as many removals of it as additions. */
  lemma MixedStorageUnbalancesTheLog(e: EntityId, t: Symbol, data: Bytes)
    ensures var x := Tracked(SimpleState(1, map[], map[], map[], 0), Log([], [], []), map[], multiset{});
            var r := TrackedRun(x, [Call(Add(e, t, data), Table), Call(Add(e, t, data), Sparse),
                                    Call(Remove(e, t), Table)]);
            && Balanced(x) && r.log == Log([(e, t)], [(e, t)], [(e, t)])
            && (e, t) in r.uncovered && (e, t) in Model(r.world) && (e, t) !in r.baseline
  {
    var x := Tracked(SimpleState(1, map[], map[], map[], 0), Log([], [], []), map[], multiset{});
    var add, again, remove := Call(Add(e, t, data), Table), Call(Add(e, t, data), Sparse), Call(Remove(e, t), Table);
    var x1, x2 := TrackedStep(x, add), TrackedStep(TrackedStep(x, add), again);
    assert TrackedRun(x, []) == x;
    assert TrackedRun(x, [add]) == x1 by {
      assert [add][..0] == [];
    }
    assert TrackedRun(x, [add, again]) == x2 by {
      assert [add, again][..1] == [add];
    }
    assert [add, again, remove][..2] == [add, again];
  }

  /** A log without entries means that nothing changed since it was cleared. */
  ghost predicate Quiet(x: Tracked) {
    x.log == Log([], [], []) ==> Model(x.world) == x.baseline
  }

  lemma StepStaysQuiet(x: Tracked, call: TrackedCall)
    requires Ok(x.world) && Quiet(x)
    ensures Quiet(TrackedStep(x, call))
  {
    var s := x.world;
    if call.Call? && call.c.Despawn? {
      var e := call.c.e;
      if e in s.lists {
        var types := s.lists[e];
        assert KeysOf(e, types) == KeysOf(e, types[..|types| - 1]) + [(e, types[|types| - 1])];
      } else {
        SweptNothing(s.components, e);
        SweptNothing(s.sparse, e);
      }
    }
  }

  lemma SweptNothing(m: map<Key, Bytes>, e: EntityId)
    ensures Swept(m, e, []) == m
  {
  }

  /** Without a recorded change since the clear, the world's meaning is what it was then. */
  lemma {:induction false} NothingRecordedNothingChanged(x: Tracked, calls: seq<TrackedCall>)
    requires Balanced(x) && Quiet(x)
    ensures Quiet(TrackedRun(x, calls))
  {
    if calls != [] {
      RunBalances(x, calls[..|calls| - 1]);
      NothingRecordedNothingChanged(x, calls[..|calls| - 1]);
      StepStaysQuiet(TrackedRun(x, calls[..|calls| - 1]), calls[|calls| - 1]);
    }
  }

  ghost predicate Respects(calls: seq<TrackedCall>, kind: Symbol -> ComponentStorage) {
    forall i | 0 <= i < |calls| && calls[i].Call? && calls[i].c.Add? :: calls[i].storage == kind(calls[i].c.t)
  }

  /** Which never happens when every type is always added with the same storage kind. */
  lemma {:induction false} OneKindUncoversNothing(x: Tracked, calls: seq<TrackedCall>, kind: Symbol -> ComponentStorage)
    requires SingleKind(x.world, kind) && x.uncovered == multiset{} && Respects(calls, kind)
    ensures SingleKind(TrackedRun(x, calls).world, kind) && TrackedRun(x, calls).uncovered == multiset{}
  {
    if calls != [] {
      var front, last := calls[..|calls| - 1], calls[|calls| - 1];
      OneKindUncoversNothing(x, front, kind);
      var s := TrackedRun(x, front).world;
      if last.Call? {
        match last.c {
          case Spawn =>
          case Add(e, t, data) => AddMeansOneUpdate(s, e, t, data, last.storage, kind);
          case Remove(e, t) => assert !((e, t) in s.components && (e, t) in s.sparse);
          case Despawn(e) =>
        }
      }
    }
  }

  // ----- the tracker -----

  class ChangeTracker {
    var added: seq<Key>
    var removed: seq<Key>
    var modified: seq<Key>

    ghost function Entries(): Log
      reads this
    {
      Log(added, removed, modified)
    }

    constructor ()
      ensures Entries() == Log([], [], [])
    {
      added, removed, modified := [], [], [];
    }

    method RecordAdd(e: EntityId, t: Symbol)
      modifies this`added
      ensures added == old(added) + [(e, t)]
    {
      added := added + [(e, t)];
    }

    method RecordRemove(e: EntityId, t: Symbol)
      modifies this`removed
      ensures removed == old(removed) + [(e, t)]
    {
      removed := removed + [(e, t)];
    }

    method RecordModify(e: EntityId, t: Symbol)
      modifies this`modified
      ensures modified == old(modified) + [(e, t)]
    {
      modified := modified + [(e, t)];
    }

    method Clear()
      modifies this`added, this`removed, this`modified
      ensures Entries() == Log([], [], [])
    {
      added, removed, modified := [], [], [];
    }

    /** How many changes are recorded: none exactly when the log is empty. */
    method ChangeCount() returns (count: nat)
      ensures count == |multiset(added) + multiset(removed) + multiset(modified)|
      ensures count == 0 <==> Entries() == Log([], [], [])
    {
      count := |added| + |removed| + |modified|;
    }
  }

  // ----- the tracked world -----

  class TrackedWorld {
    const world: SimpleWorld
    const tracker: ChangeTracker
    ghost var baseline: map<Key, Bytes>
    ghost var uncovered: multiset<Key>

    ghost function State(): Tracked
      reads this, world, tracker
    {
      Tracked(world.State(), tracker.Entries(), baseline, uncovered)
    }

    ghost predicate Valid()
      reads this, world, tracker
    {
      Balanced(State())
    }

    constructor (world: SimpleWorld)
      requires Ok(world.State())
      ensures Valid() && this.world == world && fresh(tracker) && State() == TrackedStep(State(), Clear)
    {
      this.world := world;
      tracker := new ChangeTracker();
      baseline := Model(world.State());
      uncovered := multiset{};
    }

    /** `tracker_mut().clear()`. */
    method ClearTracker()
      requires Valid()
      modifies this, tracker
      ensures Valid() && State() == TrackedStep(old(State()), Clear)
    {
      tracker.Clear();
      baseline := Model(world.State());
      uncovered := multiset{};
      StepBalances(old(State()), Clear);
    }

    method SpawnEntity() returns (id: EntityId)
      requires Valid()
      modifies world
      ensures Valid() && State() == TrackedStep(old(State()), Call(Spawn, Table))
      ensures id == old(world.nextEntityId) && world.nextEntityId == id + 1
    {
      id := world.SpawnEntity();
      StepBalances(old(State()), Call(Spawn, Table));
    }

    method AddComponent(e: EntityId, t: Symbol, data: Bytes)
      requires Valid()
      modifies world, tracker
      ensures Valid() && State() == TrackedStep(old(State()), Call(Add(e, t, data), Table))
    {
      AddComponentWithStorage(e, t, data, Table);
    }

    method AddComponentWithStorage(e: EntityId, t: Symbol, data: Bytes, storage: ComponentStorage)
      requires Valid()
      modifies world, tracker
      ensures Valid() && State() == TrackedStep(old(State()), Call(Add(e, t, data), storage))
      ensures if Stored(old(world.State()), e, t) then tracker.modified == old(tracker.modified) + [(e, t)]
              else tracker.added == old(tracker.added) + [(e, t)]
    {
      var existed := world.HasComponent(e, t);
      world.AddComponentWithStorage(e, t, data, storage);
      if existed {
        tracker.RecordModify(e, t);
      } else {
        tracker.RecordAdd(e, t);
      }
      StepBalances(old(State()), Call(Add(e, t, data), storage));
    }

    method RemoveComponent(e: EntityId, t: Symbol) returns (removed: bool)
      requires Valid()
      modifies this`uncovered, world, tracker
      ensures Valid() && State() == TrackedStep(old(State()), Call(Remove(e, t), Table))
      ensures removed == Stored(old(world.State()), e, t)
    {
      if (e, t) in world.components && (e, t) in world.sparseComponents {
        uncovered := uncovered + multiset{(e, t)};
      }
      removed := world.RemoveComponent(e, t);
      if removed {
        tracker.RecordRemove(e, t);
      }
      StepBalances(old(State()), Call(Remove(e, t), Table));
    }

    method RecordRemovals(e: EntityId, types: seq<Symbol>)
      modifies tracker`removed
      ensures tracker.removed == old(tracker.removed) + KeysOf(e, types)
    {
      ghost var before := tracker.removed;
      for i := 0 to |types|
        invariant tracker.removed == before + KeysOf(e, types[..i])
      {
        KeysOfNext(before, e, types, i);
        tracker.RecordRemove(e, types[i]);
      }
      assert types[..|types|] == types;
    }

    /** Records a removal for each listed component, then despawns. */
    method DespawnEntity(e: EntityId)
      requires Valid()
      modifies world, tracker
      ensures Valid() && State() == TrackedStep(old(State()), Call(Despawn(e), Table))
    {
      if e in world.entityComponents {
        RecordRemovals(e, world.entityComponents[e]);
      }
      assert tracker.Entries() == LogDespawn(old(tracker.Entries()), old(world.State()), e);
      world.DespawnEntity(e);
      StepBalances(old(State()), Call(Despawn(e), Table));
    }
  }
}
