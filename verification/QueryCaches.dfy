/** `src/archetype_world/query.rs` and `SimpleQueryCache` of `src/query.rs`: queries that exclude
    types, and caches that rescan only when the world's version has changed. */
module QueryCaches {
  import opened Collections
  import opened SimpleWorlds
  import opened EntityGroups
  import opened ArchetypeWorlds

  // ----- queries that exclude types -----

  ghost predicate HasOne(m: map<Key, Bytes>, types: seq<Symbol>, e: EntityId) {
    exists t :: t in types && (e, t) in m
  }

  ghost function WithNone(m: map<Key, Bytes>, excluded: seq<Symbol>, es: seq<EntityId>): set<EntityId> {
    set e | e in es && !HasOne(m, excluded, e)
  }

  /** The entities of the plain query that have no excluded component, in its order. */
  method ArchetypeQuery(world: ArchetypeWorld, required: seq<Symbol>, excluded: seq<Symbol>)
    returns (results: seq<EntityId>)
    requires world.Valid()
    ensures var all := QueryScan(world.Groups(), required, world.nextArchetypeId);
            results == Within(all, WithNone(world.Contents(), excluded, all))
    ensures NoDup(results)
    ensures forall e: EntityId :: e in results <==>
              Selected(world.Contents(), required, e) && !HasOne(world.Contents(), excluded, e)
    ensures forall e: EntityId :: e in results <==>
              && (exists k :: k in world.Contents() && k.0 == e)
              && (forall t | t in required :: (e, t) in world.Contents())
              && (forall t | t in excluded :: (e, t) !in world.Contents())
  {
    var candidates := world.Query(required);
    ExcludingIsExact(world.Contents(), excluded, candidates);
    if excluded == [] {
      KeepingAll(candidates, WithNone(world.Contents(), excluded, candidates));
      return candidates;
    }
    results := WithoutExcluded(world, candidates, excluded);
  }

  lemma ExcludingIsExact(m: map<Key, Bytes>, excluded: seq<Symbol>, es: seq<EntityId>)
    requires NoDup(es)
    ensures var kept := Within(es, WithNone(m, excluded, es));
            && NoDup(kept)
            && (forall e: EntityId :: e in kept <==> e in es && !HasOne(m, excluded, e))
  {
    var keep := WithNone(m, excluded, es);
    WithinNoDup(es, keep);
    WithinElems(es, keep);
    assert forall e: EntityId :: e in Within(es, keep) <==> e in Elems(es) * keep;
  }

  lemma ExcludeOne(m: map<Key, Bytes>, excluded: seq<Symbol>, es: seq<EntityId>, i: nat)
    requires i < |es|
    ensures var keep := WithNone(m, excluded, es);
            Within(es[..i + 1], keep) == if HasOne(m, excluded, es[i]) then Within(es[..i], keep)
              else Within(es[..i], keep) + [es[i]]
  {
    assert es[..i + 1] == es[..i] + [es[i]] && es[i] in es;
    WithinSnoc(es[..i], es[i], WithNone(m, excluded, es));
  }

  method WithoutExcluded(world: ArchetypeWorld, candidates: seq<EntityId>, excluded: seq<Symbol>)
    returns (results: seq<EntityId>)
    requires world.Valid()
    ensures results == Within(candidates, WithNone(world.Contents(), excluded, candidates))
  {
    ghost var keep := WithNone(world.Contents(), excluded, candidates);
    results := [];
    for i := 0 to |candidates|
      invariant results == Within(candidates[..i], keep)
    {
      ExcludeOne(world.Contents(), excluded, candidates, i);
      var exclude := HasAny(world, candidates[i], excluded);
      if !exclude {
        results := results + [candidates[i]];
      }
    }
    assert candidates[..|candidates|] == candidates;
  }

  method HasAny(world: ArchetypeWorld, e: EntityId, types: seq<Symbol>) returns (any: bool)
    requires world.Valid()
    ensures any <==> HasOne(world.Contents(), types, e)
  {
    for i := 0 to |types|
      invariant forall j | 0 <= j < i :: (e, types[j]) !in world.Contents()
    {
      var has := world.HasComponent(e, types[i]);
      if has {
        assert types[i] in types;
        return true;
      }
    }
    return false;
  }

  lemma KeepingAll<T>(s: seq<T>, keep: set<T>)
    requires Elems(s) <= keep
    ensures Within(s, keep) == s
  {
    if s != [] {
      assert s[|s| - 1] in Elems(s) && Elems(s[..|s| - 1]) <= Elems(s);
      KeepingAll(s[..|s| - 1], keep);
    }
  }

  // ----- the cache of archetype queries -----

  /** A new cache starts at the largest version, without results. */
  const U64_MAX: nat := 0xFFFF_FFFF_FFFF_FFFF

  datatype CacheState = CacheState(version: nat, results: Option<seq<EntityId>>)

  function Scan(w: GroupedState, required: seq<Symbol>): seq<EntityId> {
    QueryScan(w.groups, required, w.groups.nextId)
  }

  /** The cache is not ahead of the world, and at the world's version holds what a scan finds. */
  ghost predicate Coherent(c: CacheState, w: GroupedState, required: seq<Symbol>) {
    c.results.Some? ==> c.version <= w.version && (c.version == w.version ==> c.results.value == Scan(w, required))
  }

  function Executed(c: CacheState, w: GroupedState, required: seq<Symbol>): CacheState {
    if c.version == w.version && c.results.Some? then c else CacheState(w.version, Some(Scan(w, required)))
  }

  /** What can happen to one world and its cache. */
  datatype Event = Change(c: Call) | Execute | Invalidate

  function After(c: CacheState, w: GroupedState, required: seq<Symbol>, events: seq<Event>): (CacheState, GroupedState)
  {
    if events == [] then (c, w)
    else
      var (c', w') := After(c, w, required, events[..|events| - 1]);
      match events[|events| - 1]
      case Change(call) => (c', GroupedStep(w', call))
      case Execute => (Executed(c', w', required), w')
      case Invalidate => (CacheState(U64_MAX, None), w')
  }

  /** A change of the world either leaves the scan alone or moves the version on. */
  lemma ChangesKeepCoherence(c: CacheState, w: GroupedState, required: seq<Symbol>, call: Call)
    requires Coherent(c, w, required)
    ensures Coherent(c, GroupedStep(w, call), required)
  {
  }

  /** Whatever the interleaving of world changes, executions and invalidations, executing the query
      again answers what a fresh scan would. */
  lemma {:induction false} CacheIsNeverStale(w: GroupedState, required: seq<Symbol>, events: seq<Event>)
    ensures var (c', w') := After(CacheState(U64_MAX, None), w, required, events);
            Coherent(c', w', required) && Executed(c', w', required).results == Some(Scan(w', required))
  {
    if events != [] {
      var front := events[..|events| - 1];
      CacheIsNeverStale(w, required, front);
      var (c', w') := After(CacheState(U64_MAX, None), w, required, front);
      if events[|events| - 1].Change? {
        ChangesKeepCoherence(c', w', required, events[|events| - 1].c);
      }
    }
  }

  class ArchetypeQueryCache {
    const required: seq<Symbol>
    var cachedVersion: nat
    var cachedResults: Option<seq<EntityId>>

    ghost function State(): CacheState
      reads this
    {
      CacheState(cachedVersion, cachedResults)
    }

    constructor (required: seq<Symbol>)
      ensures State() == CacheState(U64_MAX, None) && this.required == required
    {
      this.required := required;
      cachedVersion, cachedResults := U64_MAX, None;
    }

    method Execute(world: ArchetypeWorld) returns (results: seq<EntityId>)
      requires world.Valid() && Coherent(State(), world.State(), required)
      modifies this
      ensures State() == Executed(old(State()), world.State(), required) && Coherent(State(), world.State(), required)
      ensures results == Scan(world.State(), required)
    {
      if cachedVersion == world.version && cachedResults.Some? {
        return cachedResults.value;
      }
      results := world.Query(required);
      cachedVersion := world.version;
      cachedResults := Some(results);
    }

    method Invalidate()
      modifies this
      ensures State() == CacheState(U64_MAX, None)
    {
      cachedVersion := U64_MAX;
      cachedResults := None;
    }
  }

  // ----- the cache of simple queries -----

  /** This cache starts at version 0 with no results, and invalidating it only resets the version. */
  datatype SimpleCacheState = SimpleCacheState(version: nat, results: seq<EntityId>)

  ghost predicate SimpleCoherent(c: SimpleCacheState, s: SimpleState, t: Symbol) {
    c.version <= s.version && (c.version == s.version ==> c.results == ListScan(s, t))
  }

  ghost function SimpleExecuted(c: SimpleCacheState, s: SimpleState, t: Symbol): SimpleCacheState {
    if c.version != s.version then SimpleCacheState(s.version, ListScan(s, t)) else c
  }

  datatype SimpleEvent = Change(c: Call, storage: ComponentStorage) | Execute | Invalidate

  ghost function SimpleAfter(c: SimpleCacheState, s: SimpleState, t: Symbol, events: seq<SimpleEvent>)
    : (SimpleCacheState, SimpleState)
  {
    if events == [] then (c, s)
    else
      var (c', s') := SimpleAfter(c, s, t, events[..|events| - 1]);
      match events[|events| - 1]
      case Change(call, storage) => (c', Step(s', call, _ => storage))
      case Execute => (SimpleExecuted(c', s', t), s')
      case Invalidate => (c'.(version := 0), s')
  }

  lemma EmptyScan(s: SimpleState, t: Symbol)
    requires Ok(s) && s.version == 0
    ensures ListScan(s, t) == []
  {
  }

  lemma StepKeepsOk(s: SimpleState, c: Call, kind: Symbol -> ComponentStorage)
    requires Ok(s)
    ensures Ok(Step(s, c, kind))
  {
    match c {
      case Spawn =>
      case Add(e, t, data) => AddedKeepsOk(s, e, t, data, kind(t));
      case Remove(e, t) => RemovedKeepsOk(s, e, t);
      case Despawn(e) => DespawnedKeepsOk(s, e);
    }
  }

  /** The cache is never stale either, though it starts and is invalidated at version 0: a world at
      version 0 is empty, and what was cached of it is too. */
  lemma {:induction false} SimpleCacheIsNeverStale(s: SimpleState, t: Symbol, events: seq<SimpleEvent>)
    requires Ok(s)
    ensures var (c', s') := SimpleAfter(SimpleCacheState(0, []), s, t, events);
            && Ok(s') && SimpleCoherent(c', s', t)
            && SimpleExecuted(c', s', t).results == ListScan(s', t)
  {
    if events == [] {
      if s.version == 0 {
        EmptyScan(s, t);
      }
    } else {
      var front, last := events[..|events| - 1], events[|events| - 1];
      SimpleCacheIsNeverStale(s, t, front);
      var (c', s') := SimpleAfter(SimpleCacheState(0, []), s, t, front);
      if last.Change? {
        StepKeepsOk(s', last.c, _ => last.storage);
        assert Step(s', last.c, _ => last.storage).version == s'.version
          ==> Step(s', last.c, _ => last.storage).lists == s'.lists;
      }
    }
  }

  class SimpleQueryCache {
    const componentType: Symbol
    var cachedResults: seq<EntityId>
    var cachedVersion: nat

    ghost function State(): SimpleCacheState
      reads this
    {
      SimpleCacheState(cachedVersion, cachedResults)
    }

    constructor (componentType: Symbol)
      ensures State() == SimpleCacheState(0, []) && this.componentType == componentType
    {
      this.componentType := componentType;
      cachedResults, cachedVersion := [], 0;
    }

    method Execute(world: SimpleWorld) returns (results: seq<EntityId>)
      requires SimpleCoherent(State(), world.State(), componentType)
      modifies this
      ensures State() == SimpleExecuted(old(State()), world.State(), componentType)
      ensures SimpleCoherent(State(), world.State(), componentType)
      ensures results == ListScan(world.State(), componentType)
    {
      if cachedVersion != world.version {
        cachedResults := world.GetEntitiesWithComponent(componentType);
        cachedVersion := world.version;
      }
      return cachedResults;
    }

    method Invalidate()
      modifies this
      ensures State() == old(State()).(version := 0)
    {
      cachedVersion := 0;
    }
  }
}
