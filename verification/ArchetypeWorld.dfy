/** `src/archetype_world/world.rs`: the world that groups entities by archetype. Every operation
    means the same on the flat map as in the simple world. */
module ArchetypeWorlds {
  import opened Collections
  import opened SimpleWorlds
  import opened EntityGroups

  datatype GroupedState = GroupedState(nextEntityId: EntityId, groups: Groups, version: nat)

  /** A world that never changed has no archetypes. */
  ghost predicate GroupedOk(s: GroupedState) {
    Grouped(s.groups) && (s.version == 0 ==> s.groups.archetypes == map[])
  }

  // ----- whole runs -----

  /** Removing an absent component does not even change the version. */
  function GroupedStep(s: GroupedState, c: Call): GroupedState {
    match c
    case Spawn => s.(nextEntityId := s.nextEntityId + 1)
    case Add(e, t, data) => s.(groups := AddedTo(s.groups, e, t, data), version := s.version + 1)
    case Remove(e, t) =>
      if t in TypesOf(s.groups, e) then s.(groups := RemovedFrom(s.groups, e, t), version := s.version + 1) else s
    case Despawn(e) => s.(groups := Left(s.groups, e), version := s.version + 1)
  }

  function GroupedRun(s: GroupedState, calls: seq<Call>): GroupedState {
    if calls == [] then s else GroupedStep(GroupedRun(s, calls[..|calls| - 1]), calls[|calls| - 1])
  }

  /** Each call keeps the groups right and means one step of the flat map. */
  lemma GroupedStepRefinesTheFlatMap(s: GroupedState, c: Call)
    requires GroupedOk(s)
    ensures GroupedOk(GroupedStep(s, c))
    ensures Flat(GroupedStep(s, c).groups) == FlatStep(Flat(s.groups), c)
  {
    match c {
      case Spawn =>
      case Add(e, t, data) => AddingMeansOneUpdate(s.groups, e, t, data);
      case Remove(e, t) => RemovingMeansOneDeletion(s.groups, e, t);
      case Despawn(e) =>
        LeavingKeepsGroups(s.groups, e);
        LeavingDeletesTheEntity(s.groups, e);
    }
  }

  lemma AddingIsAStep(s: GroupedState, s': GroupedState, e: EntityId, t: Symbol, data: Bytes)
    requires s'.nextEntityId == s.nextEntityId && s'.version == s.version + 1
    requires s'.groups == AddedTo(s.groups, e, t, data)
    ensures s' == GroupedStep(s, Add(e, t, data))
  {
  }

  lemma AddingMeans(g: Groups, g': Groups, e: EntityId, t: Symbol, data: Bytes)
    requires Grouped(g) && g' == AddedTo(g, e, t, data)
    ensures Grouped(g') && Flat(g') == Flat(g)[(e, t) := data]
  {
    AddingMeansOneUpdate(g, e, t, data);
  }

  lemma DespawningIsAStep(s: GroupedState, s': GroupedState, e: EntityId)
    requires s'.nextEntityId == s.nextEntityId && s'.version == s.version + 1 && s'.groups == Left(s.groups, e)
    ensures s' == GroupedStep(s, Despawn(e))
  {
  }

  lemma LeavingMeans(g: Groups, g': Groups, e: EntityId)
    requires Grouped(g) && g' == Left(g, e)
    ensures Grouped(g') && Flat(g') == WithoutEntity(Flat(g), e)
  {
    LeavingKeepsGroups(g, e);
    LeavingDeletesTheEntity(g, e);
  }

  lemma {:induction false} GroupedRunRefinesTheFlatMap(s: GroupedState, calls: seq<Call>)
    requires GroupedOk(s)
    ensures GroupedOk(GroupedRun(s, calls))
    ensures Flat(GroupedRun(s, calls).groups) == FlatRun(Flat(s.groups), calls)
  {
    if calls != [] {
      GroupedRunRefinesTheFlatMap(s, calls[..|calls| - 1]);
      GroupedStepRefinesTheFlatMap(GroupedRun(s, calls[..|calls| - 1]), calls[|calls| - 1]);
    }
  }

  /** Every spawn moves the next id on by one, whatever comes between, so that spawns hand out the same
      ids as those of the simple world. */
  lemma {:induction false} GroupedRunCounts(s: GroupedState, calls: seq<Call>)
    ensures GroupedRun(s, calls).nextEntityId == s.nextEntityId + SpawnCount(calls)
  {
    if calls != [] {
      GroupedRunCounts(s, calls[..|calls| - 1]);
    }
  }

  lemma GroupedSpawnedIdsDiffer(s: GroupedState, calls: seq<Call>, i: nat, j: nat)
    requires i < j < |calls| && calls[i] == Spawn && calls[j] == Spawn
    ensures GroupedRun(s, calls[..i]).nextEntityId < GroupedRun(s, calls[..j]).nextEntityId
  {
    GroupedRunCounts(s, calls[..i]);
    GroupedRunCounts(s, calls[..j]);
    SpawnCountGrows(calls, i, j);
  }

  /** A spawn changes the next id only; every other call the version, unless it removes what is absent. */
  lemma GroupedStepCounts(s: GroupedState, c: Call)
    requires GroupedOk(s)
    ensures var s' := GroupedStep(s, c);
            match c
            case Spawn => s'.nextEntityId == s.nextEntityId + 1 && s'.(nextEntityId := s.nextEntityId) == s
            case Add(e, t, data) => s'.nextEntityId == s.nextEntityId && s'.version == s.version + 1
            case Remove(e, t) =>
              && s'.nextEntityId == s.nextEntityId
              && ((e, t) in Flat(s.groups) ==> s'.version == s.version + 1)
              && ((e, t) !in Flat(s.groups) ==> s' == s)
            case Despawn(e) => s'.nextEntityId == s.nextEntityId && s'.version == s.version + 1
  {
    if c.Remove? {
      RemovingMeansOneDeletion(s.groups, c.e, c.t);
    }
  }

  /** The two worlds are interchangeable: after the same calls from states that mean the same map,
      they mean the same map, whatever storage kinds the simple world uses. */
  lemma SameCallsSameMap(g: GroupedState, s: SimpleState, calls: seq<Call>, kind: Symbol -> ComponentStorage)
    requires GroupedOk(g) && Ok(s) && SingleKind(s, kind) && AllListed(s)
    requires Flat(g.groups) == Model(s)
    ensures Flat(GroupedRun(g, calls).groups) == Model(Run(s, calls, kind))
  {
    GroupedRunRefinesTheFlatMap(g, calls);
    RunRefinesTheFlatMap(s, calls, kind);
  }

  // ----- the map determines the grouping -----

  lemma ListedIffKeyed(g: Groups, e: EntityId)
    requires Grouped(g)
    ensures StrictlySorted(TypesOf(g, e))
    ensures Elems(TypesOf(g, e)) == set k | k in Flat(g) && k.0 == e :: k.1
  {
    DataOfAt(g, e);
    assert forall t: Symbol :: (e, t).1 == t;
  }

  lemma SameTypesSameHome(g: Groups, x: EntityId, y: EntityId)
    requires Grouped(g) && x in g.home && y in g.home
    ensures g.home[x] == g.home[y] <==> TypesOf(g, x) == TypesOf(g, y)
  {
    assert g.home[x] in g.archetypes && g.home[y] in g.archetypes;
    assert g.index[g.archetypes[g.home[x]].types] == g.home[x];
  }

  lemma SameMapSameTypes(g: Groups, h: Groups, e: EntityId)
    requires Grouped(g) && Grouped(h) && Flat(g) == Flat(h)
    ensures TypesOf(g, e) == TypesOf(h, e) && (e in g.home <==> e in h.home)
  {
    ListedIffKeyed(g, e);
    ListedIffKeyed(h, e);
    SortedUnique(TypesOf(g, e), TypesOf(h, e));
    DataOfAt(g, e);
    DataOfAt(h, e);
  }

  /** Worlds with the same map put two entities together in the same cases, under the same types,
      though their archetype ids may differ. */
  lemma SameMapSameGrouping(g: Groups, h: Groups, x: EntityId, y: EntityId)
    requires Grouped(g) && Grouped(h) && Flat(g) == Flat(h)
    ensures TypesOf(g, x) == TypesOf(h, x)
    ensures x in g.home <==> x in h.home
    ensures y in g.home <==> y in h.home
    ensures x in g.home && y in g.home ==> (g.home[x] == g.home[y] <==> h.home[x] == h.home[y])
  {
    SameMapSameTypes(g, h, x);
    SameMapSameTypes(g, h, y);
    if x in g.home && y in g.home {
      SameTypesSameHome(g, x, y);
      SameTypesSameHome(h, x, y);
    }
  }

  // ----- queries -----

  predicate MatchesAll(a: Archetype, required: seq<Symbol>) {
    forall t | t in required :: t in a.types
  }

  /** The entities of the matching archetypes among the first `n`, archetype by archetype. */
  function QueryScan(g: Groups, required: seq<Symbol>, n: nat): seq<EntityId> {
    if n == 0 then []
    else QueryScan(g, required, n - 1) + (if MatchesAll(At(g, n - 1), required) then At(g, n - 1).entities else [])
  }

  /** The entity has some component and every required one. */
  predicate Selected(m: map<Key, Bytes>, required: seq<Symbol>, e: EntityId) {
    (exists k | k in m :: k.0 == e) && forall t | t in required :: (e, t) in m
  }

  lemma ScanNext(g: Groups, required: seq<Symbol>, n: nat)
    requires n in g.archetypes
    ensures var a, found := g.archetypes[n], QueryScan(g, required, n);
            QueryScan(g, required, n + 1) == if MatchesAll(a, required) then found + a.entities else found
  {
  }

  lemma {:induction false} QueryScanFinds(g: Groups, required: seq<Symbol>, n: nat)
    requires Grouped(g) && n <= g.nextId
    ensures NoDup(QueryScan(g, required, n))
    ensures forall e: EntityId :: e in QueryScan(g, required, n) <==>
              e in g.home && g.home[e] < n && MatchesAll(g.archetypes[g.home[e]], required)
  {
    if n > 0 {
      QueryScanFinds(g, required, n - 1);
      assert n - 1 in g.archetypes;
      HousedTogether(g, n - 1);
      var before, a := QueryScan(g, required, n - 1), g.archetypes[n - 1];
      ScanNext(g, required, n - 1);
      if MatchesAll(a, required) {
        NoDupConcat(before, a.entities);
      }
      forall e: EntityId
        ensures e in QueryScan(g, required, n) <==>
                  e in g.home && g.home[e] < n && MatchesAll(g.archetypes[g.home[e]], required)
      {
        assert e in before <==> e in g.home && g.home[e] < n - 1 && MatchesAll(g.archetypes[g.home[e]], required);
        assert e in a.entities <==> e in g.home && g.home[e] == n - 1;
      }
    }
  }

  lemma HousedTogether(g: Groups, i: ArchetypeId)
    requires Grouped(g) && i in g.archetypes
    ensures NoDup(g.archetypes[i].entities)
    ensures forall e: EntityId :: e in g.archetypes[i].entities <==> e in g.home && g.home[e] == i
  {
    assert ArchetypeOk(g.archetypes[i]);
  }

  lemma MatchingMeansSelected(g: Groups, required: seq<Symbol>, e: EntityId)
    requires Grouped(g)
    ensures e in g.home && MatchesAll(g.archetypes[g.home[e]], required) <==> Selected(Flat(g), required, e)
  {
    DataOfAt(g, e);
    var d := DataOf(g, e);
    if e in g.home {
      var types := TypesOf(g, e);
      assert types[0] in Elems(types);
      assert (e, types[0]) in Flat(g) && (e, types[0]).0 == e;
      assert forall t: Symbol :: t in d <==> t in types;
    }
  }

  /** A query returns each entity that has a component and all the required ones exactly once. */
  lemma QueryIsExact(g: Groups, required: seq<Symbol>)
    requires Grouped(g)
    ensures NoDup(QueryScan(g, required, g.nextId))
    ensures forall e: EntityId :: e in QueryScan(g, required, g.nextId) <==> Selected(Flat(g), required, e)
    ensures forall e: EntityId :: e in QueryScan(g, required, g.nextId)
              <==> (exists k :: k in Flat(g) && k.0 == e) && forall t | t in required :: (e, t) in Flat(g)
  {
    QueryScanFinds(g, required, g.nextId);
    forall e: EntityId
      ensures e in QueryScan(g, required, g.nextId) <==> Selected(Flat(g), required, e)
    {
      MatchingMeansSelected(g, required, e);
      assert e in g.home ==> g.home[e] in g.archetypes;
    }
  }

  // ----- the world -----

  /** The ids the index and the entities name are those of archetypes. */
  ghost predicate Closed(g: Groups) {
    && (forall types {:trigger g.index[types]} | types in g.index :: g.index[types] in g.archetypes)
    && (forall e {:trigger g.home[e]} | e in g.home :: g.home[e] in g.archetypes)
  }

  lemma GroupedIsClosed(g: Groups)
    requires Grouped(g)
    ensures Closed(g)
  {
  }

  lemma NoGroups()
    ensures Grouped(Groups(0, map[], map[], map[])) && Flat(Groups(0, map[], map[], map[])) == map[]
  {
  }

  lemma CopyOneMore(a: Archetype, e: EntityId, d: map<Symbol, Bytes>, rest: set<Symbol>, t: Symbol)
    requires rest <= d.Keys && t in rest
    ensures var filled := WithOne(a, e, d - rest);
            filled.(data := filled.data[(e, t) := d[t]]) == WithOne(a, e, d - (rest - {t}))
  {
    MapUpdatedAt(Keyed(e, d - rest), Keyed(e, d - (rest - {t})), (e, t), d[t]);
    MapUpdatedAt(a.data + Keyed(e, d - rest), a.data + Keyed(e, d - (rest - {t})), (e, t), d[t]);
  }

  ghost predicate CountsUp(keys: set<nat>, n: nat) {
    forall i: nat :: i in keys <==> i < n
  }

  lemma KeysCountUp(keys: set<nat>, n: nat)
    requires CountsUp(keys, n)
    ensures Ascending(keys) == seq(n, i => i)
  {
    var up: seq<nat> := seq(n, i => i);
    AscendingElems(keys);
    assert forall i: nat | i < n :: up[i] == i;
    forall i: nat
      ensures i in Elems(up) <==> i in keys
    {
      assert i < n ==> up[i] in up;
    }
    SortedUnique(Ascending(keys), up);
    assert up == seq(n, i => i);
  }

  /** Recording the new archetype of an entity overwrites the old one. */
  lemma HomeIsOverwritten(g: Groups, e: EntityId, types: seq<Symbol>, d: map<Symbol, Bytes>)
    requires e in g.home
    ensures var g' := Left(g, e);
            Entered(g', e, types, d) == Entered(g'.(home := g.home), e, types, d)
  {
    var i := Interned(Left(g, e), types).index[types];
    assert (g.home - {e})[e := i] == g.home[e := i];
  }

  class ArchetypeWorld {
    var nextEntityId: EntityId
    var nextArchetypeId: ArchetypeId
    var archetypes: map<ArchetypeId, Archetype>
    var archetypeIndex: map<seq<Symbol>, ArchetypeId>
    var entityArchetype: map<EntityId, ArchetypeId>
    var version: nat

    ghost function Groups(): Groups
      reads this
    {
      EntityGroups.Groups(nextArchetypeId, archetypes, archetypeIndex, entityArchetype)
    }

    ghost function State(): GroupedState
      reads this
    {
      GroupedState(nextEntityId, Groups(), version)
    }

    ghost predicate Valid()
      reads this
    {
      GroupedOk(State())
    }

    /** The flat map the world means. */
    ghost function Contents(): map<Key, Bytes>
      reads this
    {
      Flat(Groups())
    }

    constructor ()
      ensures Valid() && Contents() == map[] && archetypes == map[] && nextEntityId == 1 && version == 0
    {
      nextEntityId, nextArchetypeId, archetypes, archetypeIndex, entityArchetype, version :=
        1, 0, map[], map[], map[], 0;
      NoGroups();
    }

    method SpawnEntity() returns (id: EntityId)
      requires Valid()
      modifies this`nextEntityId
      ensures Valid() && State() == GroupedStep(old(State()), Spawn)
      ensures id == old(nextEntityId) && nextEntityId == old(nextEntityId) + 1
    {
      id := nextEntityId;
      nextEntityId := nextEntityId + 1;
    }

    /** Finds the archetype with the given types, or makes it. */
    method GetOrCreateArchetype(types: seq<Symbol>) returns (id: ArchetypeId)
      modifies this`nextArchetypeId, this`archetypes, this`archetypeIndex
      ensures Groups() == Interned(old(Groups()), types) && id == archetypeIndex[types]
    {
      if types in archetypeIndex {
        return archetypeIndex[types];
      }
      id := nextArchetypeId;
      nextArchetypeId := nextArchetypeId + 1;
      archetypes := archetypes[id := Archetype(id, types, [], map[])];
      archetypeIndex := archetypeIndex[types := id];
    }

    static method BuildNewTypes(existing: seq<Symbol>, t: Symbol) returns (types: seq<Symbol>)
      ensures types == Sort(existing + [t])
    {
      types := [];
      for i := 0 to |existing|
        invariant types == existing[..i]
      {
        types := types + [existing[i]];
      }
      assert types == existing;
      types := Sort(types + [t]);
    }

    /** Puts an entity with its data into a copy of an archetype. */
    static method WithEntity(a: Archetype, e: EntityId, extracted: map<Symbol, Bytes>) returns (filled: Archetype)
      ensures filled == WithOne(a, e, extracted)
    {
      filled := a.(entities := a.entities + [e]);
      var rest := extracted.Keys;
      assert a.data + Keyed(e, extracted - rest) == a.data;
      while rest != {}
        invariant rest <= extracted.Keys && filled == WithOne(a, e, extracted - rest)
      {
        var t := Min(rest);
        CopyOneMore(a, e, extracted, rest, t);
        filled := filled.(data := filled.data[(e, t) := extracted[t]]);
        rest := rest - {t};
      }
      assert extracted - {} == extracted;
    }

    /** Moves an entity that is nowhere, with its data, to the archetype of the given types. */
    method Enter(e: EntityId, types: seq<Symbol>, d: map<Symbol, Bytes>)
      requires Closed(Groups())
      modifies this`nextArchetypeId, this`archetypes, this`archetypeIndex, this`entityArchetype
      ensures Groups() == Entered(old(Groups()), e, types, d)
    {
      var target := GetOrCreateArchetype(types);
      if target in archetypes {
        var a := WithEntity(archetypes[target], e, d);
        archetypes := archetypes[target := a];
      }
      entityArchetype := entityArchetype[e := target];
    }

    method AddToGroups(e: EntityId, t: Symbol, data: Bytes)
      requires Closed(Groups())
      modifies this`nextArchetypeId, this`archetypes, this`archetypeIndex, this`entityArchetype
      ensures Groups() == AddedTo(old(Groups()), e, t, data)
    {
      if e in entityArchetype {
        var id := entityArchetype[e];
        if id in archetypes {
          var arch := archetypes[id];
          var has := arch.HasComponentType(t);
          if has {
            archetypes := archetypes[id := arch.(data := arch.data[(e, t) := data])];
            return;
          }
          var newTypes := BuildNewTypes(arch.types, t);
          var rest, extracted := arch.RemoveEntity(e);
          extracted := extracted[t := data];
          archetypes := archetypes[id := rest];
          Enter(e, newTypes, extracted);
          HomeIsOverwritten(old(Groups()), e, newTypes, extracted);
        }
      } else {
        assert [] + [t] == [t] && Sort([t]) == [t];
        assert (map[])[t := data] == map[t := data];
        Enter(e, [t], map[t := data]);
      }
    }

    /** Sets a component, moving the entity to another archetype if the component is new to it. */
    method AddComponent(e: EntityId, t: Symbol, data: Bytes)
      requires Valid()
      modifies this
      ensures Valid() && State() == GroupedStep(old(State()), Add(e, t, data))
      ensures Contents() == old(Contents())[(e, t) := data]
    {
      ghost var before := Groups();
      GroupedIsClosed(before);
      version := version + 1;
      assert Groups() == before;
      AddToGroups(e, t, data);
      AddingIsAStep(old(State()), State(), e, t, data);
      AddingMeans(before, Groups(), e, t, data);
    }

    method RemoveFromGroups(e: EntityId, t: Symbol) returns (removed: bool)
      requires Closed(Groups())
      modifies this`nextArchetypeId, this`archetypes, this`archetypeIndex, this`entityArchetype, this`version
      ensures Groups() == RemovedFrom(old(Groups()), e, t)
      ensures removed == (t in TypesOf(old(Groups()), e))
      ensures version == if removed then old(version) + 1 else old(version)
    {
      if e !in entityArchetype {
        return false;
      }
      var id := entityArchetype[e];
      if id !in archetypes {
        return false;
      }
      var arch := archetypes[id];
      var has := arch.HasComponentType(t);
      if !has {
        return false;
      }
      version := version + 1;
      var newTypes := TypesWithout(arch.types, t);
      var rest, extracted := arch.RemoveEntity(e);
      extracted := extracted - {t};
      archetypes := archetypes[id := rest];
      if newTypes == [] {
        entityArchetype := entityArchetype - {e};
      } else {
        Enter(e, newTypes, extracted);
        HomeIsOverwritten(old(Groups()), e, newTypes, extracted);
      }
      return true;
    }

    /** Removes a component, moving the entity to a smaller archetype or to none; false and no
        change at all if it was absent. */
    method RemoveComponent(e: EntityId, t: Symbol) returns (removed: bool)
      requires Valid()
      modifies this
      ensures Valid() && State() == GroupedStep(old(State()), Remove(e, t))
      ensures Contents() == old(Contents()) - {(e, t)}
      ensures removed <==> (e, t) in old(Contents())
      ensures !removed ==> State() == old(State())
    {
      GroupedIsClosed(Groups());
      removed := RemoveFromGroups(e, t);
      assert State() == GroupedStep(old(State()), Remove(e, t));
      GroupedStepRefinesTheFlatMap(old(State()), Remove(e, t));
      RemovingMeansOneDeletion(old(Groups()), e, t);
    }

    static method TypesWithout(types: seq<Symbol>, t: Symbol) returns (kept: seq<Symbol>)
      ensures kept == Outside(types, {t})
    {
      kept := [];
      for i := 0 to |types|
        invariant kept == Outside(types[..i], {t})
      {
        assert types[..i + 1] == types[..i] + [types[i]];
        OutsideSnoc(types[..i], types[i], {t});
        if types[i] != t {
          kept := kept + [types[i]];
        }
      }
      assert types[..|types|] == types;
    }

    method GetComponent(e: EntityId, t: Symbol) returns (data: Option<Bytes>)
      requires Valid()
      ensures data == Lookup(Contents(), e, t)
    {
      FlatAt(Groups(), (e, t));
      if e !in entityArchetype || entityArchetype[e] !in archetypes {
        return None;
      }
      var arch := archetypes[entityArchetype[e]];
      assert ArchetypeOk(arch);
      return if (e, t) in arch.data then Some(arch.data[(e, t)]) else None;
    }

    /** Only looks at the type list of the entity's archetype. */
    method HasComponent(e: EntityId, t: Symbol) returns (has: bool)
      requires Valid()
      ensures has <==> (e, t) in Contents()
    {
      FlatAt(Groups(), (e, t));
      if e in entityArchetype && entityArchetype[e] in archetypes {
        has := archetypes[entityArchetype[e]].HasComponentType(t);
        return;
      }
      return false;
    }

    method LeaveGroups(e: EntityId)
      requires Closed(Groups())
      modifies this`archetypes, this`entityArchetype
      ensures Groups() == Left(old(Groups()), e)
    {
      if e in entityArchetype {
        if entityArchetype[e] in archetypes {
          var rest, extracted := archetypes[entityArchetype[e]].RemoveEntity(e);
          archetypes := archetypes[entityArchetype[e] := rest];
        }
        entityArchetype := entityArchetype - {e};
      }
    }

    /** Removes exactly the entity's components; the version changes even if it had none. */
    method DespawnEntity(e: EntityId)
      requires Valid()
      modifies this
      ensures Valid() && State() == GroupedStep(old(State()), Despawn(e))
      ensures Contents() == WithoutEntity(old(Contents()), e)
    {
      ghost var before := Groups();
      GroupedIsClosed(before);
      LeaveGroups(e);
      version := version + 1;
      DespawningIsAStep(old(State()), State(), e);
      LeavingMeans(before, Groups(), e);
    }

    method ScanArchetypes(required: seq<Symbol>, keys: seq<ArchetypeId>) returns (results: seq<EntityId>)
      requires |keys| == nextArchetypeId && forall k | 0 <= k < |keys| :: keys[k] == k && k in archetypes
      ensures results == QueryScan(Groups(), required, nextArchetypeId)
    {
      results := [];
      ghost var g := Groups();
      for k := 0 to |keys|
        invariant results == QueryScan(g, required, k)
      {
        var arch := archetypes[keys[k]];
        ScanNext(g, required, k);
        var matches := arch.Matches(required);
        if matches {
          results := Appended(results, arch.entities);
        }
      }
    }

    static method Appended(results: seq<EntityId>, entities: seq<EntityId>) returns (all: seq<EntityId>)
      ensures all == results + entities
    {
      all := results;
      for i := 0 to |entities|
        invariant all == results + entities[..i]
      {
        all := all + [entities[i]];
      }
    }

    /** Each entity with some component and all the required ones, exactly once. */
    method Query(required: seq<Symbol>) returns (results: seq<EntityId>)
      requires Valid()
      ensures results == QueryScan(Groups(), required, nextArchetypeId)
      ensures NoDup(results) && forall e: EntityId :: e in results <==> Selected(Contents(), required, e)
    {
      KeysCountUp(archetypes.Keys, nextArchetypeId);
      results := ScanArchetypes(required, Ascending(archetypes.Keys));
      QueryIsExact(Groups(), required);
    }
  }
}
