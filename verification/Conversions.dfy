/** `src/archetype_world/world.rs`: conversions between the two worlds. Either is a run of adds on
    a new world, and keeps the flat map. */
module Conversions {
  import opened Collections
  import opened SimpleWorlds
  import opened EntityGroups
  import opened ArchetypeWorlds

  // ----- runs of adds -----

  /** One add for each of the keys that has data, in their order. */
  function Adds(m: map<Key, Bytes>, ks: seq<Key>): seq<Call> {
    if ks == [] then []
    else
      var k := ks[|ks| - 1];
      Adds(m, ks[..|ks| - 1]) + (if k in m then [Add(k.0, k.1, m[k])] else [])
  }

  function Restricted(m: map<Key, Bytes>, ks: seq<Key>): map<Key, Bytes> {
    map k | k in m && k in ks :: m[k]
  }

  lemma RestrictedOneMore(m: map<Key, Bytes>, ks: seq<Key>, k: Key)
    ensures Restricted(m, ks + [k]) == if k in m then Restricted(m, ks)[k := m[k]] else Restricted(m, ks)
  {
    if k in m {
      MapUpdatedAt(Restricted(m, ks), Restricted(m, ks + [k]), k, m[k]);
    } else {
      MapsAgree(Restricted(m, ks + [k]), Restricted(m, ks));
    }
  }

  /** Adding the data under some keys to the empty map gives that part of the map. */
  lemma {:induction false} AddsBuildThePart(m: map<Key, Bytes>, ks: seq<Key>)
    ensures FlatRun(map[], Adds(m, ks)) == Restricted(m, ks)
  {
    if ks == [] {
      assert Restricted(m, ks) == map[];
    } else {
      var front, k := ks[..|ks| - 1], ks[|ks| - 1];
      assert ks == front + [k];
      AddsBuildThePart(m, front);
      RestrictedOneMore(m, front, k);
      if k in m {
        var calls := Adds(m, ks);
        assert calls[..|calls| - 1] == Adds(m, front) && calls[|calls| - 1] == Add(k.0, k.1, m[k]);
        assert FlatRun(map[], calls) == Restricted(m, front)[(k.0, k.1) := m[k]] && k == (k.0, k.1);
      } else {
        assert Adds(m, ks) == Adds(m, front);
      }
    }
  }

  lemma AddsOneMore(m: map<Key, Bytes>, ks: seq<Key>, k: Key)
    ensures Adds(m, ks + [k]) == Adds(m, ks) + (if k in m then [Add(k.0, k.1, m[k])] else [])
  {
    assert (ks + [k])[..|ks|] == ks;
  }

  // ----- into the simple world -----

  function AlwaysTable(t: Symbol): ComponentStorage {
    Table
  }

  /** Everything is in the table, and listed. */
  ghost predicate TableOnly(s: SimpleState) {
    Ok(s) && AllListed(s) && SingleKind(s, AlwaysTable)
  }

  function Put(s: SimpleState, m: map<Key, Bytes>, ks: seq<Key>): SimpleState {
    Run(s, Adds(m, ks), AlwaysTable)
  }

  lemma PutOneMore(s: SimpleState, m: map<Key, Bytes>, ks: seq<Key>, k: Key)
    ensures Put(s, m, ks + [k]) == if k in m then Added(Put(s, m, ks), k.0, k.1, m[k], Table) else Put(s, m, ks)
  {
    AddsOneMore(m, ks, k);
    var calls := Adds(m, ks + [k]);
    if k in m {
      assert calls[..|calls| - 1] == Adds(m, ks);
    } else {
      assert calls == Adds(m, ks);
    }
  }

  /** The archetype's data of one entity is that of the flat map. */
  ghost predicate Agrees(a: Archetype, e: EntityId, m: map<Key, Bytes>) {
    forall t {:trigger (e, t) in m} | t in a.types :: ((e, t) in a.data <==> (e, t) in m)
      && ((e, t) in m ==> a.data[(e, t)] == m[(e, t)])
  }

  method CopyEntity(a: Archetype, e: EntityId, world: SimpleWorld, ghost s: SimpleState, ghost m: map<Key, Bytes>,
                    ghost done: seq<Key>)
    returns (ghost ks: seq<Key>)
    requires world.State() == Put(s, m, done) && Agrees(a, e, m)
    modifies world
    ensures world.State() == Put(s, m, ks) && done <= ks
    ensures forall t | t in a.types :: (e, t) in ks
  {
    ks := done;
    for i := 0 to |a.types|
      invariant world.State() == Put(s, m, ks) && done <= ks
      invariant forall j | 0 <= j < i :: (e, a.types[j]) in ks
    {
      var t := a.types[i];
      PutOneMore(s, m, ks, (e, t));
      assert t in a.types && ((e, t) in m || (e, t) !in m);
      if (e, t) in a.data {
        world.AddComponent(e, t, a.data[(e, t)]);
      }
      ks := ks + [(e, t)];
    }
  }

  method CopyArchetype(a: Archetype, world: SimpleWorld, ghost s: SimpleState, ghost m: map<Key, Bytes>,
                       ghost done: seq<Key>)
    returns (ghost ks: seq<Key>)
    requires world.State() == Put(s, m, done) && forall e | e in a.entities :: Agrees(a, e, m)
    modifies world
    ensures world.State() == Put(s, m, ks) && done <= ks
    ensures forall e, t | e in a.entities && t in a.types :: (e, t) in ks
  {
    ks := done;
    for i := 0 to |a.entities|
      invariant world.State() == Put(s, m, ks) && done <= ks
      invariant forall j, t | 0 <= j < i && t in a.types :: (a.entities[j], t) in ks
    {
      assert a.entities[i] in a.entities;
      ks := CopyEntity(a, a.entities[i], world, s, m, ks);
    }
  }

  lemma ArchetypeAgrees(g: Groups, i: ArchetypeId)
    requires Grouped(g) && i in g.archetypes
    ensures forall e | e in g.archetypes[i].entities :: Agrees(g.archetypes[i], e, Flat(g))
  {
    forall e, t | e in g.archetypes[i].entities && t in g.archetypes[i].types
      ensures (e, t) in g.archetypes[i].data && (e, t) in Flat(g) && g.archetypes[i].data[(e, t)] == Flat(g)[(e, t)]
    {
      FlatAt(g, (e, t));
      assert ArchetypeOk(g.archetypes[i]);
    }
  }

  /** All the keys of the archetypes below `n` are among `ks`. */
  ghost predicate Covered(g: Groups, ks: seq<Key>, n: nat) {
    forall i, e, t | i in g.archetypes && i < n && e in g.archetypes[i].entities && t in g.archetypes[i].types ::
      (e, t) in ks
  }

  method CopyArchetypes(world: ArchetypeWorld, simple: SimpleWorld) returns (ghost ks: seq<Key>)
    requires world.Valid()
    modifies simple
    ensures simple.State() == Put(old(simple.State()), world.Contents(), ks)
    ensures Covered(world.Groups(), ks, world.nextArchetypeId)
  {
    ghost var s, g := simple.State(), world.Groups();
    var keys := Ascending(world.archetypes.Keys);
    KeysCountUp(world.archetypes.Keys, world.nextArchetypeId);
    ks := [];
    for k := 0 to |keys|
      invariant world.Groups() == g && simple.State() == Put(s, Flat(g), ks) && Covered(g, ks, k)
    {
      ghost var done := ks;
      ArchetypeAgrees(g, k);
      ks := CopyArchetype(world.archetypes[keys[k]], simple, s, Flat(g), ks);
      CoveredOneMore(g, done, ks, k);
    }
  }

  lemma CoveredOneMore(g: Groups, done: seq<Key>, ks: seq<Key>, n: nat)
    requires Covered(g, done, n) && done <= ks && n in g.archetypes
    requires forall e, t | e in g.archetypes[n].entities && t in g.archetypes[n].types :: (e, t) in ks
    ensures Covered(g, ks, n + 1)
  {
    forall i, e, t | i in g.archetypes && i < n + 1 && e in g.archetypes[i].entities && t in g.archetypes[i].types
      ensures (e, t) in ks
    {
      assert i < n ==> (e, t) in done;
    }
  }

  lemma CoveredIsAll(g: Groups, ks: seq<Key>)
    requires Grouped(g) && Covered(g, ks, g.nextId)
    ensures Restricted(Flat(g), ks) == Flat(g)
  {
    forall k | k in Flat(g)
      ensures k in ks
    {
      FlatAt(g, k);
      assert g.home[k.0] in g.archetypes && (k.0, k.1) in ks;
    }
    MapsAgree(Restricted(Flat(g), ks), Flat(g));
  }

  lemma ListedHasData(s: SimpleState, e: EntityId)
    requires Ok(s) && e in s.lists
    ensures Model(s) != map[]
  {
    var t := s.lists[e][0];
    assert t in s.lists[e] && Stored(s, e, t);
    assert (e, t) in Model(s);
  }

  lemma EmptyModelListsNothing(s: SimpleState)
    requires Ok(s) && Model(s) == map[]
    ensures s.lists == map[]
  {
    if s.lists != map[] {
      var e :| e in s.lists;
      ListedHasData(s, e);
    }
  }

  lemma PutMeans(s: SimpleState, g: Groups, ks: seq<Key>)
    requires TableOnly(s) && Model(s) == map[] && Grouped(g) && Covered(g, ks, g.nextId)
    ensures TableOnly(Put(s, Flat(g), ks)) && Model(Put(s, Flat(g), ks)) == Flat(g)
  {
    RunRefinesTheFlatMap(s, Adds(Flat(g), ks), AlwaysTable);
    AddsBuildThePart(Flat(g), ks);
    CoveredIsAll(g, ks);
  }

  /** Taking over the version keeps the copy right: at version 0 there was nothing to copy. */
  lemma VersionedCopy(s: SimpleState, w: GroupedState)
    requires TableOnly(s) && GroupedOk(w) && Model(s) == Flat(w.groups)
    ensures var r := s.(version := w.version); TableOnly(r) && Model(r) == Model(s)
  {
    if w.version == 0 {
      assert Flat(w.groups) == map[];
      EmptyModelListsNothing(s);
    }
    OnlyTheVersion(s, w.version);
  }

  lemma OnlyTheVersion(s: SimpleState, version: nat)
    requires TableOnly(s) && (version == 0 ==> s.lists == map[] && Model(s) == map[])
    ensures var r := s.(version := version); TableOnly(r) && Model(r) == Model(s)
  {
    var r := s.(version := version);
    assert Model(r) == Model(s);
    forall e, t | e in r.lists && t in r.lists[e]
      ensures Stored(r, e, t)
    {
      assert Stored(s, e, t);
    }
    forall k | k in Model(r)
      ensures Listed(r, k.0, k.1)
    {
      assert Listed(s, k.0, k.1);
    }
  }

  lemma {:induction false} AddsKeepNextId(s: SimpleState, m: map<Key, Bytes>, ks: seq<Key>)
    ensures Put(s, m, ks).nextEntityId == s.nextEntityId
  {
    if ks != [] {
      assert ks == ks[..|ks| - 1] + [ks[|ks| - 1]];
      AddsKeepNextId(s, m, ks[..|ks| - 1]);
      PutOneMore(s, m, ks[..|ks| - 1], ks[|ks| - 1]);
    }
  }

  lemma NothingSparse(s: SimpleState)
    requires TableOnly(s)
    ensures s.sparse == map[] && s.components == Model(s)
  {
    assert forall k :: k !in s.sparse;
  }

  /** The simple world means the same map; everything is in its table and listed. */
  method ToSimpleWorld(world: ArchetypeWorld) returns (simple: SimpleWorld)
    requires world.Valid()
    ensures fresh(simple) && TableOnly(simple.State())
    ensures Model(simple.State()) == world.Contents()
    ensures simple.components == world.Contents() && simple.sparseComponents == map[]
    ensures simple.nextEntityId == world.nextEntityId && simple.version == world.version
  {
    simple := new SimpleWorld();
    simple.nextEntityId := world.nextEntityId;
    ghost var s := simple.State();
    ghost var ks := CopyArchetypes(world, simple);
    AddsKeepNextId(s, world.Contents(), ks);
    simple.version := world.version;
    assert simple.State() == Put(s, world.Contents(), ks).(version := world.version);
    PutMeans(s, world.Groups(), ks);
    VersionedCopy(Put(s, world.Contents(), ks), world.State());
    NothingSparse(simple.State());
  }

  // ----- from the simple world -----

  function Take(w: GroupedState, m: map<Key, Bytes>, ks: seq<Key>): GroupedState {
    GroupedRun(w, Adds(m, ks))
  }

  lemma TakeOneMore(w: GroupedState, m: map<Key, Bytes>, ks: seq<Key>, k: Key)
    ensures Take(w, m, ks + [k]) == if k in m then GroupedStep(Take(w, m, ks), Add(k.0, k.1, m[k])) else Take(w, m, ks)
  {
    AddsOneMore(m, ks, k);
    var calls := Adds(m, ks + [k]);
    if k in m {
      assert calls[..|calls| - 1] == Adds(m, ks);
    } else {
      assert calls == Adds(m, ks);
    }
  }

  /** `ks` are the listed keys of the given entities. */
  ghost predicate ListsOf(s: SimpleState, es: seq<EntityId>, ks: seq<Key>) {
    forall k: Key :: k in ks <==> k.0 in es && Listed(s, k.0, k.1)
  }

  method CopyListed(simple: SimpleWorld, e: EntityId, world: ArchetypeWorld,
                    ghost w: GroupedState, ghost es: seq<EntityId>, ghost done: seq<Key>)
    returns (ghost ks: seq<Key>)
    requires e in simple.entityComponents && world.Valid()
    requires world.State() == Take(w, Model(simple.State()), done) && ListsOf(simple.State(), es, done)
    modifies world
    ensures world.Valid()
    ensures world.State() == Take(w, Model(simple.State()), ks) && ListsOf(simple.State(), es + [e], ks)
  {
    ghost var m := Model(simple.State());
    var types := simple.entityComponents[e];
    ks := done;
    for i := 0 to |types|
      invariant world.Valid() && world.State() == Take(w, m, ks)
      invariant forall k: Key :: k in ks <==> k in done || (k.0 == e && k.1 in types[..i])
    {
      var t := types[i];
      TakeOneMore(w, m, ks, (e, t));
      var data := simple.GetComponent(e, t);
      if data.Some? {
        world.AddComponent(e, t, data.value);
      }
      ks := ks + [(e, t)];
    }
    assert types[..|types|] == types;
  }

  method CopyAllListed(simple: SimpleWorld, world: ArchetypeWorld) returns (ghost ks: seq<Key>)
    requires world.Valid()
    modifies world
    ensures world.Valid()
    ensures world.State() == Take(old(world.State()), Model(simple.State()), ks)
    ensures ListsOf(simple.State(), Ascending(simple.entityComponents.Keys), ks)
  {
    ghost var w, s := world.State(), simple.State();
    var keys := Ascending(simple.entityComponents.Keys);
    ks := [];
    for k := 0 to |keys|
      invariant world.Valid() && simple.State() == s
      invariant world.State() == Take(w, Model(s), ks) && ListsOf(s, keys[..k], ks)
    {
      assert keys[k] in keys && keys[..k + 1] == keys[..k] + [keys[k]];
      ks := CopyListed(simple, keys[k], world, w, keys[..k], ks);
    }
    assert keys[..|keys|] == keys;
  }

  lemma ListsOfAll(s: SimpleState, ks: seq<Key>)
    requires ListsOf(s, Ascending(s.lists.Keys), ks)
    ensures Restricted(Model(s), ks) == ListedPart(s)
    ensures s.lists == map[] ==> ks == []
  {
    MapsAgree(Restricted(Model(s), ks), ListedPart(s));
    assert |ks| > 0 ==> ks[0] in ks;
  }

  lemma TakeMeans(w: GroupedState, s: SimpleState, ks: seq<Key>)
    requires GroupedOk(w) && Flat(w.groups) == map[] && w.groups.archetypes == map[] && Ok(s)
    requires ListsOf(s, Ascending(s.lists.Keys), ks)
    ensures GroupedOk(Take(w, Model(s), ks).(version := s.version))
    ensures Flat(Take(w, Model(s), ks).groups) == ListedPart(s)
  {
    GroupedRunRefinesTheFlatMap(w, Adds(Model(s), ks));
    AddsBuildThePart(Model(s), ks);
    ListsOfAll(s, ks);
  }

  lemma {:induction false} TakesKeepNextId(w: GroupedState, m: map<Key, Bytes>, ks: seq<Key>)
    ensures Take(w, m, ks).nextEntityId == w.nextEntityId
  {
    if ks != [] {
      assert ks == ks[..|ks| - 1] + [ks[|ks| - 1]];
      TakesKeepNextId(w, m, ks[..|ks| - 1]);
      TakeOneMore(w, m, ks[..|ks| - 1], ks[|ks| - 1]);
    }
  }

  /** Only listed components are copied. */
  method FromSimpleWorld(simple: SimpleWorld) returns (world: ArchetypeWorld)
    requires Ok(simple.State())
    ensures fresh(world) && world.Valid()
    ensures world.Contents() == ListedPart(simple.State())
    ensures world.nextEntityId == simple.nextEntityId && world.version == simple.version
  {
    world := new ArchetypeWorld();
    world.nextEntityId := simple.nextEntityId;
    ghost var w, s := world.State(), simple.State();
    ghost var ks := CopyAllListed(simple, world);
    TakesKeepNextId(w, Model(s), ks);
    world.version := simple.version;
    assert world.State() == Take(w, Model(s), ks).(version := s.version);
    TakeMeans(w, s, ks);
  }

  /** The converted world answers every lookup alike exactly when everything stored is listed. */
  lemma ConversionAgrees(s: SimpleState)
    ensures (forall e, t :: Lookup(ListedPart(s), e, t) == Lookup(Model(s), e, t)) <==> AllListed(s)
  {
    if !AllListed(s) {
      var k :| k in Model(s) && !Listed(s, k.0, k.1);
      assert k == (k.0, k.1);
      assert Lookup(ListedPart(s), k.0, k.1) != Lookup(Model(s), k.0, k.1);
    }
  }

  /** Converting a grouped world to a simple one and back gives the same map, and so the same
      entities together under the same types, whatever the archetype ids. */
  lemma RoundTrip(g: Groups, s: SimpleState, h: Groups, x: EntityId, y: EntityId)
    requires Grouped(g) && TableOnly(s) && Model(s) == Flat(g)
    requires Grouped(h) && Flat(h) == ListedPart(s)
    ensures Flat(h) == Flat(g)
    ensures TypesOf(h, x) == TypesOf(g, x)
    ensures x in h.home <==> x in g.home
    ensures y in h.home <==> y in g.home
    ensures x in h.home && y in h.home ==> (h.home[x] == h.home[y] <==> g.home[x] == g.home[y])
  {
    MapsAgree(ListedPart(s), Model(s));
    SameMapSameGrouping(h, g, x, y);
  }
}
