/** The groups of `src/archetype_world`: entities by their component types, and the flat map from
    (entity, component type) to data that a grouping means. */
module EntityGroups {
  import opened Collections
  import opened SimpleWorlds

  type ArchetypeId = nat

  /** Archetypes live in a host map, which hands out copies: one is read, changed and written back. */
  datatype Archetype = Archetype(id: ArchetypeId, types: seq<Symbol>, entities: seq<EntityId>, data: map<Key, Bytes>) {

    method HasComponentType(t: Symbol) returns (has: bool)
      ensures has <==> t in types
    {
      for i := 0 to |types|
        invariant t !in types[..i]
      {
        if types[i] == t {
          return true;
        }
      }
      assert types[..|types|] == types;
      return false;
    }

    method Matches(required: seq<Symbol>) returns (all: bool)
      ensures all <==> forall t | t in required :: t in types
    {
      for i := 0 to |required|
        invariant forall t | t in required[..i] :: t in types
      {
        var has := HasComponentType(required[i]);
        if !has {
          return false;
        }
      }
      assert required[..|required|] == required;
      return true;
    }

    method OtherEntities(e: EntityId) returns (kept: seq<EntityId>)
      ensures kept == Outside(entities, {e})
    {
      kept := [];
      for i := 0 to |entities|
        invariant kept == Outside(entities[..i], {e})
      {
        assert entities[..i + 1] == entities[..i] + [entities[i]];
        OutsideSnoc(entities[..i], entities[i], {e});
        if entities[i] != e {
          kept := kept + [entities[i]];
        }
      }
      assert entities[..|entities|] == entities;
    }

    /** The archetype without the entity, and the data that was the entity's. */
    method RemoveEntity(e: EntityId) returns (rest: Archetype, extracted: map<Symbol, Bytes>)
      ensures rest == WithoutOne(this, e) && extracted == Extracted(this, e)
    {
      var kept := OtherEntities(e);
      var left := data;
      extracted := map[];
      for i := 0 to |types|
        invariant left == Swept(data, e, types[..i]) && extracted == DataUnder(data, e, types[..i])
      {
        assert types[..i + 1] == types[..i] + [types[i]];
        ExtractOneMore(data, e, types[..i], types[i]);
        if (e, types[i]) in left {
          extracted := extracted[types[i] := left[(e, types[i])]];
          left := left - {(e, types[i])};
        }
      }
      assert types[..|types|] == types;
      rest := Archetype(id, types, kept, left);
    }
  }

  function WithoutOne(a: Archetype, e: EntityId): Archetype {
    a.(entities := Outside(a.entities, {e}), data := Swept(a.data, e, a.types))
  }

  function DataUnder(data: map<Key, Bytes>, e: EntityId, types: seq<Symbol>): map<Symbol, Bytes> {
    map t | t in types && (e, t) in data :: data[(e, t)]
  }

  function Extracted(a: Archetype, e: EntityId): map<Symbol, Bytes> {
    DataUnder(a.data, e, a.types)
  }

  lemma ExtractOneMore(data: map<Key, Bytes>, e: EntityId, types: seq<Symbol>, t: Symbol)
    ensures var left, taken := Swept(data, e, types), DataUnder(data, e, types);
            && Swept(data, e, types + [t]) == (if (e, t) in left then left - {(e, t)} else left)
            && DataUnder(data, e, types + [t]) == (if (e, t) in left then taken[t := left[(e, t)]] else taken)
  {
    SweepOneMore(data, e, types, t);
    var left, taken := Swept(data, e, types), DataUnder(data, e, types);
    if (e, t) in left {
      MapUpdatedAt(taken, DataUnder(data, e, types + [t]), t, left[(e, t)]);
    } else {
      assert left - {(e, t)} == left;
      MapsAgree(DataUnder(data, e, types + [t]), taken);
    }
  }

  /** One entity's data, keyed as in the flat map. */
  function Keyed(e: EntityId, d: map<Symbol, Bytes>): map<Key, Bytes> {
    map k | k in (set t | t in d :: (e, t)) :: d[k.1]
  }

  function WithOne(a: Archetype, e: EntityId, d: map<Symbol, Bytes>): Archetype {
    a.(entities := a.entities + [e], data := a.data + Keyed(e, d))
  }

  /** The grouping of entities: `index` finds the archetype of a type list, `home` that of an
      entity. */
  datatype Groups = Groups(
    nextId: ArchetypeId,
    archetypes: map<ArchetypeId, Archetype>,
    index: map<seq<Symbol>, ArchetypeId>,
    home: map<EntityId, ArchetypeId>)

  // ----- meaning and invariants -----

  function DataKeys(g: Groups): set<Key> {
    set i, k | i in g.archetypes && k in g.archetypes[i].data :: k
  }

  /** Where a lookup finds the component: in the archetype the entity is in. */
  predicate Holds(g: Groups, k: Key) {
    k.0 in g.home && g.home[k.0] in g.archetypes && k in g.archetypes[g.home[k.0]].data
  }

  /** The flat map a world means. */
  function Flat(g: Groups): map<Key, Bytes> {
    map k | k in DataKeys(g) && Holds(g, k) :: g.archetypes[g.home[k.0]].data[k]
  }

  ghost predicate ArchetypeOk(a: Archetype) {
    && StrictlySorted(a.types) && a.types != [] && NoDup(a.entities)
    && (forall k {:trigger k in a.data} :: k in a.data <==> k.0 in a.entities && k.1 in a.types)
  }

  /** Archetypes and sorted type lists correspond one to one. */
  ghost predicate Indexed(g: Groups) {
    && (forall i: ArchetypeId {:trigger i in g.archetypes} :: i in g.archetypes <==> i < g.nextId)
    && (forall i {:trigger g.archetypes[i]} | i in g.archetypes ::
          g.archetypes[i].id == i && g.archetypes[i].types in g.index && g.index[g.archetypes[i].types] == i)
    && (forall ts {:trigger g.index[ts]} | ts in g.index ::
        g.index[ts] in g.archetypes && g.archetypes[g.index[ts]].types == ts)
  }

  /** Each entity is in exactly the archetype it is recorded in. */
  ghost predicate Housed(g: Groups) {
    && (forall e {:trigger g.home[e]} | e in g.home ::
          g.home[e] in g.archetypes && e in g.archetypes[g.home[e]].entities)
    && (forall i, e {:trigger e in g.archetypes[i].entities} | i in g.archetypes && e in g.archetypes[i].entities ::
          e in g.home && g.home[e] == i)
  }

  ghost predicate Grouped(g: Groups) {
    && Indexed(g) && Housed(g)
    && (forall i {:trigger ArchetypeOk(g.archetypes[i])} | i in g.archetypes :: ArchetypeOk(g.archetypes[i]))
  }

  lemma FlatAt(g: Groups, k: Key)
    requires Grouped(g)
    ensures k in Flat(g) <==> k.0 in g.home && k.1 in g.archetypes[g.home[k.0]].types
    ensures k in Flat(g) ==> Flat(g)[k] == g.archetypes[g.home[k.0]].data[k]
  {
    if k.0 in g.home {
      assert ArchetypeOk(g.archetypes[g.home[k.0]]);
      assert k in g.archetypes[g.home[k.0]].data ==> k in DataKeys(g);
    }
  }

  // ----- moving an entity -----

  function At(g: Groups, i: ArchetypeId): Archetype {
    if i in g.archetypes then g.archetypes[i] else Archetype(i, [], [], map[])
  }

  function TypesOf(g: Groups, e: EntityId): seq<Symbol> {
    if e in g.home then At(g, g.home[e]).types else []
  }

  function DataOf(g: Groups, e: EntityId): map<Symbol, Bytes> {
    if e in g.home then Extracted(At(g, g.home[e]), e) else map[]
  }

  /** The entity leaves its archetype. */
  function Left(g: Groups, e: EntityId): Groups {
    if e !in g.home then g
    else g.(archetypes := g.archetypes[g.home[e] := WithoutOne(At(g, g.home[e]), e)], home := g.home - {e})
  }

  /** The archetype with these types exists. */
  function Interned(g: Groups, types: seq<Symbol>): Groups {
    if types in g.index then g
    else
      g.(nextId := g.nextId + 1,
         archetypes := g.archetypes[g.nextId := Archetype(g.nextId, types, [], map[])],
         index := g.index[types := g.nextId])
  }

  /** The entity enters an archetype. */
  function Placed(g: Groups, e: EntityId, i: ArchetypeId, d: map<Symbol, Bytes>): Groups {
    g.(archetypes := g.archetypes[i := WithOne(At(g, i), e, d)], home := g.home[e := i])
  }

  /** The entity enters the archetype with these types. */
  function Entered(g: Groups, e: EntityId, types: seq<Symbol>, d: map<Symbol, Bytes>): Groups {
    var g' := Interned(g, types);
    Placed(g', e, g'.index[types], d)
  }

  lemma LeftArchetypeOk(a: Archetype, e: EntityId)
    requires ArchetypeOk(a)
    ensures ArchetypeOk(WithoutOne(a, e))
    ensures forall x: EntityId :: x in WithoutOne(a, e).entities <==> x in a.entities && x != e
    ensures WithoutOne(a, e).data == WithoutEntity(a.data, e)
  {
    var b := WithoutOne(a, e);
    OutsideNoDup(a.entities, {e});
    OutsideElems(a.entities, {e});
    forall x: EntityId
      ensures x in b.entities <==> x in a.entities && x != e
    {
      assert x in Elems(b.entities) <==> x in Elems(a.entities) - {e};
    }
    assert b.data.Keys == WithoutEntity(a.data, e).Keys;
    MapsAgree(b.data, WithoutEntity(a.data, e));
  }

  lemma LeavingKeepsGroups(g: Groups, e: EntityId)
    requires Grouped(g)
    ensures Grouped(Left(g, e)) && e !in Left(g, e).home
  {
    if e in g.home {
      var g' := Left(g, e);
      LeftArchetypeOk(g.archetypes[g.home[e]], e);
      assert ArchetypeOk(g.archetypes[g.home[e]]);
      forall i | i in g'.archetypes
        ensures ArchetypeOk(g'.archetypes[i])
      {
        assert ArchetypeOk(g.archetypes[i]);
      }
    }
  }

  /** `g'` is `g` but for entity `e`, whose keys are gone from its archetype. */
  ghost predicate LeftBehind(g: Groups, g': Groups, e: EntityId)
    requires e in g.home && g.home[e] in g.archetypes
  {
    && g'.home == g.home - {e} && g'.archetypes.Keys == g.archetypes.Keys
    && (forall i | i in g.archetypes && i != g.home[e] :: g'.archetypes[i] == g.archetypes[i])
    && g'.archetypes[g.home[e]].types == g.archetypes[g.home[e]].types
    && g'.archetypes[g.home[e]].data == WithoutEntity(g.archetypes[g.home[e]].data, e)
  }

  lemma LeftIsLeftBehind(g: Groups, e: EntityId)
    requires Grouped(g) && e in g.home
    ensures g.home[e] in g.archetypes && LeftBehind(g, Left(g, e), e)
  {
    assert ArchetypeOk(g.archetypes[g.home[e]]);
    LeftArchetypeOk(g.archetypes[g.home[e]], e);
  }

  lemma LeftBehindAt(g: Groups, g': Groups, e: EntityId, k: Key)
    requires Grouped(g) && Grouped(g') && e in g.home && g.home[e] in g.archetypes && LeftBehind(g, g', e)
    ensures k in Flat(g') <==> k in Flat(g) && k.0 != e
    ensures k in Flat(g') ==> Flat(g')[k] == Flat(g)[k]
  {
    FlatAt(g, k);
    FlatAt(g', k);
    if k.0 in g'.home {
      assert ArchetypeOk(g'.archetypes[g'.home[k.0]]);
    }
  }

  lemma LeftAt(g: Groups, e: EntityId, k: Key)
    requires Grouped(g)
    ensures k in Flat(Left(g, e)) <==> k in Flat(g) && k.0 != e
    ensures k in Flat(Left(g, e)) ==> Flat(Left(g, e))[k] == Flat(g)[k]
  {
    if e in g.home {
      LeavingKeepsGroups(g, e);
      LeftIsLeftBehind(g, e);
      LeftBehindAt(g, Left(g, e), e, k);
    } else {
      FlatAt(g, k);
    }
  }

  lemma LeavingDeletesTheEntity(g: Groups, e: EntityId)
    requires Grouped(g)
    ensures Flat(Left(g, e)) == WithoutEntity(Flat(g), e)
  {
    var before, after := Flat(g), Flat(Left(g, e));
    forall k: Key
      ensures k in after <==> k in before && k.0 != e
      ensures k in after ==> after[k] == before[k]
    {
      LeftAt(g, e, k);
    }
    MapsAgree(after, WithoutEntity(before, e));
  }

  lemma InterningKeepsGroups(g: Groups, types: seq<Symbol>)
    requires Grouped(g) && StrictlySorted(types) && types != []
    ensures var g' := Interned(g, types);
            && Grouped(g') && types in g'.index && g'.archetypes[g'.index[types]].types == types
            && Flat(g') == Flat(g) && g'.home == g.home
  {
    var g' := Interned(g, types);
    if types !in g.index {
      var a := g'.archetypes[g.nextId];
      assert ArchetypeOk(a) && g.nextId !in g.archetypes;
      forall i | i in g'.archetypes
        ensures ArchetypeOk(g'.archetypes[i])
      {
        assert i != g.nextId ==> ArchetypeOk(g.archetypes[i]);
      }
      assert Indexed(g') && Housed(g');
      forall k: Key
        ensures k in Flat(g') <==> k in Flat(g)
        ensures k in Flat(g') ==> Flat(g')[k] == Flat(g)[k]
      {
        FlatAt(g, k);
        FlatAt(g', k);
      }
      MapsAgree(Flat(g'), Flat(g));
    }
  }

  lemma EnteredArchetypeOk(a: Archetype, e: EntityId, d: map<Symbol, Bytes>)
    requires ArchetypeOk(a) && e !in a.entities && d.Keys == Elems(a.types)
    ensures ArchetypeOk(WithOne(a, e, d))
    ensures forall k | k in a.data || (k.0 == e && k.1 in d) ::
              k in WithOne(a, e, d).data && WithOne(a, e, d).data[k] == if k.0 == e then d[k.1] else a.data[k]
  {
    var b := WithOne(a, e, d);
    forall k: Key
      ensures k in b.data <==> k.0 in b.entities && k.1 in b.types
    {
      assert k in Keyed(e, d) <==> k.0 == e && k.1 in d;
      assert k.1 in d <==> k.1 in Elems(a.types);
    }
  }

  /** An entity that enters an archetype is its last, and one that leaves changes nobody's order. */
  lemma EntitiesKeepOrder(g: Groups, e: EntityId, i: ArchetypeId, d: map<Symbol, Bytes>)
    requires Grouped(g) && i in g.archetypes
    ensures Placed(g, e, i, d).archetypes[i].entities == g.archetypes[i].entities + [e]
    ensures i in Left(g, e).archetypes && InOrderOf(Left(g, e).archetypes[i].entities, g.archetypes[i].entities)
  {
    assert ArchetypeOk(g.archetypes[i]);
    FiltersKeepOrder(g.archetypes[i].entities, {e});
    FiltersKeepOrder(g.archetypes[i].entities, {});
  }

  lemma PlacingKeepsHousing(g: Groups, e: EntityId, i: ArchetypeId, d: map<Symbol, Bytes>)
    requires Housed(g) && e !in g.home && i in g.archetypes
    ensures Housed(Placed(g, e, i, d))
  {
    var g' := Placed(g, e, i, d);
    forall x | x in g'.home
      ensures g'.home[x] in g'.archetypes && x in g'.archetypes[g'.home[x]].entities
    {
      if x == e {
        assert g'.archetypes[i].entities == g.archetypes[i].entities + [e];
      } else {
        assert x in g.home && g.home[x] in g.archetypes && x in g.archetypes[g.home[x]].entities;
      }
    }
    forall j, x | j in g'.archetypes && x in g'.archetypes[j].entities
      ensures x in g'.home && g'.home[x] == j
    {
      assert x in g.archetypes[j].entities || (j == i && x == e);
    }
  }

  lemma PlacingKeepsGroups(g: Groups, e: EntityId, i: ArchetypeId, d: map<Symbol, Bytes>)
    requires Grouped(g) && e !in g.home && i in g.archetypes && d.Keys == Elems(g.archetypes[i].types)
    ensures Grouped(Placed(g, e, i, d))
  {
    var g' := Placed(g, e, i, d);
    assert ArchetypeOk(g.archetypes[i]);
    EnteredArchetypeOk(g.archetypes[i], e, d);
    forall j | j in g'.archetypes
      ensures ArchetypeOk(g'.archetypes[j])
    {
      assert ArchetypeOk(g.archetypes[j]);
    }
    assert Indexed(g');
    PlacingKeepsHousing(g, e, i, d);
  }

  lemma PlacedAt(g: Groups, e: EntityId, i: ArchetypeId, d: map<Symbol, Bytes>, k: Key)
    requires Grouped(g) && e !in g.home && i in g.archetypes && d.Keys == Elems(g.archetypes[i].types)
    ensures var g' := Placed(g, e, i, d);
            && (k in Flat(g') <==> k in Flat(g) || k in Keyed(e, d))
            && (k in Flat(g') ==> Flat(g')[k] == if k in Keyed(e, d) then Keyed(e, d)[k] else Flat(g)[k])
  {
    var g' := Placed(g, e, i, d);
    PlacingKeepsGroups(g, e, i, d);
    FlatAt(g, k);
    FlatAt(g', k);
    assert k in Keyed(e, d) <==> k.0 == e && k.1 in Elems(g.archetypes[i].types);
    if k.0 in g'.home && g'.home[k.0] == i {
      assert ArchetypeOk(g.archetypes[i]);
      EnteredArchetypeOk(g.archetypes[i], e, d);
    }
  }

  lemma PlacingAddsTheEntity(g: Groups, e: EntityId, i: ArchetypeId, d: map<Symbol, Bytes>)
    requires Grouped(g) && e !in g.home && i in g.archetypes && d.Keys == Elems(g.archetypes[i].types)
    ensures Flat(Placed(g, e, i, d)) == Flat(g) + Keyed(e, d)
  {
    var before, after, d' := Flat(g), Flat(Placed(g, e, i, d)), Keyed(e, d);
    forall k: Key
      ensures k in after <==> k in before || k in d'
      ensures k in after ==> after[k] == if k in d' then d'[k] else before[k]
    {
      PlacedAt(g, e, i, d, k);
    }
    MapUnion(before, d', after);
  }

  lemma EnteringAddsTheEntity(g: Groups, e: EntityId, types: seq<Symbol>, d: map<Symbol, Bytes>)
    requires Grouped(g) && e !in g.home && StrictlySorted(types) && types != [] && d.Keys == Elems(types)
    ensures Grouped(Entered(g, e, types, d))
    ensures Flat(Entered(g, e, types, d)) == Flat(g) + Keyed(e, d)
  {
    InterningKeepsGroups(g, types);
    var g' := Interned(g, types);
    PlacingKeepsGroups(g', e, g'.index[types], d);
    PlacingAddsTheEntity(g', e, g'.index[types], d);
  }

  // ----- what each operation does to the groups -----

  function AddedTo(g: Groups, e: EntityId, t: Symbol, data: Bytes): Groups {
    if t in TypesOf(g, e) then
      var a := At(g, g.home[e]);
      g.(archetypes := g.archetypes[g.home[e] := a.(data := a.data[(e, t) := data])])
    else
      Entered(Left(g, e), e, Sort(TypesOf(g, e) + [t]), DataOf(g, e)[t := data])
  }

  function RemovedFrom(g: Groups, e: EntityId, t: Symbol): Groups {
    var types := Outside(TypesOf(g, e), {t});
    if t !in TypesOf(g, e) then g
    else if types == [] then Left(g, e)
    else Entered(Left(g, e), e, types, DataOf(g, e) - {t})
  }

  // ----- what each operation means -----

  /** `d` is the entity's part of a flat map. */
  ghost predicate DataIn(m: map<Key, Bytes>, e: EntityId, d: map<Symbol, Bytes>) {
    && (forall t: Symbol {:trigger t in d} :: t in d <==> (e, t) in m)
    && (forall t: Symbol {:trigger d[t]} | t in d :: d[t] == m[(e, t)])
  }

  lemma DataOfAt(g: Groups, e: EntityId)
    requires Grouped(g)
    ensures StrictlySorted(TypesOf(g, e)) && (TypesOf(g, e) == [] <==> e !in g.home)
    ensures DataOf(g, e).Keys == Elems(TypesOf(g, e)) && DataIn(Flat(g), e, DataOf(g, e))
  {
    forall t: Symbol
      ensures (e, t) in Flat(g) <==> t in TypesOf(g, e)
      ensures (e, t) in Flat(g) ==> t in DataOf(g, e) && DataOf(g, e)[t] == Flat(g)[(e, t)]
    {
      FlatAt(g, (e, t));
    }
    if e in g.home {
      assert ArchetypeOk(g.archetypes[g.home[e]]);
    }
  }

  /** Taking the entity's keys out and putting its data back with one component set is one update. */
  lemma RebuiltWithOne(m: map<Key, Bytes>, e: EntityId, d: map<Symbol, Bytes>, t: Symbol, data: Bytes)
    requires DataIn(m, e, d)
    ensures WithoutEntity(m, e) + Keyed(e, d[t := data]) == m[(e, t) := data]
  {
    MapsAgree(WithoutEntity(m, e) + Keyed(e, d[t := data]), m[(e, t) := data]);
  }

  lemma RebuiltWithoutOne(m: map<Key, Bytes>, e: EntityId, d: map<Symbol, Bytes>, t: Symbol)
    requires DataIn(m, e, d)
    ensures WithoutEntity(m, e) + Keyed(e, d - {t}) == m - {(e, t)}
    ensures d.Keys <= {t} ==> WithoutEntity(m, e) == m - {(e, t)}
  {
    MapsAgree(WithoutEntity(m, e) + Keyed(e, d - {t}), m - {(e, t)});
    if d.Keys <= {t} {
      forall k
        ensures k in WithoutEntity(m, e) <==> k in m && k != (e, t)
      {
        assert k in m && k.0 == e ==> k.1 in d;
      }
      MapsAgree(WithoutEntity(m, e), m - {(e, t)});
    }
  }

  /** Setting data that is already there, in place. */
  lemma UpdatingKeepsGroups(g: Groups, e: EntityId, t: Symbol, data: Bytes)
    requires Grouped(g) && t in TypesOf(g, e)
    ensures Grouped(AddedTo(g, e, t, data))
  {
    var g' := AddedTo(g, e, t, data);
    assert ArchetypeOk(g.archetypes[g.home[e]]);
    forall i | i in g'.archetypes
      ensures ArchetypeOk(g'.archetypes[i])
    {
      assert ArchetypeOk(g.archetypes[i]);
    }
    assert Indexed(g') && Housed(g');
  }

  lemma UpdatedAt(g: Groups, e: EntityId, t: Symbol, data: Bytes, k: Key)
    requires Grouped(g) && t in TypesOf(g, e)
    ensures var g' := AddedTo(g, e, t, data);
            && (e, t) in Flat(g)
            && (k in Flat(g') <==> k in Flat(g))
            && (k in Flat(g') ==> Flat(g')[k] == if k == (e, t) then data else Flat(g)[k])
  {
    UpdatingKeepsGroups(g, e, t, data);
    FlatAt(g, k);
    FlatAt(AddedTo(g, e, t, data), k);
    FlatAt(g, (e, t));
  }

  lemma UpdatingInPlace(g: Groups, e: EntityId, t: Symbol, data: Bytes)
    requires Grouped(g) && t in TypesOf(g, e)
    ensures Flat(AddedTo(g, e, t, data)) == Flat(g)[(e, t) := data]
  {
    var before, after := Flat(g), Flat(AddedTo(g, e, t, data));
    forall k: Key
      ensures k in after <==> k in before && (e, t) in before
      ensures k in after ==> after[k] == if k == (e, t) then data else before[k]
    {
      UpdatedAt(g, e, t, data, k);
    }
    UpdatedAt(g, e, t, data, (e, t));
    MapUpdatedAt(before, after, (e, t), data);
  }

  lemma NewTypes(types: seq<Symbol>, d: map<Symbol, Bytes>, t: Symbol, data: Bytes)
    requires StrictlySorted(types) && t !in types && d.Keys == Elems(types)
    ensures StrictlySorted(Sort(types + [t])) && Sort(types + [t]) != []
    ensures d[t := data].Keys == Elems(Sort(types + [t]))
  {
    var more := types + [t];
    assert NoDup(more) && Elems(more) == Elems(types) + {t};
    SortSorts(more);
    SortElems(more);
    assert more[0] in Elems(Sort(more));
  }

  /** An entity that leaves its archetype for another takes just the given data along. */
  lemma MovingReplacesTheEntity(g: Groups, e: EntityId, types: seq<Symbol>, d: map<Symbol, Bytes>)
    requires Grouped(g) && StrictlySorted(types) && types != [] && d.Keys == Elems(types)
    ensures Grouped(Entered(Left(g, e), e, types, d))
    ensures Flat(Entered(Left(g, e), e, types, d)) == WithoutEntity(Flat(g), e) + Keyed(e, d)
  {
    LeavingKeepsGroups(g, e);
    LeavingDeletesTheEntity(g, e);
    EnteringAddsTheEntity(Left(g, e), e, types, d);
  }

  /** Adding a component is one update of the flat map, even when it moves the entity. */
  lemma AddingMeansOneUpdate(g: Groups, e: EntityId, t: Symbol, data: Bytes)
    requires Grouped(g)
    ensures Grouped(AddedTo(g, e, t, data))
    ensures Flat(AddedTo(g, e, t, data)) == Flat(g)[(e, t) := data]
  {
    if t in TypesOf(g, e) {
      UpdatingKeepsGroups(g, e, t, data);
      UpdatingInPlace(g, e, t, data);
    } else {
      var types, d := TypesOf(g, e), DataOf(g, e);
      DataOfAt(g, e);
      NewTypes(types, d, t, data);
      MovingReplacesTheEntity(g, e, Sort(types + [t]), d[t := data]);
      RebuiltWithOne(Flat(g), e, d, t, data);
    }
  }

  /** What is left of an entity's types and data when one component is taken out. */
  lemma RemainingTypes(types: seq<Symbol>, d: map<Symbol, Bytes>, t: Symbol)
    requires StrictlySorted(types) && d.Keys == Elems(types)
    ensures StrictlySorted(Outside(types, {t})) && (d - {t}).Keys == Elems(Outside(types, {t}))
    ensures Outside(types, {t}) == [] <==> d.Keys <= {t}
  {
    OutsideSorted(types, {t});
    OutsideElems(types, {t});
    var rest := Outside(types, {t});
    assert rest != [] ==> rest[0] in Elems(rest);
  }

  /** Removing a component is one deletion. */
  lemma RemovingMeansOneDeletion(g: Groups, e: EntityId, t: Symbol)
    requires Grouped(g)
    ensures Grouped(RemovedFrom(g, e, t))
    ensures Flat(RemovedFrom(g, e, t)) == Flat(g) - {(e, t)}
    ensures t in TypesOf(g, e) <==> (e, t) in Flat(g)
  {
    var types, d := TypesOf(g, e), DataOf(g, e);
    DataOfAt(g, e);
    assert t in d <==> t in Elems(types);
    assert t in d <==> (e, t) in Flat(g);
    if t in types {
      RemainingTypes(types, d, t);
      RebuiltWithoutOne(Flat(g), e, d, t);
      if Outside(types, {t}) == [] {
        LeavingKeepsGroups(g, e);
        LeavingDeletesTheEntity(g, e);
      } else {
        MovingReplacesTheEntity(g, e, Outside(types, {t}), d - {t});
      }
    } else {
      WithoutNothing(Flat(g), (e, t));
    }
  }
}
