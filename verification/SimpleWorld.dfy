/** `src/simple_world.rs`: two maps of component data and a type list per entity. */
module SimpleWorlds {
  import opened Collections

  type EntityId = nat

  /** A symbol is its rank in the host's total order of symbols. */
  type Symbol = nat

  type Byte = b: int | 0 <= b < 256
  type Bytes = seq<Byte>

  type Key = (EntityId, Symbol)

  datatype ComponentStorage = Table | Sparse

  datatype SimpleState = SimpleState(
    nextEntityId: EntityId,
    components: map<Key, Bytes>,
    sparse: map<Key, Bytes>,
    lists: map<EntityId, seq<Symbol>>,
    version: nat)

  // ----- meaning and invariants -----

  predicate Stored(s: SimpleState, e: EntityId, t: Symbol) {
    (e, t) in s.components || (e, t) in s.sparse
  }

  predicate Listed(s: SimpleState, e: EntityId, t: Symbol) {
    e in s.lists && t in s.lists[e]
  }

  /** The flat map a world means: table data hides sparse data under the same key. */
  function Model(s: SimpleState): map<Key, Bytes> {
    s.sparse + s.components
  }

  function Lookup(m: map<Key, Bytes>, e: EntityId, t: Symbol): Option<Bytes> {
    if (e, t) in m then Some(m[(e, t)]) else None
  }

  /** Type lists have no duplicates and are never empty, everything listed is stored, and a world
      that never changed is empty. */
  ghost predicate Ok(s: SimpleState) {
    && (forall e | e in s.lists :: s.lists[e] != [] && NoDup(s.lists[e]) && forall t | t in s.lists[e] ::
        Stored(s, e, t))
    && (s.version == 0 ==> s.lists == map[] && Model(s) == map[])
  }

  /** Each component type always uses one kind of storage, as the typed interface does. */
  ghost predicate SingleKind(s: SimpleState, kind: Symbol -> ComponentStorage) {
    && (forall k | k in s.components :: kind(k.1) == Table)
    && (forall k | k in s.sparse :: kind(k.1) == Sparse)
  }

  ghost predicate AllListed(s: SimpleState) {
    forall k | k in Model(s) :: Listed(s, k.0, k.1)
  }

  /** The stored components that are also listed. */
  function ListedPart(s: SimpleState): map<Key, Bytes> {
    map k | k in Model(s) && Listed(s, k.0, k.1) :: Model(s)[k]
  }

  // ----- what each operation does -----

  function Added(s: SimpleState, e: EntityId, t: Symbol, data: Bytes, storage: ComponentStorage): SimpleState {
    var types := if e in s.lists then s.lists[e] else [];
    s.(components := if storage == Table then s.components[(e, t) := data] else s.components,
       sparse := if storage == Sparse then s.sparse[(e, t) := data] else s.sparse,
       lists := s.lists[e := if t in types then types else types + [t]],
       version := s.version + 1)
  }

  /** Takes from the table, and from the sparse map only if the table had nothing. */
  function Removed(s: SimpleState, e: EntityId, t: Symbol): SimpleState {
    if !Stored(s, e, t) then s.(version := s.version + 1)
    else
      s.(components := s.components - {(e, t)},
         sparse := if (e, t) in s.components then s.sparse else s.sparse - {(e, t)},
         lists := if e !in s.lists then s.lists
                  else if Outside(s.lists[e], {t}) == [] then s.lists - {e}
                  else s.lists[e := Outside(s.lists[e], {t})],
         version := s.version + 1)
  }

  /** A map without the given types of one entity. */
  function Swept(m: map<Key, Bytes>, e: EntityId, types: seq<Symbol>): map<Key, Bytes> {
    map k | k in m && !(k.0 == e && k.1 in types) :: m[k]
  }

  /** Only listed components are taken from the two maps. */
  function Despawned(s: SimpleState, e: EntityId): SimpleState {
    var types := if e in s.lists then s.lists[e] else [];
    s.(components := Swept(s.components, e, types),
       sparse := Swept(s.sparse, e, types),
       lists := s.lists - {e},
       version := s.version + 1)
  }

  function Spawned(s: SimpleState): SimpleState {
    s.(nextEntityId := s.nextEntityId + 1)
  }

  /** What the three entity queries look for: listed entities that list the type, have it in the
      table, or have it in either map. All three walk the listed entities in ascending order. */
  ghost function ListOwners(s: SimpleState, t: Symbol): set<EntityId> {
    set e | e in s.lists && t in s.lists[e]
  }

  ghost function TableOwners(s: SimpleState, t: Symbol): set<EntityId> {
    set e | e in s.lists && (e, t) in s.components
  }

  ghost function StoredOwners(s: SimpleState, t: Symbol): set<EntityId> {
    set e | e in s.lists && Stored(s, e, t)
  }

  ghost function ListScan(s: SimpleState, t: Symbol): seq<EntityId> {
    Within(Ascending(s.lists.Keys), ListOwners(s, t))
  }

  ghost function TableScan(s: SimpleState, t: Symbol): seq<EntityId> {
    Within(Ascending(s.lists.Keys), TableOwners(s, t))
  }

  ghost function StoredScan(s: SimpleState, t: Symbol): seq<EntityId> {
    Within(Ascending(s.lists.Keys), StoredOwners(s, t))
  }

  // ----- every operation keeps the invariants -----

  lemma AddedKeepsOk(s: SimpleState, e: EntityId, t: Symbol, data: Bytes, storage: ComponentStorage)
    requires Ok(s)
    ensures Ok(Added(s, e, t, data, storage))
    ensures AllListed(s) ==> AllListed(Added(s, e, t, data, storage))
  {
    var s' := Added(s, e, t, data, storage);
    forall x, u | x in s'.lists && u in s'.lists[x]
      ensures Stored(s', x, u)
    {
      assert (x, u) != (e, t) ==> Stored(s, x, u);
    }
    forall k | k in Model(s') && AllListed(s)
      ensures Listed(s', k.0, k.1)
    {
      assert k != (e, t) ==> k in Model(s) && Listed(s, k.0, k.1);
    }
  }

  lemma DroppedList(s: SimpleState, e: EntityId, t: Symbol)
    requires Ok(s) && e in s.lists
    ensures NoDup(Outside(s.lists[e], {t}))
    ensures forall u :: u in Outside(s.lists[e], {t}) <==> u in s.lists[e] && u != t
  {
    OutsideNoDup(s.lists[e], {t});
    OutsideElems(s.lists[e], {t});
    var kept := Outside(s.lists[e], {t});
    forall u
      ensures u in kept <==> u in s.lists[e] && u != t
    {
      assert u in Elems(kept) <==> u in Elems(s.lists[e]) - {t};
    }
  }

  lemma RemovedKeepsOk(s: SimpleState, e: EntityId, t: Symbol)
    requires Ok(s)
    ensures Ok(Removed(s, e, t))
  {
    var s' := Removed(s, e, t);
    if Stored(s, e, t) && e in s.lists {
      DroppedList(s, e, t);
    }
    forall x | x in s'.lists
      ensures s'.lists[x] != [] && NoDup(s'.lists[x])
      ensures forall u | u in s'.lists[x] :: Stored(s', x, u)
    {
      forall u | u in s'.lists[x]
        ensures Stored(s', x, u)
      {
        assert Stored(s, x, u) && (Stored(s, e, t) ==> (x, u) != (e, t));
      }
    }
  }

  lemma DespawnedKeepsOk(s: SimpleState, e: EntityId)
    requires Ok(s)
    ensures Ok(Despawned(s, e))
    ensures AllListed(s) ==> AllListed(Despawned(s, e))
  {
    var s' := Despawned(s, e);
    forall x, u | x in s'.lists && u in s'.lists[x]
      ensures Stored(s', x, u)
    {
      assert Stored(s, x, u);
    }
  }

  // ----- what each operation does, field by field -----

  lemma SpawnMeans(s: SimpleState)
    ensures Spawned(s).nextEntityId == s.nextEntityId + 1
    ensures Spawned(s).(nextEntityId := s.nextEntityId) == s
  {
  }

  /** Adding writes one key of one map and lists the type last, unless it is listed already. */
  lemma AddMeans(s: SimpleState, e: EntityId, t: Symbol, data: Bytes, storage: ComponentStorage)
    ensures var s' := Added(s, e, t, data, storage);
            && s'.nextEntityId == s.nextEntityId && s'.version == s.version + 1
            && (storage == Table ==> s'.components == s.components[(e, t) := data] && s'.sparse == s.sparse)
            && (storage == Sparse ==> s'.sparse == s.sparse[(e, t) := data] && s'.components == s.components)
            && s'.lists.Keys == s.lists.Keys + {e} && s'.lists - {e} == s.lists - {e}
            && (e !in s.lists ==> s'.lists[e] == [t])
            && (e in s.lists && t in s.lists[e] ==> s'.lists[e] == s.lists[e])
            && (e in s.lists && t !in s.lists[e] ==> s'.lists[e] == s.lists[e] + [t])
  {
  }

  /** Removing takes the table's copy if there is one, else the sparse copy, and unlists the type; the
      entity's other types keep their order, and an entity without types has no list. */
  lemma RemoveMeans(s: SimpleState, e: EntityId, t: Symbol)
    requires Ok(s)
    ensures var s' := Removed(s, e, t);
            && s'.nextEntityId == s.nextEntityId && s'.version == s.version + 1
            && s'.components == s.components - {(e, t)}
            && ((e, t) in s.components ==> s'.sparse == s.sparse)
            && ((e, t) !in s.components ==> s'.sparse == s.sparse - {(e, t)})
            && s'.lists - {e} == s.lists - {e}
            && (forall u :: e in s'.lists && u in s'.lists[e] <==> e in s.lists && u in s.lists[e] && u != t)
            && (e in s'.lists ==> e in s.lists && s'.lists[e] != [] && InOrderOf(s'.lists[e], s.lists[e]))
  {
    var s' := Removed(s, e, t);
    RemovedKeepsOk(s, e, t);
    if !Stored(s, e, t) {
      WithoutNothing(s.components, (e, t));
      WithoutNothing(s.sparse, (e, t));
      assert e in s.lists ==> t !in s.lists[e];
      assert e in s.lists ==> InOrderOf(s.lists[e], s.lists[e]);
    } else if e in s.lists {
      DroppedList(s, e, t);
      FiltersKeepOrder(s.lists[e], {t});
      assert Outside(s.lists[e], {t}) == [] ==> forall u :: u !in Outside(s.lists[e], {t});
    }
  }

  /** Despawning takes exactly the listed types of the entity out of both maps, and drops its list. */
  lemma DespawnMeans(s: SimpleState, e: EntityId)
    ensures var s' := Despawned(s, e);
            && s'.nextEntityId == s.nextEntityId && s'.version == s.version + 1 && s'.lists == s.lists - {e}
            && (forall k: Key :: k in s'.components
                                 <==> k in s.components && !(k.0 == e && e in s.lists && k.1 in s.lists[e]))
            && (forall k: Key :: k in s'.sparse <==> k in s.sparse && !(k.0 == e && e in s.lists && k.1 in s.lists[e]))
            && (forall k | k in s'.components :: s'.components[k] == s.components[k])
            && (forall k | k in s'.sparse :: s'.sparse[k] == s.sparse[k])
  {
  }

  /** A lookup finds the table's copy, else the sparse one, else nothing. */
  lemma LookupMeans(s: SimpleState, e: EntityId, t: Symbol)
    ensures (e, t) in s.components ==> Lookup(Model(s), e, t) == Some(s.components[(e, t)])
    ensures (e, t) !in s.components && (e, t) in s.sparse ==> Lookup(Model(s), e, t) == Some(s.sparse[(e, t)])
    ensures (e, t) !in s.components && (e, t) !in s.sparse ==> Lookup(Model(s), e, t) == None
    ensures Stored(s, e, t) <==> (e, t) in s.components || (e, t) in s.sparse
  {
  }

  // ----- what each operation means, with one storage kind per type -----

  lemma AddMeansOneUpdate(s: SimpleState, e: EntityId, t: Symbol, data: Bytes, storage: ComponentStorage,
                          kind: Symbol -> ComponentStorage)
    requires SingleKind(s, kind) && kind(t) == storage
    ensures SingleKind(Added(s, e, t, data, storage), kind)
    ensures Model(Added(s, e, t, data, storage)) == Model(s)[(e, t) := data]
  {
    var s' := Added(s, e, t, data, storage);
    if storage == Sparse {
      assert (e, t) !in s.components;
    }
    MapsAgree(Model(s'), Model(s)[(e, t) := data]);
  }

  lemma RemoveMeansOneDeletion(s: SimpleState, e: EntityId, t: Symbol, kind: Symbol -> ComponentStorage)
    requires SingleKind(s, kind)
    ensures SingleKind(Removed(s, e, t), kind)
    ensures Model(Removed(s, e, t)) == Model(s) - {(e, t)}
  {
    assert !((e, t) in s.components && (e, t) in s.sparse);
    MapsAgree(Model(Removed(s, e, t)), Model(s) - {(e, t)});
  }

  lemma RemoveKeepsListed(s: SimpleState, e: EntityId, t: Symbol, kind: Symbol -> ComponentStorage)
    requires Ok(s) && SingleKind(s, kind) && AllListed(s)
    ensures AllListed(Removed(s, e, t))
  {
    var s' := Removed(s, e, t);
    RemoveMeansOneDeletion(s, e, t, kind);
    if Stored(s, e, t) && e in s.lists {
      DroppedList(s, e, t);
    }
    forall k | k in Model(s')
      ensures Listed(s', k.0, k.1)
    {
      assert k in Model(s) && k != (e, t) && Listed(s, k.0, k.1);
    }
  }

  lemma DespawnMeansEntityDeletion(s: SimpleState, e: EntityId)
    requires AllListed(s)
    ensures Model(Despawned(s, e)) == WithoutEntity(Model(s), e)
  {
    var s' := Despawned(s, e);
    forall k: Key
      ensures k in Model(s') <==> k in Model(s) && k.0 != e
    {
      if k in Model(s) && k.0 == e {
        assert Listed(s, k.0, k.1);
      }
    }
    MapsAgree(Model(s'), WithoutEntity(Model(s), e));
  }

  // ----- whole runs -----

  /** The calls both worlds answer. */
  datatype Call =
    | Spawn
    | Add(e: EntityId, t: Symbol, data: Bytes)
    | Remove(e: EntityId, t: Symbol)
    | Despawn(e: EntityId)

  function WithoutEntity(m: map<Key, Bytes>, e: EntityId): map<Key, Bytes> {
    map k | k in m && k.0 != e :: m[k]
  }

  /** What a call means on the flat map. */
  function FlatStep(m: map<Key, Bytes>, c: Call): map<Key, Bytes> {
    match c
    case Spawn => m
    case Add(e, t, data) => m[(e, t) := data]
    case Remove(e, t) => m - {(e, t)}
    case Despawn(e) => WithoutEntity(m, e)
  }

  function FlatRun(m: map<Key, Bytes>, calls: seq<Call>): map<Key, Bytes> {
    if calls == [] then m else FlatStep(FlatRun(m, calls[..|calls| - 1]), calls[|calls| - 1])
  }

  /** A call on the world, adding with the storage kind of the component's type. */
  function Step(s: SimpleState, c: Call, kind: Symbol -> ComponentStorage): SimpleState {
    match c
    case Spawn => Spawned(s)
    case Add(e, t, data) => Added(s, e, t, data, kind(t))
    case Remove(e, t) => Removed(s, e, t)
    case Despawn(e) => Despawned(s, e)
  }

  function Run(s: SimpleState, calls: seq<Call>, kind: Symbol -> ComponentStorage): SimpleState {
    if calls == [] then s else Step(Run(s, calls[..|calls| - 1], kind), calls[|calls| - 1], kind)
  }

  lemma StepRefinesTheFlatMap(s: SimpleState, c: Call, kind: Symbol -> ComponentStorage)
    requires Ok(s) && SingleKind(s, kind) && AllListed(s)
    ensures var s' := Step(s, c, kind);
            && Ok(s') && SingleKind(s', kind) && AllListed(s')
            && Model(s') == FlatStep(Model(s), c)
  {
    match c {
      case Spawn =>
      case Add(e, t, data) =>
        AddedKeepsOk(s, e, t, data, kind(t));
        AddMeansOneUpdate(s, e, t, data, kind(t), kind);
      case Remove(e, t) =>
        RemovedKeepsOk(s, e, t);
        RemoveKeepsListed(s, e, t, kind);
        RemoveMeansOneDeletion(s, e, t, kind);
      case Despawn(e) =>
        DespawnedKeepsOk(s, e);
        DespawnMeansEntityDeletion(s, e);
    }
  }

  /** After any run of calls the world means what the same calls do to the flat map. */
  lemma {:induction false} RunRefinesTheFlatMap(s: SimpleState, calls: seq<Call>, kind: Symbol -> ComponentStorage)
    requires Ok(s) && SingleKind(s, kind) && AllListed(s)
    ensures var s' := Run(s, calls, kind);
            && Ok(s') && SingleKind(s', kind) && AllListed(s')
            && Model(s') == FlatRun(Model(s), calls)
  {
    if calls != [] {
      var front := calls[..|calls| - 1];
      RunRefinesTheFlatMap(s, front, kind);
      StepRefinesTheFlatMap(Run(s, front, kind), calls[|calls| - 1], kind);
    }
  }

  /** What a call means on the flat map, key by key. */
  lemma FlatStepMeans(m: map<Key, Bytes>, c: Call, k: Key)
    ensures var m' := FlatStep(m, c);
            match c
            case Spawn => m' == m
            case Add(e, t, data) =>
              && (e, t) in m' && m'[(e, t)] == data
              && (k != (e, t) ==> (k in m' <==> k in m) && (k in m ==> m'[k] == m[k]))
            case Remove(e, t) =>
              (e, t) !in m' && (k != (e, t) ==> (k in m' <==> k in m) && (k in m ==> m'[k] == m[k]))
            case Despawn(e) => (k in m' <==> k in m && k.0 != e) && (k in m' ==> m'[k] == m[k])
  {
  }

  function SpawnCount(calls: seq<Call>): nat {
    if calls == [] then 0
    else SpawnCount(calls[..|calls| - 1]) + (if calls[|calls| - 1] == Spawn then 1 else 0)
  }

  /** Whatever comes between, every spawn moves the next id on by one, and every other call the
      version. */
  lemma {:induction false} RunCounts(s: SimpleState, calls: seq<Call>, kind: Symbol -> ComponentStorage)
    ensures Run(s, calls, kind).nextEntityId == s.nextEntityId + SpawnCount(calls)
    ensures Run(s, calls, kind).version == s.version + |calls| - SpawnCount(calls)
  {
    if calls != [] {
      RunCounts(s, calls[..|calls| - 1], kind);
    }
  }

  lemma {:induction false} SpawnCountGrows(calls: seq<Call>, i: nat, j: nat)
    requires i < j <= |calls| && calls[i] == Spawn
    ensures SpawnCount(calls[..i]) < SpawnCount(calls[..j])
    decreases j
  {
    assert calls[..j][..j - 1] == calls[..j - 1];
    if j > i + 1 {
      SpawnCountGrows(calls, i, j - 1);
    }
  }

  /** Hence different spawns of a run hand out different ids. */
  lemma SpawnedIdsDiffer(s: SimpleState, calls: seq<Call>, kind: Symbol -> ComponentStorage, i: nat, j: nat)
    requires i < j < |calls| && calls[i] == Spawn && calls[j] == Spawn
    ensures Run(s, calls[..i], kind).nextEntityId < Run(s, calls[..j], kind).nextEntityId
  {
    RunCounts(s, calls[..i], kind);
    RunCounts(s, calls[..j], kind);
    SpawnCountGrows(calls, i, j);
  }

  // ----- and exactly when the meanings hold without that assumption -----

  /** The data just added is what a lookup finds, unless it went to the sparse map under table data. */
  lemma LookupAfterAdd(s: SimpleState, e: EntityId, t: Symbol, data: Bytes, storage: ComponentStorage)
    ensures Lookup(Model(Added(s, e, t, data, storage)), e, t) == Some(data)
       <==> storage == Table || (e, t) !in s.components || s.components[(e, t)] == data
  {
  }

  /** A removed component is gone unless it was stored in both maps. */
  lemma PresenceAfterRemove(s: SimpleState, e: EntityId, t: Symbol)
    ensures Stored(Removed(s, e, t), e, t) <==> (e, t) in s.components && (e, t) in s.sparse
  {
  }

  /** Despawning leaves nothing of the entity behind exactly when all it stores is listed. */
  lemma OrphansAfterDespawn(s: SimpleState, e: EntityId)
    ensures (forall t :: !Stored(Despawned(s, e), e, t)) <==> (forall t | Stored(s, e, t) :: Listed(s, e, t))
  {
    var s' := Despawned(s, e);
    forall t
      ensures Stored(s', e, t) <==> Stored(s, e, t) && !Listed(s, e, t)
    {
    }
  }

  /** A type added to both storages and removed once stays behind in the sparse map, unlisted. */
  lemma MixedStorageLeavesAnOrphan(e: EntityId, t: Symbol, x: Bytes, y: Bytes, next: EntityId)
    ensures var s0 := SimpleState(next, map[], map[], map[], 0);
            var s := Removed(Added(Added(s0, e, t, x, Table), e, t, y, Sparse), e, t);
            Ok(s) && Stored(s, e, t) && !Listed(s, e, t) && !AllListed(s)
  {
    var s0 := SimpleState(next, map[], map[], map[], 0);
    var s1 := Added(s0, e, t, x, Table);
    var s2 := Added(s1, e, t, y, Sparse);
    assert s2.lists[e] == [t];
    assert Outside([t], {t}) == [] by {
      assert [t][..0] == [];
    }
    AddedKeepsOk(s0, e, t, x, Table);
    AddedKeepsOk(s1, e, t, y, Sparse);
    RemovedKeepsOk(s2, e, t);
    var s := Removed(s2, e, t);
    assert (e, t) in Model(s);
  }

  // ----- the queries agree -----

  /** The list scan and the scan of both maps are the same sequence exactly when no listed entity
      stores the type without listing it. */
  lemma ScansAgree(s: SimpleState, t: Symbol)
    requires Ok(s)
    ensures ListScan(s, t) == StoredScan(s, t) <==> (forall e | e in s.lists && Stored(s, e, t) :: Listed(s, e, t))
  {
    var es := Ascending(s.lists.Keys);
    AscendingElems(s.lists.Keys);
    assert ListOwners(s, t) <= StoredOwners(s, t);
    WithinElems(es, ListOwners(s, t));
    WithinElems(es, StoredOwners(s, t));
    if forall e | e in s.lists && Stored(s, e, t) :: Listed(s, e, t) {
      assert ListOwners(s, t) == StoredOwners(s, t);
    } else {
      var e :| e in s.lists && Stored(s, e, t) && !Listed(s, e, t);
      assert e in Elems(StoredScan(s, t)) && e !in Elems(ListScan(s, t));
    }
  }

  /** Where they differ: a world keeps another component of the entity, so the entity is still
      listed when the table copy of the type is removed and its sparse copy stays behind. */
  lemma ScansCanDisagree(e: EntityId, t: Symbol, u: Symbol, data: Bytes)
    requires u != t
    ensures var s0 := SimpleState(1, map[], map[], map[], 0);
            var both := Added(Added(Added(s0, e, u, data, Table), e, t, data, Table), e, t, data, Sparse);
            var s := Removed(both, e, t);
            Ok(s) && ListScan(s, t) != StoredScan(s, t)
  {
    var s0 := SimpleState(1, map[], map[], map[], 0);
    var s1 := Added(s0, e, u, data, Table);
    var s2 := Added(s1, e, t, data, Table);
    var s3 := Added(s2, e, t, data, Sparse);
    var s := Removed(s3, e, t);
    AddedKeepsOk(s0, e, u, data, Table);
    AddedKeepsOk(s1, e, t, data, Table);
    AddedKeepsOk(s2, e, t, data, Sparse);
    RemovedKeepsOk(s3, e, t);
    DroppedList(s3, e, t);
    assert u in s3.lists[e] && u in Outside(s3.lists[e], {t});
    assert e in s.lists && Stored(s, e, t) && !Listed(s, e, t);
    ScansAgree(s, t);
  }

  /** Each scan walks the listed entities in ascending order and finds those that list the type, have
      it in the table, or have it in either map. */
  lemma ScansMean(s: SimpleState, t: Symbol)
    ensures StrictlySorted(ListScan(s, t)) && StrictlySorted(TableScan(s, t)) && StrictlySorted(StoredScan(s, t))
    ensures forall e: EntityId :: e in ListScan(s, t) <==> e in s.lists && t in s.lists[e]
    ensures forall e: EntityId :: e in TableScan(s, t) <==> e in s.lists && (e, t) in s.components
    ensures forall e: EntityId ::
              e in StoredScan(s, t) <==> e in s.lists && ((e, t) in s.components || (e, t) in s.sparse)
  {
    ScanMeans(s, ListOwners(s, t));
    ScanMeans(s, TableOwners(s, t));
    ScanMeans(s, StoredOwners(s, t));
  }

  lemma ScanMeans(s: SimpleState, owners: set<EntityId>)
    requires owners <= s.lists.Keys
    ensures StrictlySorted(Within(Ascending(s.lists.Keys), owners))
    ensures forall e: EntityId :: e in Within(Ascending(s.lists.Keys), owners) <==> e in owners
  {
    var es := Ascending(s.lists.Keys);
    AscendingElems(s.lists.Keys);
    WithinSorted(es, owners);
    WithinElems(es, owners);
    forall e: EntityId
      ensures e in Within(es, owners) <==> e in owners
    {
      assert e in Within(es, owners) <==> e in Elems(Within(es, owners));
    }
  }

  /** With everything stored also listed, the list scan finds each entity that has the component,
      once, in ascending order. */
  lemma ListScanFindsOwners(s: SimpleState, t: Symbol)
    requires Ok(s) && AllListed(s)
    ensures NoDup(ListScan(s, t))
    ensures forall e: EntityId :: e in ListScan(s, t) <==> (e, t) in Model(s)
  {
    var es := Ascending(s.lists.Keys);
    AscendingElems(s.lists.Keys);
    WithinNoDup(es, ListOwners(s, t));
    WithinElems(es, ListOwners(s, t));
    forall e: EntityId
      ensures e in ListScan(s, t) <==> (e, t) in Model(s)
    {
      assert e in ListScan(s, t) <==> e in Elems(ListScan(s, t));
      if (e, t) in Model(s) {
        assert Listed(s, (e, t).0, (e, t).1);
      } else if Listed(s, e, t) {
        assert Stored(s, e, t);
      }
    }
  }

  /** The table scan finds exactly the entities with table data of the type, if all data is listed. */
  lemma TableScanFindsTableData(s: SimpleState, t: Symbol)
    requires AllListed(s)
    ensures NoDup(TableScan(s, t))
    ensures forall e: EntityId :: e in TableScan(s, t) <==> (e, t) in s.components
  {
    var es := Ascending(s.lists.Keys);
    AscendingElems(s.lists.Keys);
    WithinNoDup(es, TableOwners(s, t));
    WithinElems(es, TableOwners(s, t));
    forall e: EntityId
      ensures e in TableScan(s, t) <==> (e, t) in s.components
    {
      assert e in TableScan(s, t) <==> e in Elems(TableScan(s, t));
      if (e, t) in s.components {
        assert (e, t) in Model(s) && Listed(s, (e, t).0, (e, t).1);
      }
    }
  }

  // ----- the world -----

  lemma SweepOneMore(m: map<Key, Bytes>, e: EntityId, types: seq<Symbol>, t: Symbol)
    ensures Swept(m, e, types) - {(e, t)} == Swept(m, e, types + [t])
  {
  }

  class SimpleWorld {
    var nextEntityId: EntityId
    var components: map<Key, Bytes>
    var sparseComponents: map<Key, Bytes>
    var entityComponents: map<EntityId, seq<Symbol>>
    var version: nat

    ghost function State(): SimpleState
      reads this
    {
      SimpleState(nextEntityId, components, sparseComponents, entityComponents, version)
    }

    constructor ()
      ensures State() == SimpleState(1, map[], map[], map[], 0)
      ensures Ok(State()) && AllListed(State())
    {
      nextEntityId, components, sparseComponents, entityComponents, version := 1, map[], map[], map[], 0;
    }

    method SpawnEntity() returns (id: EntityId)
      modifies this`nextEntityId
      ensures State() == Spawned(old(State())) && id == old(nextEntityId) && nextEntityId == old(nextEntityId) + 1
    {
      id := nextEntityId;
      nextEntityId := nextEntityId + 1;
    }

    method AddComponent(e: EntityId, t: Symbol, data: Bytes)
      modifies this
      ensures State() == Added(old(State()), e, t, data, Table)
    {
      AddComponentWithStorage(e, t, data, Table);
    }

    method AddComponentWithStorage(e: EntityId, t: Symbol, data: Bytes, storage: ComponentStorage)
      modifies this
      ensures State() == Added(old(State()), e, t, data, storage)
    {
      version := version + 1;
      match storage {
        case Table => components := components[(e, t) := data];
        case Sparse => sparseComponents := sparseComponents[(e, t) := data];
      }
      var types := if e in entityComponents then entityComponents[e] else [];
      var found := false;
      for i := 0 to |types|
        invariant !found && t !in types[..i]
      {
        if types[i] == t {
          found := true;
          break;
        }
      }
      if !found {
        assert types[..|types|] == types;
        types := types + [t];
      }
      entityComponents := entityComponents[e := types];
    }

    method GetComponent(e: EntityId, t: Symbol) returns (data: Option<Bytes>)
      ensures data == Lookup(Model(State()), e, t)
    {
      if (e, t) in components {
        return Some(components[(e, t)]);
      }
      if (e, t) in sparseComponents {
        return Some(sparseComponents[(e, t)]);
      }
      return None;
    }

    method RemoveComponent(e: EntityId, t: Symbol) returns (removed: bool)
      modifies this
      ensures State() == Removed(old(State()), e, t)
      ensures removed == Stored(old(State()), e, t)
    {
      version := version + 1;
      removed := true;
      if (e, t) in components {
        components := components - {(e, t)};
      } else if (e, t) in sparseComponents {
        sparseComponents := sparseComponents - {(e, t)};
        assert components == old(components) - {(e, t)};
      } else {
        return false;
      }
      if e in entityComponents {
        var types := entityComponents[e];
        var kept := [];
        ghost var taken := State();
        for i := 0 to |types|
          invariant kept == Outside(types[..i], {t}) && State() == taken
        {
          assert types[..i + 1] == types[..i] + [types[i]];
          OutsideSnoc(types[..i], types[i], {t});
          if types[i] != t {
            kept := kept + [types[i]];
          }
        }
        assert types[..|types|] == types;
        if kept == [] {
          entityComponents := entityComponents - {e};
        } else {
          entityComponents := entityComponents[e := kept];
        }
      }
    }

    method HasComponent(e: EntityId, t: Symbol) returns (has: bool)
      ensures has == Stored(State(), e, t)
      ensures has <==> (e, t) in Model(State())
    {
      has := (e, t) in components || (e, t) in sparseComponents;
    }

    method GetEntitiesWithComponent(t: Symbol) returns (entities: seq<EntityId>)
      ensures entities == ListScan(State(), t)
    {
      entities := [];
      var keys := Ascending(entityComponents.Keys);
      ghost var owners := ListOwners(State(), t);
      for k := 0 to |keys|
        invariant entities == Within(keys[..k], owners)
      {
        WithinNext(keys, owners, k);
        assert keys[k] in keys;
        var lists := ListsType(entityComponents[keys[k]], t);
        if lists {
          entities := entities + [keys[k]];
        }
      }
      assert keys[..|keys|] == keys;
    }

    /** The index loop that looks for a type in a type list. */
    static method ListsType(types: seq<Symbol>, t: Symbol) returns (found: bool)
      ensures found <==> t in types
    {
      for i := 0 to |types|
        invariant t !in types[..i]
      {
        if types[i] == t {
          return true;
        }
      }
      assert types[..|types|] == types;
      return false;
    }

    method GetTableEntitiesWithComponent(t: Symbol) returns (entities: seq<EntityId>)
      ensures entities == TableScan(State(), t)
    {
      entities := [];
      var keys := Ascending(entityComponents.Keys);
      ghost var owners := TableOwners(State(), t);
      for k := 0 to |keys|
        invariant entities == Within(keys[..k], owners)
      {
        WithinNext(keys, owners, k);
        assert keys[k] in keys;
        if (keys[k], t) in components {
          entities := entities + [keys[k]];
        }
      }
      assert keys[..|keys|] == keys;
    }

    method GetAllEntitiesWithComponent(t: Symbol) returns (entities: seq<EntityId>)
      ensures entities == StoredScan(State(), t)
    {
      entities := [];
      var keys := Ascending(entityComponents.Keys);
      ghost var owners := StoredOwners(State(), t);
      for k := 0 to |keys|
        invariant entities == Within(keys[..k], owners)
      {
        WithinNext(keys, owners, k);
        assert keys[k] in keys;
        if (keys[k], t) in components || (keys[k], t) in sparseComponents {
          entities := entities + [keys[k]];
        }
      }
      assert keys[..|keys|] == keys;
    }

    method DespawnEntity(e: EntityId)
      modifies this
      ensures State() == Despawned(old(State()), e)
    {
      version := version + 1;
      if e in entityComponents {
        var types := entityComponents[e];
        for i := 0 to |types|
          invariant components == Swept(old(components), e, types[..i])
          invariant sparseComponents == Swept(old(sparseComponents), e, types[..i])
          invariant entityComponents == old(entityComponents) && nextEntityId == old(nextEntityId)
                    && version == old(version) + 1
        {
          assert types[..i + 1] == types[..i] + [types[i]];
          SweepOneMore(old(components), e, types[..i], types[i]);
          SweepOneMore(old(sparseComponents), e, types[..i], types[i]);
          components := components - {(e, types[i])};
          sparseComponents := sparseComponents - {(e, types[i])};
        }
        assert types[..|types|] == types;
      }
      if e !in entityComponents {
        assert Swept(components, e, []) == components && Swept(sparseComponents, e, []) == sparseComponents;
      }
      entityComponents := entityComponents - {e};
    }
  }
}
