/** The id allocator of `src/entity.rs`: ids of despawned entities are reused, last freed first. */
module EntityManagers {
  import opened Collections

  datatype EntityId = EntityId(id: nat, generation: nat)

  /** The next new id, the live entities in spawn order, and the freed ids. */
  datatype Pool = Pool(nextId: nat, live: seq<EntityId>, free: seq<nat>)

  function Ids(es: seq<EntityId>): set<nat> {
    set e | e in es :: e.id
  }

  /** The live ids and the freed ids are each duplicate-free, disjoint, and together exactly the ids
      handed out so far. */
  ghost predicate Partitioned(p: Pool) {
    && p.nextId >= 1
    && NoDup(p.live) && (forall e | e in p.live :: e.generation == 0)
    && NoDup(p.free)
    && Ids(p.live) !! Elems(p.free)
    && forall i: nat {:trigger i in Ids(p.live) + Elems(p.free)} ::
         i in Ids(p.live) + Elems(p.free) <==> 1 <= i < p.nextId
  }

  function NextEntity(p: Pool): EntityId {
    EntityId(if p.free == [] then p.nextId else p.free[|p.free| - 1], 0)
  }

  function Spawned(p: Pool): Pool {
    if p.free == [] then Pool(p.nextId + 1, p.live + [NextEntity(p)], [])
    else Pool(p.nextId, p.live + [NextEntity(p)], p.free[..|p.free| - 1])
  }

  /** The first index of an entity. */
  function IndexOf(es: seq<EntityId>, e: EntityId): (i: nat)
    ensures i <= |es| && e !in es[..i] && (i < |es| ==> es[i] == e)
    ensures i < |es| <==> e in es
  {
    if es == [] then 0
    else if es[0] == e then 0
    else
      var i := IndexOf(es[1..], e);
      assert es[1..][..i] == es[1..i + 1];
      assert es[..i + 1] == [es[0]] + es[1..i + 1];
      i + 1
  }

  function Despawned(p: Pool, e: EntityId): Pool {
    var i := IndexOf(p.live, e);
    if i == |p.live| then p
    else Pool(p.nextId, p.live[..i] + p.live[i + 1..], p.free + [e.id])
  }

  lemma SpawnKeepsPartition(p: Pool)
    requires Partitioned(p)
    ensures Partitioned(Spawned(p))
    ensures NextEntity(p) !in p.live && NextEntity(p).id !in Ids(p.live)
  {
    var p', e := Spawned(p), NextEntity(p);
    assert e.id !in Ids(p.live) by {
      assert p.free == [] ==> p.nextId !in Ids(p.live) + Elems(p.free);
      assert p.free != [] ==> e.id in Elems(p.free);
    }
    LiveOneMore(p.live, e);
    if p.free != [] {
      FreeOneLess(p.free);
    }
    forall i: nat
      ensures i in Ids(p'.live) + Elems(p'.free) <==> 1 <= i < p'.nextId
    {
      assert i in Ids(p'.live) + Elems(p'.free) <==> i in Ids(p.live) + Elems(p.free) || i == e.id;
    }
  }

  /** A spawn hands out the id freed last, or the next new one if none is free, in generation 0, and
      appends the entity to the live ones. */
  lemma SpawnMeans(p: Pool)
    ensures var p', e := Spawned(p), NextEntity(p);
            && e.generation == 0 && p'.live == p.live + [e]
            && (p.free == [] ==> e.id == p.nextId && p'.nextId == p.nextId + 1 && p'.free == [])
            && (p.free != [] ==> p'.free + [e.id] == p.free && p'.nextId == p.nextId)
  {
  }

  /** A despawn takes exactly the entity out of the live ones, which keep their order, and frees its id
      last; one that is not live changes nothing. */
  lemma DespawnMeans(p: Pool, e: EntityId)
    requires Partitioned(p)
    ensures var p' := Despawned(p, e);
            && p'.nextId == p.nextId
            && (e in p.live ==> p'.free == p.free + [e.id] && InOrderOf(p'.live, p.live))
            && (forall x :: x in p'.live <==> x in p.live && x != e)
            && (e !in p.live ==> p' == p)
  {
    DespawnKeepsPartition(p, e);
    var p', i := Despawned(p, e), IndexOf(p.live, e);
    if e in p.live {
      forall k | 0 <= k < |p'.live|
        ensures p'.live[k] == p.live[if k < i then k else k + 1]
      {
      }
    }
  }

  lemma LiveOneMore(es: seq<EntityId>, e: EntityId)
    requires NoDup(es) && e.id !in Ids(es)
    ensures NoDup(es + [e]) && Ids(es + [e]) == Ids(es) + {e.id}
  {
  }

  lemma FreeOneLess(free: seq<nat>)
    requires NoDup(free) && free != []
    ensures var last := free[|free| - 1]; var front := free[..|free| - 1];
            NoDup(front) && last !in front && Elems(free) == Elems(front) + {last}
  {
    assert free == free[..|free| - 1] + [free[|free| - 1]];
  }

  lemma DespawnKeepsPartition(p: Pool, e: EntityId)
    requires Partitioned(p)
    ensures Partitioned(Despawned(p, e))
    ensures forall x :: x in Despawned(p, e).live <==> x in p.live && x != e
  {
    var p', i := Despawned(p, e), IndexOf(p.live, e);
    if i < |p.live| {
      LiveOneLess(p.live, i);
      assert Elems(p'.free) == Elems(p.free) + {e.id} && e.id in Ids(p.live);
      forall j: nat
        ensures j in Ids(p'.live) + Elems(p'.free) <==> 1 <= j < p'.nextId
      {
        assert j in Ids(p'.live) + Elems(p'.free) <==> j in Ids(p.live) + Elems(p.free);
      }
    }
  }

  lemma LiveOneLess(es: seq<EntityId>, i: nat)
    requires i < |es| && NoDup(es) && forall e | e in es :: e.generation == 0
    ensures var rest := es[..i] + es[i + 1..];
            && NoDup(rest) && (forall x :: x in rest <==> x in es && x != es[i])
            && Ids(rest) == Ids(es) - {es[i].id}
  {
    var rest := es[..i] + es[i + 1..];
    assert es == es[..i] + [es[i]] + es[i + 1..];
    forall x
      ensures x in rest <==> x in es && x != es[i]
    {
    }
    forall x | x in rest
      ensures x.id != es[i].id
    {
      assert x == EntityId(x.id, 0) && es[i] == EntityId(es[i].id, 0);
    }
  }

  /** A freed id is the next to be handed out, to an equal entity id: the generation never changes. */
  lemma DespawnThenSpawn(p: Pool, e: EntityId)
    requires Partitioned(p) && e in p.live
    ensures NextEntity(Despawned(p, e)) == e
    ensures Spawned(Despawned(p, e)).free == p.free && Spawned(Despawned(p, e)).nextId == p.nextId
    ensures multiset(Spawned(Despawned(p, e)).live) == multiset(p.live)
  {
    var i := IndexOf(p.live, e);
    assert p.live == p.live[..i] + [e] + p.live[i + 1..];
    assert (p.free + [e.id])[..|p.free|] == p.free;
  }

  // ----- whole runs -----

  datatype Call = Spawn | Despawn(e: EntityId)

  function After(p: Pool, calls: seq<Call>): Pool {
    if calls == [] then p
    else
      var p' := After(p, calls[..|calls| - 1]);
      match calls[|calls| - 1]
      case Spawn => Spawned(p')
      case Despawn(e) => Despawned(p', e)
  }

  /** After any run the ids are partitioned, and the next spawn gives an id that is not live. */
  lemma {:induction false} AlwaysPartitioned(calls: seq<Call>)
    ensures var p := After(Pool(1, [], []), calls);
            Partitioned(p) && NextEntity(p).id !in Ids(p.live)
  {
    if calls == [] {
      assert Ids([]) + Elems<nat>([]) == {};
    } else {
      var front := calls[..|calls| - 1];
      AlwaysPartitioned(front);
      var p := After(Pool(1, [], []), front);
      match calls[|calls| - 1] {
        case Spawn => SpawnKeepsPartition(p);
        case Despawn(e) => DespawnKeepsPartition(p, e);
      }
    }
    SpawnKeepsPartition(After(Pool(1, [], []), calls));
  }

  // ----- the manager -----

  class EntityManager {
    var nextId: nat
    var entities: seq<EntityId>
    var freeList: seq<nat>

    ghost function State(): Pool
      reads this
    {
      Pool(nextId, entities, freeList)
    }

    ghost predicate Valid()
      reads this
    {
      Partitioned(State())
    }

    constructor ()
      ensures Valid() && State() == Pool(1, [], [])
    {
      nextId, entities, freeList := 1, [], [];
      new;
      AlwaysPartitioned([]);
    }

    /** Never gives a live id. */
    method Spawn() returns (e: EntityId)
      requires Valid()
      modifies this
      ensures Valid() && State() == Spawned(old(State()))
      ensures e == NextEntity(old(State())) && e.id !in Ids(old(entities)) && entities == old(entities) + [e]
    {
      SpawnKeepsPartition(State());
      var id;
      if |freeList| > 0 {
        id := freeList[|freeList| - 1];
        freeList := freeList[..|freeList| - 1];
      } else {
        id := nextId;
        nextId := nextId + 1;
      }
      e := EntityId(id, 0);
      entities := entities + [e];
    }

    method Despawn(e: EntityId) returns (found: bool)
      requires Valid()
      modifies this
      ensures Valid() && State() == Despawned(old(State()), e)
      ensures found <==> e in old(entities)
      ensures e !in entities && (e.generation != 0 ==> !found)
    {
      DespawnKeepsPartition(State(), e);
      for i := 0 to |entities|
        invariant State() == old(State()) && e !in entities[..i]
      {
        if entities[i] == e {
          entities := entities[..i] + entities[i + 1..];
          freeList := freeList + [e.id];
          return true;
        }
      }
      assert entities[..|entities|] == entities;
      return false;
    }

    /** Whether an entity is live. */
    method Exists(e: EntityId) returns (found: bool)
      ensures found <==> e in entities
    {
      for i := 0 to |entities|
        invariant e !in entities[..i]
      {
        if entities[i] == e {
          return true;
        }
      }
      assert entities[..|entities|] == entities;
      return false;
    }
  }
}
