/** What each operation of a run does to the state, component by component. */
module RunLaws {
  import opened Collections
  import opened Storage
  import opened Archetypes
  import opened Graph
  import opened Meaning
  import opened Bundles
  import opened Runs

  /** Registering a new type appends its bundle, which requires what is merged and not explicit. A known
      type, or a list with duplicates, changes nothing. */
  lemma RegisterMeans(s: State, t: TypeId, explicit: seq<ComponentId>, merged: map<ComponentId, Value>)
    ensures var s', n := Applied(s, Register(t, explicit, merged)), |s.bundles|;
            && (t in s.ids || (exists i, j :: 0 <= i < j < |explicit| && explicit[i] == explicit[j]) ==> s' == s)
            && (t !in s.ids && (forall i, j | 0 <= i < j < |explicit| :: explicit[i] != explicit[j]) ==>
                  && s'.model == s.model && s'.ids == s.ids[t := n]
                  && |s'.bundles| == n + 1 && s'.bundles[..n] == s.bundles && s'.bundles[n].explicit == explicit
                  && (forall c :: c in s'.bundles[n].required <==> c in merged && c !in explicit)
                  && (forall c | c in s'.bundles[n].required :: s'.bundles[n].required[c] == merged[c]))
  {
  }

  /** A bundle lists no explicit component twice, and none of them as required. */
  ghost predicate SpecOk(b: BundleSpec) {
    NoDup(b.explicit) && forall c | c in b.explicit :: c !in b.required
  }

  ghost predicate SpecsOk(s: State) {
    forall b | 0 <= b < |s.bundles| :: SpecOk(s.bundles[b])
  }

  lemma {:induction false} SpecsStayOk(s: State, ops: seq<Operation>)
    requires SpecsOk(s)
    ensures SpecsOk(AppliedAll(s, ops))
  {
    if ops != [] {
      SpecsStayOk(s, ops[..|ops| - 1]);
    }
  }

  /** `r` is `m` with each explicit component set, unless it was there and the mode is Keep, the required
      ones that were not there added, and nothing else changed. */
  ghost predicate OverlaidAt(m: map<ComponentId, Value>, b: BundleSpec, values: seq<Value>, mode: InsertMode,
                             r: map<ComponentId, Value>)
    requires |values| == |b.explicit|
  {
    && (forall c :: c in r <==> c in m || c in b.explicit || c in b.required)
    && (forall i | 0 <= i < |values| ::
          r[b.explicit[i]] == if mode == Keep && b.explicit[i] in m then m[b.explicit[i]] else values[i])
    && (forall c | c in m && c !in b.explicit :: r[c] == m[c])
    && (forall c | c in b.required && c !in m :: r[c] == b.required[c])
  }

  lemma OverlaidMeans(m: map<ComponentId, Value>, b: BundleSpec, values: seq<Value>, mode: InsertMode)
    requires SpecOk(b) && |values| == |b.explicit|
    ensures OverlaidAt(m, b, values, mode, Overlaid(m, b, values, mode))
  {
    var ids, r := b.explicit, Overlaid(m, b, values, mode);
    ExplicitWritesAt(ids, seq(|ids|, _ => Added), values, Replace, |ids|);
    BundleKeys(ids, values, |ids|);
    assert ids[..|ids|] == ids;
    forall c
      ensures c in r <==> c in m || c in ids || c in b.required
    {
      assert c in BundleValues(ids, values).Keys <==> c in Elems(ids);
    }
    forall i | 0 <= i < |values|
      ensures var c := ids[i]; c in r && r[c] == if mode == Keep && c in m then m[c] else values[i]
    {
      assert ids[i] in BundleValues(ids, values);
    }
  }

  /** A spawn of a new entity with a registered bundle gives it the bundle's values and what the bundle
      requires; anything else changes nothing. */
  lemma SpawnMeans(s: State, e: Entity, b: BundleId, values: seq<Value>)
    requires SpecsOk(s)
    ensures var s' := Applied(s, Spawn(e, b, values));
            && (e !in s.model && b < |s.bundles| && |values| == |s.bundles[b].explicit| ==>
                  && s'.bundles == s.bundles && s'.ids == s.ids && s'.model - {e} == s.model && e in s'.model
                  && (forall c :: c in s'.model[e] <==> c in s.bundles[b].explicit || c in s.bundles[b].required)
                  && (forall i | 0 <= i < |values| :: s'.model[e][s.bundles[b].explicit[i]] == values[i])
                  && (forall c | c in s.bundles[b].required :: s'.model[e][c] == s.bundles[b].required[c]))
            && (e in s.model || b >= |s.bundles| || |values| != |s.bundles[b].explicit| ==> s' == s)
  {
    if e !in s.model && b < |s.bundles| && |values| == |s.bundles[b].explicit| {
      assert SpecOk(s.bundles[b]);
      OverlaidMeans(map[], s.bundles[b], values, Replace);
      MapsAgree(Applied(s, Spawn(e, b, values)).model - {e}, s.model);
    }
  }

  /** An insertion of a registered bundle into a live entity sets each explicit component, unless the
      entity has it and the mode is Keep, adds the required ones it has not, and leaves its other
      components and all other entities alone; anything else changes nothing. */
  lemma InsertMeans(s: State, e: Entity, b: BundleId, values: seq<Value>, mode: InsertMode)
    requires SpecsOk(s)
    ensures var s' := Applied(s, Insert(e, b, values, mode));
            && (e in s.model && b < |s.bundles| && |values| == |s.bundles[b].explicit| ==>
                  && s'.bundles == s.bundles && s'.ids == s.ids && s'.model - {e} == s.model - {e} && e in s'.model
                  && OverlaidAt(s.model[e], s.bundles[b], values, mode, s'.model[e]))
            && (e !in s.model || b >= |s.bundles| || |values| != |s.bundles[b].explicit| ==> s' == s)
  {
    if e in s.model && b < |s.bundles| && |values| == |s.bundles[b].explicit| {
      assert SpecOk(s.bundles[b]);
      OverlaidMeans(s.model[e], s.bundles[b], values, mode);
    }
  }

  /** `m'` is `m` but for entity `e`, which lost exactly the given components. */
  ghost predicate LostExactly(m: WorldModel, m': WorldModel, e: Entity, ids: seq<ComponentId>) {
    && e in m && e in m' && m' - {e} == m - {e}
    && (forall c :: c in m'[e] <==> c in m[e] && c !in ids)
    && (forall c | c in m'[e] :: m'[e][c] == m[e][c])
  }

  /** A removal takes those of the bundle's explicit components that are there, even if not all are. */
  lemma RemoveMeans(s: State, e: Entity, b: BundleId)
    ensures var s' := Applied(s, Remove(e, b));
            && s'.bundles == s.bundles && s'.ids == s.ids
            && (e in s.model && b < |s.bundles| ==> LostExactly(s.model, s'.model, e, s.bundles[b].explicit))
            && (e !in s.model || b >= |s.bundles| ==> s' == s)
  {
  }

  /** A take takes the bundle's explicit components if all of them are there, and nothing otherwise. */
  lemma TakeMeans(s: State, e: Entity, b: BundleId)
    ensures var s' := Applied(s, Take(e, b));
            && s'.bundles == s.bundles && s'.ids == s.ids
            && (e in s.model && b < |s.bundles| && (forall c | c in s.bundles[b].explicit :: c in s.model[e]) ==>
                  LostExactly(s.model, s'.model, e, s.bundles[b].explicit))
            && (e !in s.model || b >= |s.bundles| || (exists c :: c in s.bundles[b].explicit && c !in s.model[e]) ==>
                  s' == s)
  {
    if e in s.model && b < |s.bundles| {
      assert forall c :: c in Elems(s.bundles[b].explicit) <==> c in s.bundles[b].explicit;
    }
  }

  /** A despawn takes exactly a live entity away. */
  lemma DespawnMeans(s: State, e: Entity)
    ensures var s' := Applied(s, Despawn(e));
            && s'.bundles == s.bundles && s'.ids == s.ids && e !in s'.model
            && (forall x | x != e :: (x in s'.model <==> x in s.model) && (x in s.model ==> s'.model[x] == s.model[x]))
  {
  }

  /** The bundles of a valid world are as `SpecsOk` says. */
  lemma RegisteredSpecsAreOk(w: World, ids: map<TypeId, BundleId>)
    requires w.Valid()
    ensures SpecsOk(StateOf(w, ids))
  {
    forall b | 0 <= b < |w.bundles|
      ensures SpecOk(SpecsOf(w.bundles)[b])
    {
      assert BundleAt(w.View(), b);
      RequiredAreNotExplicit(w.bundles[b]);
      assert forall c | c in w.bundles[b].Explicit() :: c in Elems(w.bundles[b].Explicit());
    }
  }
}
