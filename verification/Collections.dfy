/** Finite collections shared by the models: optional values, duplicate-free and sorted
    sequences, order-preserving filters, and the `swap_remove` of Rust's `Vec`. */
module Collections {

  datatype Option<+T> = None | Some(value: T)

  ghost predicate NoDup<T>(s: seq<T>) {
    forall i, j :: 0 <= i < j < |s| ==> s[i] != s[j]
  }

  function Elems<T>(s: seq<T>): set<T> {
    set x | x in s
  }

  ghost predicate StrictlySorted(s: seq<nat>) {
    forall i, j :: 0 <= i < j < |s| ==> s[i] < s[j]
  }

  lemma NoDupCardinality<T>(s: seq<T>)
    requires NoDup(s)
    ensures |Elems(s)| == |s|
  {
    if s != [] {
      var front, last := s[..|s| - 1], s[|s| - 1];
      NoDupCardinality(front);
      assert last !in front && s == front + [last];
      assert Elems(s) == Elems(front) + {last} && last !in Elems(front);
    }
  }

  /** Two strictly sorted sequences with the same elements are the same sequence. */
  lemma {:induction false} SortedUnique(a: seq<nat>, b: seq<nat>)
    requires StrictlySorted(a) && StrictlySorted(b)
    requires Elems(a) == Elems(b)
    ensures a == b
  {
    if b != [] {
      assert b[0] in Elems(a);
    }
    if a != [] {
      assert a[0] in Elems(b);
      assert a[0] in b && b[0] in a;
      assert a[0] == b[0];
      assert Elems(a[1..]) == Elems(a) - {a[0]};
      assert Elems(b[1..]) == Elems(b) - {b[0]};
      SortedUnique(a[1..], b[1..]);
      assert a == [a[0]] + a[1..] && b == [b[0]] + b[1..];
    }
  }

  /** Removing duplicates shortens a sequence exactly when it has some. */
  lemma DedupShortens<T>(s: seq<T>)
    ensures |Elems(s)| <= |s|
    ensures |Elems(s)| == |s| <==> NoDup(s)
  {
    if s != [] {
      var front, last := s[..|s| - 1], s[|s| - 1];
      DedupShortens(front);
      assert Elems(s) == Elems(front) + {last};
      if last in front {
        assert Elems(s) == Elems(front);
        var i :| 0 <= i < |front| && front[i] == last;
        assert s[i] == s[|s| - 1];
      } else {
        assert last !in Elems(front);
        assert NoDup(s) <==> NoDup(front);
      }
    }
  }

  lemma NothingIn<T>(s: seq<T>)
    requires forall x :: x !in s
    ensures s == []
  {
    if s != [] {
      SomethingIn(s);
    }
  }

  lemma SomethingIn<T>(s: seq<T>)
    requires s != []
    ensures exists x :: x in s
  {
    assert s[0] in s;
  }

  lemma NoDupConcat<T>(a: seq<T>, b: seq<T>)
    requires NoDup(a) && NoDup(b) && Elems(a) !! Elems(b)
    ensures NoDup(a + b) && Elems(a + b) == Elems(a) + Elems(b)
  {
    forall i, j | 0 <= i < j < |a + b|
      ensures (a + b)[i] != (a + b)[j]
    {
      if i < |a| <= j {
        assert a[i] in Elems(a) && b[j - |a|] in Elems(b);
      }
    }
  }

  // ----- order-preserving filters -----

  /** The elements of `s` that are in `keep`, in their order in `s`. */
  function Within<T(==)>(s: seq<T>, keep: set<T>): seq<T> {
    if s == [] then []
    else
      var last := s[|s| - 1];
      Within(s[..|s| - 1], keep) + (if last in keep then [last] else [])
  }

  /** The elements of `s` that are not in `drop`, in their order in `s`. */
  function Outside<T(==)>(s: seq<T>, drop: set<T>): seq<T> {
    if s == [] then []
    else
      var last := s[|s| - 1];
      Outside(s[..|s| - 1], drop) + (if last in drop then [] else [last])
  }

  lemma WithinElems<T>(s: seq<T>, keep: set<T>)
    ensures Elems(Within(s, keep)) == Elems(s) * keep
  {
    if s != [] {
      var front, last := s[..|s| - 1], s[|s| - 1];
      WithinElems(front, keep);
      assert s == front + [last];
      assert Elems(s) == Elems(front) + {last};
      assert Elems(Within(s, keep)) == Elems(Within(front, keep)) + (if last in keep then {last} else {});
    }
  }

  lemma OutsideElems<T>(s: seq<T>, drop: set<T>)
    ensures Elems(Outside(s, drop)) == Elems(s) - drop
  {
    if s != [] {
      var front, last := s[..|s| - 1], s[|s| - 1];
      OutsideElems(front, drop);
      assert s == front + [last];
      assert Elems(s) == Elems(front) + {last};
      assert Elems(Outside(s, drop)) == Elems(Outside(front, drop)) + (if last in drop then {} else {last});
    }
  }

  lemma WithinSnoc<T>(s: seq<T>, x: T, keep: set<T>)
    ensures Within(s + [x], keep) == Within(s, keep) + (if x in keep then [x] else [])
  {
    assert (s + [x])[..|s|] == s;
  }

  lemma OutsideSnoc<T>(s: seq<T>, x: T, drop: set<T>)
    ensures Outside(s + [x], drop) == Outside(s, drop) + (if x in drop then [] else [x])
  {
    assert (s + [x])[..|s|] == s;
  }

  lemma WithinNext<T>(s: seq<T>, keep: set<T>, i: nat)
    requires i < |s|
    ensures Within(s[..i + 1], keep) == if s[i] in keep then Within(s[..i], keep) + [s[i]] else Within(s[..i], keep)
    ensures i + 1 == |s| ==> Within(s[..i + 1], keep) == Within(s, keep)
  {
    assert s[..i + 1][..i] == s[..i];
    assert i + 1 == |s| ==> s[..i + 1] == s;
  }

  lemma WithinNoDup<T>(s: seq<T>, keep: set<T>)
    requires NoDup(s)
    ensures NoDup(Within(s, keep))
  {
    if s != [] {
      var front, last := s[..|s| - 1], s[|s| - 1];
      WithinNoDup(front, keep);
      WithinElems(front, keep);
      assert last !in front && last !in Elems(Within(front, keep));
    }
  }

  lemma OutsideNothing<T>(s: seq<T>)
    ensures Outside(s, Elems([])) == s
  {
    if s != [] {
      OutsideNothing(s[..|s| - 1]);
    }
  }

  lemma OutsideNoDup<T>(s: seq<T>, drop: set<T>)
    requires NoDup(s)
    ensures NoDup(Outside(s, drop))
  {
    if s != [] {
      var front, last := s[..|s| - 1], s[|s| - 1];
      OutsideNoDup(front, drop);
      OutsideElems(front, drop);
      assert last !in front && last !in Elems(Outside(front, drop));
    }
  }

  /** `r` consists of elements of `s`, in the order they have there. */
  ghost predicate InOrderOf<T>(r: seq<T>, s: seq<T>) {
    && NoDup(r) && (forall x :: x in r ==> x in s)
    && forall i, j, p, q ::
         0 <= i < |r| && 0 <= j < |r| && 0 <= p < |s| && 0 <= q < |s| && r[i] == s[p] && r[j] == s[q] ==>
           (i < j <==> p < q)
  }

  lemma InOrderSnoc<T>(r: seq<T>, s: seq<T>, x: T)
    requires NoDup(s + [x]) && InOrderOf(r, s)
    ensures InOrderOf(r, s + [x]) && InOrderOf(r + [x], s + [x])
  {
    var more := s + [x];
    assert more[|s|] == x;
    forall i | 0 <= i < |s|
      ensures more[i] == s[i] && s[i] != x
    {
      assert more[i] != more[|s|];
    }
    assert x !in s;
    forall i | 0 <= i < |r|
      ensures r[i] != x
    {
      assert r[i] in r;
    }
  }

  /** Both filters keep the order of what they keep. */
  lemma {:induction false} FiltersKeepOrder<T>(s: seq<T>, some: set<T>)
    requires NoDup(s)
    ensures InOrderOf(Within(s, some), s) && InOrderOf(Outside(s, some), s)
  {
    if s != [] {
      var front, last := s[..|s| - 1], s[|s| - 1];
      assert s == front + [last];
      FiltersKeepOrder(front, some);
      InOrderSnoc(Within(front, some), front, last);
      InOrderSnoc(Outside(front, some), front, last);
    }
  }

  lemma WithinSorted(s: seq<nat>, keep: set<nat>)
    requires StrictlySorted(s)
    ensures StrictlySorted(Within(s, keep))
  {
    if s != [] {
      var front, last := s[..|s| - 1], s[|s| - 1];
      WithinSorted(front, keep);
      WithinElems(front, keep);
      var r := Within(front, keep);
      forall k | 0 <= k < |r|
        ensures r[k] < last
      {
        assert r[k] in Elems(r);
      }
    }
  }

  lemma OutsideSorted(s: seq<nat>, drop: set<nat>)
    requires StrictlySorted(s)
    ensures StrictlySorted(Outside(s, drop))
  {
    if s != [] {
      var front, last := s[..|s| - 1], s[|s| - 1];
      OutsideSorted(front, drop);
      OutsideElems(front, drop);
      var r := Outside(front, drop);
      forall k | 0 <= k < |r|
        ensures r[k] < last
      {
        assert r[k] in Elems(r);
      }
    }
  }

  lemma MapsAgree<K, V>(a: map<K, V>, b: map<K, V>)
    requires a.Keys == b.Keys && forall x | x in a :: a[x] == b[x]
    ensures a == b
  {
  }

  lemma WithoutNothing<K, V>(m: map<K, V>, k: K)
    requires k !in m
    ensures m - {k} == m
  {
  }

  lemma MapUnion<K, V>(a: map<K, V>, b: map<K, V>, both: map<K, V>)
    requires forall x {:trigger x in both} :: x in both <==> x in a || x in b
    requires forall x {:trigger both[x]} | x in both :: both[x] == if x in b then b[x] else a[x]
    ensures both == a + b
  {
  }

  lemma MapUpdatedAt<K, V>(before: map<K, V>, after: map<K, V>, k: K, v: V)
    requires after.Keys == before.Keys + {k} && after[k] == v
    requires forall x | x in before && x != k :: after[x] == before[x]
    ensures after == before[k := v]
  {
  }

  // ----- sorting -----

  function Insort(x: nat, s: seq<nat>): (r: seq<nat>)
    ensures multiset(r) == multiset(s) + multiset{x}
  {
    if s == [] then [x]
    else if x <= s[0] then [x] + s
    else
      assert s == [s[0]] + s[1..];
      [s[0]] + Insort(x, s[1..])
  }

  /** The standard library's `sort`, as an insertion sort. */
  function Sort(s: seq<nat>): (r: seq<nat>)
    ensures multiset(r) == multiset(s)
  {
    if s == [] then []
    else
      assert s == [s[0]] + s[1..];
      Insort(s[0], Sort(s[1..]))
  }

  lemma InsortSorted(x: nat, s: seq<nat>)
    requires StrictlySorted(s) && x !in s
    ensures StrictlySorted(Insort(x, s))
  {
    if s != [] && x > s[0] {
      InsortSorted(x, s[1..]);
      var r := Insort(x, s[1..]);
      forall k | 0 <= k < |r|
        ensures s[0] < r[k]
      {
        assert r[k] in multiset(r);
        assert r[k] == x || r[k] in s[1..];
      }
    }
  }

  lemma SortElems(s: seq<nat>)
    ensures Elems(Sort(s)) == Elems(s) && |Sort(s)| == |s|
  {
    assert |multiset(Sort(s))| == |multiset(s)|;
    forall x
      ensures x in Sort(s) <==> x in s
    {
      assert x in Sort(s) <==> x in multiset(Sort(s));
    }
  }

  lemma SortSorts(s: seq<nat>)
    requires NoDup(s)
    ensures StrictlySorted(Sort(s))
  {
    if s != [] {
      SortSorts(s[1..]);
      SortElems(s[1..]);
      assert s[0] !in s[1..];
      assert s[0] in Elems(Sort(s[1..])) <==> s[0] in Elems(s[1..]);
      InsortSorted(s[0], Sort(s[1..]));
    }
  }

  // ----- keys of an ordered map -----

  lemma MinExists(s: set<nat>) returns (m: nat)
    requires s != {}
    ensures m in s && forall x | x in s :: m <= x
  {
    var x :| x in s;
    if s == {x} {
      m := x;
    } else {
      var rest := MinExists(s - {x});
      m := if rest < x then rest else x;
      assert forall y | y in s :: y == x || y in s - {x};
    }
  }

  function Min(s: set<nat>): (m: nat)
    requires s != {}
    ensures m in s && forall x | x in s :: m <= x
  {
    assert exists m :: m in s && forall x | x in s :: m <= x by {
      var m := MinExists(s);
    }
    var m :| m in s && forall x | x in s :: m <= x;
    m
  }

  /** The elements of a set in ascending order: the iteration order of a host map's keys. */
  function Ascending(s: set<nat>): (r: seq<nat>)
    ensures StrictlySorted(r)
    ensures forall x :: x in r <==> x in s
  {
    if s == {} then []
    else
      var m := Min(s);
      var rest := Ascending(s - {m});
      assert forall k | 0 <= k < |rest| :: rest[k] in s - {m} && m < rest[k];
      [m] + rest
  }

  lemma AscendingElems(s: set<nat>)
    ensures Elems(Ascending(s)) == s && |Ascending(s)| == |s|
  {
    assert Elems(Ascending(s)) == s;
    NoDupCardinality(Ascending(s));
  }

  // ----- swap_remove -----

  /** `Vec::swap_remove`: drop index `i`, moving the last element into its place. */
  function SwapRemove<T>(s: seq<T>, i: nat): (r: seq<T>)
    requires i < |s|
    ensures |r| == |s| - 1
    ensures forall k | 0 <= k < |r| :: r[k] == if k == i then s[|s| - 1] else s[k]
  {
    if i == |s| - 1 then s[..i] else s[..|s| - 1][i := s[|s| - 1]]
  }
}
