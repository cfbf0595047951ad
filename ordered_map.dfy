/**
 * A JavaScript `Map`: its bindings together with the order in which its keys
 * were first inserted, which is the order `values()` yields them in.
 */
module OrderedMap {
  import opened Wrappers

  datatype OMap<K, V> = OMap(keys: seq<K>, items: map<K, V>)

  function Empty<K, V>(): OMap<K, V> {
    OMap([], map[])
  }

  /** Every key is listed once, and the listed keys are exactly the bound ones. */
  ghost predicate Valid<K, V>(m: OMap<K, V>) {
    && (forall i, j :: 0 <= i < j < |m.keys| ==> m.keys[i] != m.keys[j])
    && (forall i :: 0 <= i < |m.keys| ==> m.keys[i] in m.items)
    && (forall k | k in m.items :: k in m.keys)
  }

  /** `m.set(k, v)`: a new key goes last, a key already bound keeps its place. */
  function Set<K, V>(m: OMap<K, V>, k: K, v: V): (r: OMap<K, V>)
    ensures Valid(m) ==> Valid(r)
  {
    OMap(if k in m.items then m.keys else m.keys + [k], m.items[k := v])
  }

  /** `Array.from(m.values())` */
  function Values<K, V>(m: OMap<K, V>): (r: seq<V>)
    requires Valid(m)
    ensures |r| == |m.keys| && forall i :: 0 <= i < |r| ==> r[i] == m.items[m.keys[i]]
  {
    seq(|m.keys|, i requires 0 <= i < |m.keys| => m.items[m.keys[i]])
  }

  /** `values()` yields every bound value, and nothing else. */
  lemma ValuesOfBindings<K, V>(m: OMap<K, V>)
    requires Valid(m)
    ensures forall k | k in m.items :: m.items[k] in Values(m)
    ensures forall v | v in Values(m) :: exists k :: k in m.items && m.items[k] == v
  {
    var vs := Values(m);
    forall k | k in m.items ensures m.items[k] in vs {
      var i :| 0 <= i < |m.keys| && m.keys[i] == k;
      assert vs[i] == m.items[k];
    }
    forall v | v in vs ensures exists k :: k in m.items && m.items[k] == v {
      var i :| 0 <= i < |vs| && vs[i] == v;
      assert m.items[m.keys[i]] == v;
    }
  }

  /** The pairs of `kvs` applied with `Set`, first to last. */
  function SetAll<K, V>(m: OMap<K, V>, kvs: seq<(K, V)>): (r: OMap<K, V>)
    ensures Valid(m) ==> Valid(r)
    decreases |kvs|
  {
    if kvs == [] then m
    else Set(SetAll(m, kvs[..|kvs| - 1]), kvs[|kvs| - 1].0, kvs[|kvs| - 1].1)
  }

  /** The value paired with the last occurrence of `k` in `kvs`. */
  function LastBinding<K(==), V>(kvs: seq<(K, V)>, k: K): (r: Option<V>)
    ensures r.None? <==> forall i :: 0 <= i < |kvs| ==> kvs[i].0 != k
    ensures r.Some? ==> exists i :: 0 <= i < |kvs| && kvs[i] == (k, r.value)
                                    && forall j :: i < j < |kvs| ==> kvs[j].0 != k
    decreases |kvs|
  {
    if kvs == [] then None
    else if kvs[|kvs| - 1].0 == k then Some(kvs[|kvs| - 1].1)
    else LastBinding(kvs[..|kvs| - 1], k)
  }

  /** Appending a binding for `k2` decides `k` exactly when `k2 == k`. */
  lemma LastBindingSnoc<K, V>(kvs: seq<(K, V)>, k2: K, v: V, k: K)
    ensures LastBinding(kvs + [(k2, v)], k) == if k2 == k then Some(v) else LastBinding(kvs, k)
  {
    assert (kvs + [(k2, v)])[..|kvs|] == kvs;
  }

  /** `kvs` with each value replaced by `f` of its binding. */
  function MapBindings<K, V, W>(kvs: seq<(K, V)>, f: (K, V) -> W): (r: seq<(K, W)>)
    ensures |r| == |kvs| && forall i :: 0 <= i < |kvs| ==> r[i] == (kvs[i].0, f(kvs[i].0, kvs[i].1))
  {
    seq(|kvs|, i requires 0 <= i < |kvs| => (kvs[i].0, f(kvs[i].0, kvs[i].1)))
  }

  /** Mapping the values maps the last binding of each key. */
  lemma {:induction false} LastBindingOfMapped<K, V, W>(kvs: seq<(K, V)>, f: (K, V) -> W, k: K)
    ensures LastBinding(MapBindings(kvs, f), k)
         == (match LastBinding(kvs, k) case None => None case Some(v) => Some(f(k, v)))
    decreases |kvs|
  {
    if kvs != [] {
      var init, last := kvs[..|kvs| - 1], kvs[|kvs| - 1];
      assert kvs == init + [(last.0, last.1)];
      assert MapBindings(kvs, f) == MapBindings(init, f) + [(last.0, f(last.0, last.1))];
      LastBindingSnoc(init, last.0, last.1, k);
      LastBindingSnoc(MapBindings(init, f), last.0, f(last.0, last.1), k);
      LastBindingOfMapped(init, f, k);
    }
  }

  /** A binding no later binding overrides is the last one. */
  lemma LastBindingAt<K, V>(kvs: seq<(K, V)>, i: int)
    requires 0 <= i < |kvs|
    requires forall j :: i < j < |kvs| ==> kvs[j].0 != kvs[i].0
    ensures LastBinding(kvs, kvs[i].0) == Some(kvs[i].1)
  {
    var r := LastBinding(kvs, kvs[i].0);
    var w :| 0 <= w < |kvs| && kvs[w] == (kvs[i].0, r.value) && forall j :: w < j < |kvs| ==> kvs[j].0 != kvs[i].0;
    assert !(w < i);
  }

  /** After `SetAll`, a key is bound to its last binding in `kvs`, or else to what it had before. */
  lemma {:induction false} SetAllAt<K, V>(m: OMap<K, V>, kvs: seq<(K, V)>, k: K)
    ensures k in SetAll(m, kvs).items <==> k in m.items || LastBinding(kvs, k).Some?
    ensures k in SetAll(m, kvs).items ==>
              SetAll(m, kvs).items[k] == (if LastBinding(kvs, k).Some? then LastBinding(kvs, k).value else m.items[k])
    decreases |kvs|
  {
    if kvs != [] {
      SetAllAt(m, kvs[..|kvs| - 1], k);
    }
  }

  /** Keys already present keep their positions: the old key order is a prefix of the new one. */
  lemma {:induction false} SetAllKeepsOrder<K, V>(m: OMap<K, V>, kvs: seq<(K, V)>)
    ensures m.keys <= SetAll(m, kvs).keys
    decreases |kvs|
  {
    if kvs != [] {
      SetAllKeepsOrder(m, kvs[..|kvs| - 1]);
    }
  }

  /** When every key of `kvs` is already bound, the key order does not change at all. */
  lemma {:induction false} SetAllKnownKeys<K, V>(m: OMap<K, V>, kvs: seq<(K, V)>)
    requires forall i :: 0 <= i < |kvs| ==> kvs[i].0 in m.items
    ensures SetAll(m, kvs).keys == m.keys
    decreases |kvs|
  {
    if kvs != [] {
      var init := kvs[..|kvs| - 1];
      SetAllKnownKeys(m, init);
      SetAllAt(m, init, kvs[|kvs| - 1].0);
    }
  }

  /** Applying the same pairs a second time changes nothing. */
  lemma SetAllIdempotent<K, V>(m: OMap<K, V>, kvs: seq<(K, V)>)
    ensures SetAll(SetAll(m, kvs), kvs) == SetAll(m, kvs)
  {
    var once := SetAll(m, kvs);
    var twice := SetAll(once, kvs);
    forall i | 0 <= i < |kvs|
      ensures kvs[i].0 in once.items
    {
      SetAllAt(m, kvs, kvs[i].0);
    }
    SetAllKnownKeys(once, kvs);
    forall k | k in twice.items
      ensures k in once.items
    {
      SetAllAt(m, kvs, k);
      SetAllAt(once, kvs, k);
    }
    forall k | k in once.items
      ensures k in twice.items && twice.items[k] == once.items[k]
    {
      SetAllAt(m, kvs, k);
      SetAllAt(once, kvs, k);
    }
    assert twice.items == once.items;
  }

  /** The keys of a run of pairs, in order. */
  function Keys<K, V>(kvs: seq<(K, V)>): (ks: seq<K>)
    ensures |ks| == |kvs| && forall i :: 0 <= i < |kvs| ==> ks[i] == kvs[i].0
  {
    seq(|kvs|, i requires 0 <= i < |kvs| => kvs[i].0)
  }

  /** The keys of `ks` not in `known`, each at its first occurrence, in the order of `ks`. */
  function NewKeys<K(==)>(known: seq<K>, ks: seq<K>): seq<K>
    decreases |ks|
  {
    if ks == [] then []
    else if ks[0] in known then NewKeys(known, ks[1..])
    else [ks[0]] + NewKeys(known + [ks[0]], ks[1..])
  }

  lemma {:induction false} NewKeysSnoc<K>(known: seq<K>, ks: seq<K>, k: K)
    ensures var n := NewKeys(known, ks);
      NewKeys(known, ks + [k]) == n + (if k in known || k in n then [] else [k])
    decreases |ks|
  {
    if ks != [] {
      assert (ks + [k])[1..] == ks[1..] + [k];
      if ks[0] in known {
        NewKeysSnoc(known, ks[1..], k);
      } else {
        NewKeysSnoc(known + [ks[0]], ks[1..], k);
      }
    }
  }

  /**
   * After a run of `set`s the keys are the old ones, in their order, followed by
   * each new key at its first `set`, in the order of the run.
   */
  lemma {:induction false} SetAllKeys<K, V>(m: OMap<K, V>, kvs: seq<(K, V)>)
    requires Valid(m)
    ensures SetAll(m, kvs).keys == m.keys + NewKeys(m.keys, Keys(kvs))
    decreases |kvs|
  {
    if kvs == [] {
      assert Keys(kvs) == [];
    } else {
      var init, k := kvs[..|kvs| - 1], kvs[|kvs| - 1].0;
      SetAllKeys(m, init);
      KeysSnoc(kvs);
      var n := NewKeys(m.keys, Keys(init));
      NewKeysSnoc(m.keys, Keys(init), k);
      var r := SetAll(m, init);
      BoundIffListed(r, k);
      assert k in r.items <==> k in m.keys || k in n;
      assert (m.keys + n) + [k] == m.keys + (n + [k]);
    }
  }

  lemma KeysSnoc<K, V>(kvs: seq<(K, V)>)
    requires kvs != []
    ensures Keys(kvs) == Keys(kvs[..|kvs| - 1]) + [kvs[|kvs| - 1].0]
  {
  }

  lemma BoundIffListed<K, V>(m: OMap<K, V>, k: K)
    requires Valid(m)
    ensures k in m.items <==> k in m.keys
  {
  }

  /** Two distinct keys set into an empty map sit in the order they were set. */
  lemma SetTwoKeys<K, V>(k1: K, v1: V, k2: K, v2: V)
    requires k1 != k2
    ensures Set(Set(Empty(), k1, v1), k2, v2) == OMap([k1, k2], map[k1 := v1, k2 := v2])
  {
    var m1 := Set(Empty(), k1, v1);
    assert m1.keys == [k1] && m1.items == map[k1 := v1];
    assert k2 !in m1.items;
    assert m1.keys + [k2] == [k1, k2];
  }

  /** Setting a key twice is setting it once to the second value. */
  lemma SetTwice<K, V>(m: OMap<K, V>, k: K, a: V, b: V)
    ensures Set(Set(m, k, a), k, b) == Set(m, k, b)
  {
    assert Set(Set(m, k, a), k, b).items == Set(m, k, b).items;
  }

  /** One more pair is one more `Set`. */
  lemma SetAllSnoc<K, V>(m: OMap<K, V>, kvs: seq<(K, V)>, k: K, v: V)
    ensures SetAll(m, kvs + [(k, v)]) == Set(SetAll(m, kvs), k, v)
  {
    assert (kvs + [(k, v)])[..|kvs|] == kvs;
  }
}
