/**
 * The JavaScript `Map` the hub keeps its clients in, as a value: the keys in
 * insertion order beside the key/value association. `Set` on a key that is
 * already present replaces the value and leaves the key where it was; `Set` on
 * a new key appends it; `Delete` removes a key and keeps the order of the rest.
 */
module OrderedMap {

  /** No element occurs twice. */
  ghost predicate Distinct<K>(s: seq<K>)
  {
    forall i, j | 0 <= i < j < |s| :: s[i] != s[j]
  }

  /** The elements of `s` that lie in `keep`, in their order in `s`. */
  function Filter<K>(s: seq<K>, keep: set<K>): seq<K>
  {
    if s == [] then []
    else Filter(s[..|s| - 1], keep) + (if s[|s| - 1] in keep then [s[|s| - 1]] else [])
  }

  datatype OrderedMap<K, V> = OrderedMap(keys: seq<K>, entries: map<K, V>)
  {
    /** Every key is listed exactly once, and only keys are listed. */
    ghost predicate Valid()
    {
      && Distinct(keys)
      && (forall i | 0 <= i < |keys| :: keys[i] in entries)
      && (forall k | k in entries :: k in keys)
    }

    /** `map.size` */
    function Size(): nat
    {
      |entries|
    }

    /** `map.has(k)` */
    predicate Has(k: K)
    {
      k in entries
    }

    /** `map.set(k, v)` */
    function Set(k: K, v: V): OrderedMap<K, V>
    {
      OrderedMap(if k in entries then keys else keys + [k], entries[k := v])
    }

    /** `map.delete(k)` */
    function Delete(k: K): OrderedMap<K, V>
    {
      OrderedMap(Filter(keys, entries.Keys - {k}), entries - {k})
    }

    /** `Array.from(map.values())` */
    function Values(): (vs: seq<V>)
      requires Valid()
      ensures |vs| == |keys|
      ensures forall i | 0 <= i < |keys| :: vs[i] == entries[keys[i]]
    {
      Lookup(keys, entries)
    }
  }

  /** The values of `m` at the keys `ks`, in the order of `ks`. */
  function Lookup<K, V>(ks: seq<K>, m: map<K, V>): (vs: seq<V>)
    requires forall i | 0 <= i < |ks| :: ks[i] in m
    ensures |vs| == |ks|
    ensures forall i | 0 <= i < |ks| :: vs[i] == m[ks[i]]
  {
    if ks == [] then [] else Lookup(ks[..|ks| - 1], m) + [m[ks[|ks| - 1]]]
  }

  /** `new Map()` */
  function Empty<K, V>(): (m: OrderedMap<K, V>)
    ensures m.Valid() && m.Size() == 0 && m.keys == []
  {
    OrderedMap([], map[])
  }

  lemma {:induction false} FilterMembers<K>(s: seq<K>, keep: set<K>, x: K)
    ensures x in Filter(s, keep) <==> x in s && x in keep
    decreases |s|
  {
    if s != [] {
      FilterMembers(s[..|s| - 1], keep, x);
      assert s == s[..|s| - 1] + [s[|s| - 1]];
    }
  }

  lemma {:induction false} FilterDistinct<K>(s: seq<K>, keep: set<K>)
    requires Distinct(s)
    ensures Distinct(Filter(s, keep))
    decreases |s|
  {
    if s != [] {
      var init, last := s[..|s| - 1], s[|s| - 1];
      FilterDistinct(init, keep);
      FilterMembers(init, keep, last);
      assert last !in init by {
        assert s == init + [last];
      }
    }
  }

  /** Filtering by a set that holds every element changes nothing. */
  lemma {:induction false} FilterKeepsAll<K>(s: seq<K>, keep: set<K>)
    requires forall i | 0 <= i < |s| :: s[i] in keep
    ensures Filter(s, keep) == s
    decreases |s|
  {
    if s != [] {
      FilterKeepsAll(s[..|s| - 1], keep);
      assert s == s[..|s| - 1] + [s[|s| - 1]];
    }
  }

  /** Filtering out the one element at position `p` closes the gap and keeps the order of the rest. */
  lemma {:induction false} FilterDrop<K>(s: seq<K>, keep: set<K>, p: nat)
    requires p < |s| && s[p] !in keep
    requires forall i | 0 <= i < |s| && i != p :: s[i] in keep
    ensures Filter(s, keep) == s[..p] + s[p + 1..]
    decreases |s|
  {
    var init, last := s[..|s| - 1], s[|s| - 1];
    if p == |s| - 1 {
      FilterKeepsAll(init, keep);
    } else {
      FilterDrop(init, keep, p);
      assert init[..p] == s[..p] && init[p + 1..] + [last] == s[p + 1..];
    }
  }

  /** Filtering twice is filtering once by the intersection. */
  lemma {:induction false} FilterTwice<K>(s: seq<K>, a: set<K>, b: set<K>)
    ensures Filter(Filter(s, a), b) == Filter(s, a * b)
    decreases |s|
  {
    if s != [] {
      var init, last := s[..|s| - 1], s[|s| - 1];
      FilterTwice(init, a, b);
      var fa := Filter(init, a);
      if last in a {
        var fs := fa + [last];
        assert fs[..|fs| - 1] == fa && fs[|fs| - 1] == last;
        assert Filter(fs, b) == Filter(fa, b) + (if last in b then [last] else []);
      } else {
        assert Filter(s, a) == fa;
      }
    }
  }

  /** The number of entries is the number of listed keys. */
  lemma SizeIsKeyCount<K, V>(m: OrderedMap<K, V>)
    requires m.Valid()
    ensures m.Size() == |m.keys|
  {
    DistinctCardinality(m.keys);
    assert m.entries.Keys == set x | x in m.keys;
  }

  lemma {:induction false} DistinctCardinality<K>(s: seq<K>)
    requires Distinct(s)
    ensures |set x | x in s| == |s|
    decreases |s|
  {
    if s != [] {
      var init, last := s[..|s| - 1], s[|s| - 1];
      assert s == init + [last];
      DistinctCardinality(init);
      assert (set x | x in s) == (set x | x in init) + {last};
      assert last !in (set x | x in init);
    }
  }

  /**
   * `Set` keeps exactly one entry for `k`, holding `v`; every key already listed keeps
   * its position; a new key is listed last and grows the size by one, a present key
   * leaves the size as it was; every other entry is untouched.
   */
  lemma SetSemantics<K, V>(m: OrderedMap<K, V>, k: K, v: V)
    requires m.Valid()
    ensures var r := m.Set(k, v);
      && r.Valid()
      && r.Has(k) && r.entries[k] == v
      && (forall i, j | 0 <= i < j < |r.keys| :: r.keys[i] == k ==> r.keys[j] != k)
      && (forall i | 0 <= i < |m.keys| :: r.keys[i] == m.keys[i])
      && (m.Has(k) ==> |r.keys| == |m.keys| && r.Size() == m.Size())
      && (!m.Has(k) ==> |r.keys| == |m.keys| + 1 && r.keys[|m.keys|] == k && r.Size() == m.Size() + 1)
      && (forall j | j != k :: (j in r.entries <==> j in m.entries) && (j in m.entries ==> r.entries[j] == m.entries[j]))
  {
    var r := m.Set(k, v);
    SizeIsKeyCount(m);
    assert r.Valid();
    SizeIsKeyCount(r);
  }

  /** The keys `Delete` leaves are the others, each once, in their old order. */
  lemma DeleteValid<K, V>(m: OrderedMap<K, V>, k: K)
    requires m.Valid()
    ensures m.Delete(k).Valid()
  {
    var r := m.Delete(k);
    forall x ensures x in r.keys <==> x in m.keys && x in m.entries.Keys - {k} {
      FilterMembers(m.keys, m.entries.Keys - {k}, x);
    }
    FilterDistinct(m.keys, m.entries.Keys - {k});
    forall i | 0 <= i < |r.keys| ensures r.keys[i] in r.entries {
      assert r.keys[i] in r.keys;
      FilterMembers(m.keys, m.entries.Keys - {k}, r.keys[i]);
    }
  }

  /** Deleting an absent key is a no-op. */
  lemma DeleteAbsent<K, V>(m: OrderedMap<K, V>, k: K)
    requires m.Valid() && !m.Has(k)
    ensures m.Delete(k) == m
  {
    FilterKeepsAll(m.keys, m.entries.Keys - {k});
    assert m.entries - {k} == m.entries;
  }

  /**
   * `Delete` removes `k` and nothing else and shrinks the size by one exactly when
   * `k` was present; deleting an absent key is a no-op, so deleting twice is deleting
   * once.
   */
  lemma DeleteSemantics<K, V>(m: OrderedMap<K, V>, k: K)
    requires m.Valid()
    ensures var r := m.Delete(k);
      && r.Valid()
      && !r.Has(k)
      && (forall j | j != k :: (j in r.entries <==> j in m.entries) && (j in m.entries ==> r.entries[j] == m.entries[j]))
      && r.Size() == (if m.Has(k) then m.Size() - 1 else m.Size())
      && (!m.Has(k) ==> r == m)
      && (forall p | 0 <= p < |m.keys| && m.keys[p] == k :: r.keys == m.keys[..p] + m.keys[p + 1..])
      && r.Delete(k) == r
  {
    DeleteKeepsOrder(m, k);
    DeleteValid(m, k);
    DeleteAbsent(m.Delete(k), k);
    if m.Has(k) {
      RemoveOne(m.entries, k);
    } else {
      DeleteAbsent(m, k);
    }
  }

  /** The keys other than `k` keep their order: the gap `k` leaves is closed. */
  lemma DeleteKeepsOrder<K, V>(m: OrderedMap<K, V>, k: K)
    requires m.Valid()
    ensures forall p | 0 <= p < |m.keys| && m.keys[p] == k :: m.Delete(k).keys == m.keys[..p] + m.keys[p + 1..]
  {
    forall p | 0 <= p < |m.keys| && m.keys[p] == k
      ensures m.Delete(k).keys == m.keys[..p] + m.keys[p + 1..]
    {
      FilterDrop(m.keys, m.entries.Keys - {k}, p);
    }
  }

  /** Removing a present key from a map shrinks it by one. A solver aid for `DeleteSemantics`. */
  lemma RemoveOne<K, V>(e: map<K, V>, k: K)
    requires k in e
    ensures |e - {k}| == |e| - 1
  {
    assert (e - {k}).Keys == e.Keys - {k};
  }
}
