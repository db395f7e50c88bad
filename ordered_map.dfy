/**
 * The keyed tables of the store are JavaScript `Map`s, and the category
 * tally is a plain object used as a dictionary. Both look a value up by key
 * and iterate in first-insertion order: setting an existing key replaces its
 * value in place, setting a new key appends it, deleting a key drops it.
 * `OrderedMap` models exactly that as a value: the key order plus the map.
 */
module OrderedMaps {
  import opened Schema

  datatype OrderedMap<K, V> = OrderedMap(keys: seq<K>, vals: map<K, V>)

  ghost predicate NoDuplicates<K>(ks: seq<K>) {
    forall i, j :: 0 <= i < j < |ks| ==> ks[i] != ks[j]
  }

  /** The key order lists every key of the map exactly once. */
  ghost predicate Valid<K(!new), V>(m: OrderedMap<K, V>) {
    && NoDuplicates(m.keys)
    && (forall k :: k in m.keys <==> k in m.vals)
  }

  /** `new Map()` */
  function Empty<K(!new), V>(): (m: OrderedMap<K, V>)
    ensures Valid(m) && m.keys == [] && m.vals == map[]
  {
    OrderedMap([], map[])
  }

  /** `map.get(k)`: `None` stands for `undefined`. */
  function Get<K(!new), V>(m: OrderedMap<K, V>, k: K): (r: Option<V>)
    ensures r.Some? <==> k in m.vals
    ensures r.Some? ==> r.value == m.vals[k]
  {
    if k in m.vals then Some(m.vals[k]) else None
  }

  /** `Array.from(map.values())`: the values in key order. */
  function Values<K(!new), V(!new)>(m: OrderedMap<K, V>): (r: seq<V>)
    requires Valid(m)
    ensures |r| == |m.keys| == |m.vals|
    ensures forall i {:trigger r[i]} :: 0 <= i < |r| ==> r[i] == m.vals[m.keys[i]]
  {
    KeyCount(m);
    seq(|m.keys|, i requires 0 <= i < |m.keys| => m.vals[m.keys[i]])
  }

  /** `map.set(k, v)`: an existing key keeps its position, a new one goes last. */
  function Set<K(!new), V(!new)>(m: OrderedMap<K, V>, k: K, v: V): (r: OrderedMap<K, V>)
    requires Valid(m)
    ensures Valid(r)
    ensures r.vals == m.vals[k := v]
    ensures r.keys == if k in m.vals then m.keys else m.keys + [k]
  {
    var r := OrderedMap(if k in m.vals then m.keys else m.keys + [k], m.vals[k := v]);
    assert Valid(r) by {
      if k !in m.vals {
        assert forall i :: 0 <= i < |m.keys| ==> r.keys[i] == m.keys[i];
      }
    }
    r
  }

  /** The key order with one key taken out, the others keeping their order. */
  function Remove<K(==,!new)>(ks: seq<K>, k: K): (r: seq<K>)
    ensures forall x :: x in r <==> x in ks && x != k
    ensures NoDuplicates(ks) ==> NoDuplicates(r)
    ensures k !in ks ==> r == ks
  {
    if ks == [] then []
    else
      var init, last := ks[..|ks| - 1], ks[|ks| - 1];
      assert ks == init + [last];
      var r := Remove(init, k);
      assert NoDuplicates(ks) ==> NoDuplicates(init) && last !in init;
      if last == k then r else r + [last]
  }

  /** Removing the key at position `p` of a duplicate-free order cuts out exactly that position. */
  lemma {:induction false} RemoveAt<K(!new)>(ks: seq<K>, k: K, p: int)
    requires NoDuplicates(ks) && 0 <= p < |ks| && ks[p] == k
    ensures Remove(ks, k) == ks[..p] + ks[p + 1..]
  {
    var init, last := ks[..|ks| - 1], ks[|ks| - 1];
    assert ks == init + [last];
    DistinctInit(ks);
    if p == |ks| - 1 {
      assert ks[..p] == init && ks[p + 1..] == [];
    } else {
      assert last != ks[p];
      RemoveAt(init, k, p);
      assert Remove(ks, k) == Remove(init, k) + [last];
      assert ks[..p] == init[..p];
      assert ks[p + 1..] == init[p + 1..] + [last];
      assert (init[..p] + init[p + 1..]) + [last] == init[..p] + (init[p + 1..] + [last]);
    }
  }

  /** Dropping the last element of a duplicate-free sequence keeps it duplicate-free, without that element. */
  lemma DistinctInit<K>(ks: seq<K>)
    requires NoDuplicates(ks) && ks != []
    ensures NoDuplicates(ks[..|ks| - 1]) && ks[|ks| - 1] !in ks[..|ks| - 1]
  {
  }

  /** `map.delete(k)`: the entry is gone, all others stay as they were. */
  function Delete<K(!new), V>(m: OrderedMap<K, V>, k: K): (r: OrderedMap<K, V>)
    requires Valid(m)
    ensures Valid(r)
    ensures r.vals == m.vals - {k}
    ensures k !in m.vals ==> r == m
  {
    OrderedMap(Remove(m.keys, k), m.vals - {k})
  }

  /**
   * `rows.forEach(row => map.set(key(row), row))`: the rows are set one after
   * the other, the last one last.
   */
  function SetAll<K(!new), V(!new)>(m: OrderedMap<K, V>, rows: seq<V>, key: V -> K): (r: OrderedMap<K, V>)
    requires Valid(m)
    ensures Valid(r)
  {
    if rows == [] then m
    else
      var last := rows[|rows| - 1];
      Set(SetAll(m, rows[..|rows| - 1], key), key(last), last)
  }

  // ------------------------------------------------------------------- lemmas

  /** The listed values are exactly the values stored in the map. */
  lemma ValuesAreStored<K(!new), V(!new)>(m: OrderedMap<K, V>)
    requires Valid(m)
    ensures forall v :: v in Values(m) <==> v in m.vals.Values
  {
    var r := Values(m);
    forall v | v in m.vals.Values ensures v in r {
      var k :| k in m.vals && m.vals[k] == v;
      var i :| 0 <= i < |m.keys| && m.keys[i] == k;
      assert r[i] == v;
    }
  }

  /** Setting a new key appends its value to the iteration order. */
  lemma SetNewKey<K(!new), V(!new)>(m: OrderedMap<K, V>, k: K, v: V)
    requires Valid(m) && k !in m.vals
    ensures Values(Set(m, k, v)) == Values(m) + [v]
  {
  }

  /** Setting an existing key replaces its value where it stands. */
  lemma SetExistingKey<K(!new), V(!new)>(m: OrderedMap<K, V>, k: K, v: V, i: int)
    requires Valid(m) && 0 <= i < |m.keys| && k in m.vals
    ensures |Values(Set(m, k, v))| == |Values(m)|
    ensures Values(Set(m, k, v))[i] == if m.keys[i] == k then v else Values(m)[i]
  {
  }

  /** A duplicate-free key order is as long as the map has entries. */
  lemma KeyCount<K(!new), V(!new)>(m: OrderedMap<K, V>)
    requires Valid(m)
    ensures |m.keys| == |m.vals|
  {
    DistinctCard(m.keys);
    assert m.vals.Keys == set k | k in m.keys;
  }

  lemma {:induction false} DistinctCard<K(!new)>(ks: seq<K>)
    requires NoDuplicates(ks)
    ensures |set k | k in ks| == |ks|
  {
    if ks != [] {
      var init, last := ks[..|ks| - 1], ks[|ks| - 1];
      assert ks == init + [last];
      DistinctCard(init);
      assert last !in init;
      assert (set k | k in ks) == (set k | k in init) + {last};
    }
  }

  lemma LastKeyFresh<K>(before: seq<K>, added: seq<K>, k: K)
    requires NoDuplicates(added + [k]) && k !in before
    ensures k !in before + added
  {
    forall j | 0 <= j < |added| ensures added[j] != k {
      assert (added + [k])[j] == added[j];
      assert (added + [k])[|added|] == k;
    }
  }

  /** Rows with distinct keys: the rows but the last still have distinct keys, none of them the last row's. */
  lemma DistinctPrefixKeys<K(!new), V>(rows: seq<V>, key: V -> K)
    requires rows != []
    requires NoDuplicates(KeysOf(rows, key))
    ensures NoDuplicates(KeysOf(rows[..|rows| - 1], key))
    ensures forall i :: 0 <= i < |rows| - 1 ==> key(rows[i]) != key(rows[|rows| - 1])
  {
    var n, ks := |rows|, KeysOf(rows, key);
    var initKeys := KeysOf(rows[..n - 1], key);
    forall i, j | 0 <= i < j < n - 1 ensures initKeys[i] != initKeys[j] {
      assert initKeys[i] == ks[i] && initKeys[j] == ks[j];
    }
    forall i | 0 <= i < n - 1 ensures key(rows[i]) != key(rows[n - 1]) {
      assert ks[i] != ks[n - 1];
    }
  }

  lemma FreshPrefix<K(!new), V>(m: OrderedMap<K, V>, rows: seq<V>, key: V -> K)
    requires rows != []
    requires NoDuplicates(KeysOf(rows, key))
    ensures NoDuplicates(KeysOf(rows[..|rows| - 1], key))
    ensures (forall k :: k in KeysOf(rows, key) ==> k !in m.keys) ==>
      forall k :: k in KeysOf(rows[..|rows| - 1], key) ==> k !in m.keys
  {
    var n, ks := |rows|, KeysOf(rows, key);
    var initKeys := KeysOf(rows[..n - 1], key);
    forall i, j | 0 <= i < j < n - 1 ensures initKeys[i] != initKeys[j] {
      assert initKeys[i] == ks[i] && initKeys[j] == ks[j];
    }
  }

  /** The keys that `SetAll` adds, in the order it adds them. */
  function KeysOf<K, V>(rows: seq<V>, key: V -> K): (ks: seq<K>)
    ensures |ks| == |rows|
    ensures forall i :: 0 <= i < |rows| ==> ks[i] == key(rows[i])
  {
    seq(|rows|, i requires 0 <= i < |rows| => key(rows[i]))
  }

  /**
   * Setting rows whose keys are new and pairwise distinct appends their keys,
   * in their order, after the existing ones ...
   */
  lemma {:induction false} SetAllFreshKeys<K(!new), V(!new)>(m: OrderedMap<K, V>, rows: seq<V>, key: V -> K)
    requires Valid(m)
    requires NoDuplicates(KeysOf(rows, key))
    requires forall k :: k in KeysOf(rows, key) ==> k !in m.keys
    ensures SetAll(m, rows, key).keys == m.keys + KeysOf(rows, key)
  {
    if rows != [] {
      var n := |rows|;
      var init, last := rows[..n - 1], rows[n - 1];
      var initKeys := KeysOf(init, key);
      var prev := SetAll(m, init, key);
      FreshPrefix(m, rows, key);
      SetAllFreshKeys(m, init, key);
      assert prev.keys == m.keys + initKeys;
      assert key(last) !in prev.vals by {
        assert KeysOf(rows, key) == initKeys + [key(last)];
        LastKeyFresh(m.keys, initKeys, key(last));
      }
      assert KeysOf(rows, key) == initKeys + [key(last)];
    }
  }

  /** ... and each row is stored under its own key. */
  lemma SetAllFreshVals<K(!new), V(!new)>(m: OrderedMap<K, V>, rows: seq<V>, key: V -> K)
    requires Valid(m)
    requires NoDuplicates(KeysOf(rows, key))
    ensures forall i :: 0 <= i < |rows| ==>
      key(rows[i]) in SetAll(m, rows, key).vals && SetAll(m, rows, key).vals[key(rows[i])] == rows[i]
  {
    forall i | 0 <= i < |rows|
      ensures key(rows[i]) in SetAll(m, rows, key).vals && SetAll(m, rows, key).vals[key(rows[i])] == rows[i]
    {
      SetAllFreshVal(m, rows, key, i);
    }
  }

  /** The row at position `i` is the one stored under its key: no later row has the same key. */
  lemma {:induction false} SetAllFreshVal<K(!new), V(!new)>(m: OrderedMap<K, V>, rows: seq<V>, key: V -> K, i: int)
    requires Valid(m)
    requires NoDuplicates(KeysOf(rows, key))
    requires 0 <= i < |rows|
    ensures key(rows[i]) in SetAll(m, rows, key).vals && SetAll(m, rows, key).vals[key(rows[i])] == rows[i]
  {
    var n := |rows|;
    var init := rows[..n - 1];
    if i < n - 1 {
      DistinctPrefixKeys(rows, key);
      SetAllFreshVal(m, init, key, i);
      assert init[i] == rows[i];
      SetAllKeepsEarlier(m, rows, key, key(rows[i]));
    }
  }

  /** Setting the rows sets the last row's key last, so it holds the last row ... */
  lemma SetAllLast<K(!new), V(!new)>(m: OrderedMap<K, V>, rows: seq<V>, key: V -> K)
    requires Valid(m) && rows != []
    ensures SetAll(m, rows, key).vals == SetAll(m, rows[..|rows| - 1], key).vals[key(rows[|rows| - 1]) := rows[|rows| - 1]]
  {
  }

  /** ... and every other key holds what it held before the last row was set. */
  lemma SetAllKeepsEarlier<K(!new), V(!new)>(m: OrderedMap<K, V>, rows: seq<V>, key: V -> K, k: K)
    requires Valid(m) && rows != []
    requires k in SetAll(m, rows[..|rows| - 1], key).vals && k != key(rows[|rows| - 1])
    ensures k in SetAll(m, rows, key).vals
    ensures SetAll(m, rows, key).vals[k] == SetAll(m, rows[..|rows| - 1], key).vals[k]
  {
    SetAllLast(m, rows, key);
  }

  /** Setting fresh, distinct rows into an empty map lists exactly those rows. */
  lemma SetAllIntoEmpty<K(!new), V(!new)>(rows: seq<V>, key: V -> K)
    requires NoDuplicates(KeysOf(rows, key))
    ensures SetAll(Empty(), rows, key).keys == KeysOf(rows, key)
    ensures Values(SetAll(Empty(), rows, key)) == rows
  {
    var m: OrderedMap<K, V> := Empty();
    SetAllFreshKeys(m, rows, key);
    SetAllFreshVals(m, rows, key);
    assert m.keys + KeysOf(rows, key) == KeysOf(rows, key);
  }

  /** A deleted key is gone, every other key keeps its value, and a second delete changes nothing. */
  lemma DeleteEffect<K(!new), V>(m: OrderedMap<K, V>, k: K, j: K)
    requires Valid(m)
    ensures Get(Delete(m, k), k).None?
    ensures j != k ==> Get(Delete(m, k), j) == Get(m, j)
    ensures Delete(Delete(m, k), k) == Delete(m, k)
  {
  }

  /** Deleting the key at position `p` drops its value from the listing; the others keep their order. */
  lemma DeleteValues<K(!new), V(!new)>(m: OrderedMap<K, V>, k: K, p: int)
    requires Valid(m) && 0 <= p < |m.keys| && m.keys[p] == k
    ensures Values(Delete(m, k)) == Values(m)[..p] + Values(m)[p + 1..]
  {
    RemoveAt(m.keys, k, p);
    var ks, rest := m.keys, Delete(m, k).keys;
    var r, before := Values(Delete(m, k)), Values(m);
    assert rest == ks[..p] + ks[p + 1..];
    forall i | 0 <= i < |r| ensures r[i] == (before[..p] + before[p + 1..])[i] {
      CutAt(ks, p, i);
      CutAt(before, p, i);
    }
  }

  /** Position `i` of `s` with position `p` cut out. */
  lemma CutAt<T>(s: seq<T>, p: int, i: int)
    requires 0 <= p < |s| && 0 <= i < |s| - 1
    ensures (s[..p] + s[p + 1..])[i] == if i < p then s[i] else s[i + 1]
  {
  }

  /** The loop behind `rows.forEach(row => map.set(key(row), row))`. */
  method SetEach<K(!new), V(!new)>(m: OrderedMap<K, V>, rows: seq<V>, key: V -> K) returns (r: OrderedMap<K, V>)
    requires Valid(m)
    ensures r == SetAll(m, rows, key)
  {
    r := m;
    for i := 0 to |rows|
      invariant r == SetAll(m, rows[..i], key)
    {
      assert rows[..i + 1][..i] == rows[..i];
      r := Set(r, key(rows[i]), rows[i]);
    }
    assert rows[..|rows|] == rows;
  }
}
