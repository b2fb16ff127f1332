/** `Map.java`: a map from the parallel arrays `keys` and `values`, with a
    bucket table of one slot per entry whose chains hold the values. Lookup by
    key visits the whole chain of the key's slot; it does not compare keys. */
module Maps {
  import opened Wrappers
  import Lists
  import opened HashTable

  /** `Map.Empty` and `Map.Hashed`. `hash` is the keys' `hashCode`. */
  datatype HashMap<!K, !V> =
    | EmptyMap
    | Hashed(keys: seq<K>, values: seq<V>, table: Table<V>, hash: K -> bv32)

  /** The array lengths of a constructed map: one value and one slot per key. */
  predicate Shaped<K, V>(m: HashMap<K, V>) {
    m.Hashed? ==> |m.keys| == |m.values| == |m.table| <= MaxLength
  }

  /** The slot of every key of a hashed map. */
  function KeySlots<K, V>(m: HashMap<K, V>): seq<int>
    requires m.Hashed? && Shaped(m)
  {
    Slots(m.keys, m.hash, |m.table|)
  }

  /** What bucket `b` should hold: the values whose keys fall in slot `b`,
      in array order. */
  ghost function Bucket<K, V>(m: HashMap<K, V>, b: int): seq<V>
    requires m.Hashed? && Shaped(m)
  {
    Picked(m.values, KeySlots(m), b, |m.values|)
  }

  /** Every slot of the table holds its bucket. */
  ghost predicate Bucketed<K, V>(m: HashMap<K, V>) {
    && Shaped(m)
    && (m.Hashed? ==> forall b :: 0 <= b < |m.table| ==> Holds(m.table[b], Bucket(m, b)))
  }

  /** `Map.of(keys, values)`: a null array gives the empty map; otherwise the
      constructor fills a table of `values.length` slots. The source asserts
      that the arrays have the same length. */
  method Of<K, V>(keys: Option<seq<K>>, values: Option<seq<V>>, hash: K -> bv32) returns (m: HashMap<K, V>)
    requires keys.Some? && values.Some? ==> |keys.value| == |values.value| <= MaxLength
    ensures m.EmptyMap? <==> keys.None? || values.None?
    ensures m.Hashed? ==> m.keys == keys.value && m.values == values.value
    ensures m.Hashed? ==> forall k :: m.hash(k) == hash(k)
    ensures Bucketed(m)
  {
    if keys.None? || values.None? {
      return EmptyMap;
    }
    var n := |values.value|;
    var table := Build(values.value, Slots(keys.value, hash, n), n);
    m := Hashed(keys.value, values.value, table, hash);
  }

  /** `Hashed.hash(key)`: always a slot of the table. */
  function Hash<K, V>(m: HashMap<K, V>, key: K): (b: int)
    requires m.Hashed? && Shaped(m) && |m.table| >= 1
    ensures 0 <= b < |m.table|
  {
    Slot(m.hash(key), |m.table|)
  }

  /** `forKey(key, action)`: visits the chain of the key's slot, or nothing
      when the slot is null. A table of zero slots has mask -1, so every
      lookup indexes outside the array and throws. */
  function ForKey<K, V>(m: HashMap<K, V>, key: K): (r: Lists.Visit<V>)
    requires Shaped(m)
    ensures m.EmptyMap? ==> r == Lists.Done([])
    ensures m.Hashed? && |m.table| == 0 ==> !r.ok
  {
    match m
    case EmptyMap => Lists.Done([])
    case Hashed(_, _, table, _) =>
      if |table| == 0 then Lists.Fail() else Chain(table[Hash(m, key)])
  }

  /** `forKey` emits every value whose key shares the slot of `key`, in
      insertion order, whether or not that key equals `key`. */
  lemma ForKeyEmitsBucket<K, V>(m: HashMap<K, V>, key: K)
    requires Bucketed(m) && m.Hashed? && |m.table| >= 1
    ensures ForKey(m, key) == Lists.Done(Bucket(m, Hash(m, key)))
  {
  }

  /** A value is emitted by `forKey(key)` exactly when it is stored under some
      key in the same slot as `key`. */
  lemma ForKeyMembers<K, V>(m: HashMap<K, V>, key: K, x: V)
    requires Bucketed(m) && m.Hashed? && |m.table| >= 1
    ensures x in ForKey(m, key).trace <==>
              exists i :: 0 <= i < |m.keys| && Hash(m, m.keys[i]) == Hash(m, key) && m.values[i] == x
  {
    PickedMembers(m.values, KeySlots(m), Hash(m, key), |m.values|, x);
  }

  /** The value stored under a key is among what `forKey` emits for that key. */
  lemma ForKeyFindsStoredValue<K, V>(m: HashMap<K, V>, i: int)
    requires Bucketed(m) && m.Hashed?
    requires 0 <= i < |m.keys|
    ensures m.values[i] in ForKey(m, m.keys[i]).trace
  {
    ForKeyMembers(m, m.keys[i], m.values[i]);
  }

  /** After construction a slot is null exactly when no key falls in it. */
  lemma NullSlotIffUnused<K, V>(m: HashMap<K, V>, b: int)
    requires Bucketed(m) && m.Hashed?
    requires 0 <= b < |m.table|
    ensures m.table[b].None? <==> forall i :: 0 <= i < |m.keys| ==> Hash(m, m.keys[i]) != b
  {
    PickedEmpty(m.values, KeySlots(m), b, |m.values|);
    assert forall i :: 0 <= i < |m.keys| ==> KeySlots(m)[i] == Hash(m, m.keys[i]);
  }

  /** `forEach(action)`: every (key, value) pair once, in array order. */
  method ForEachEntry<K, V>(m: HashMap<K, V>) returns (visited: seq<(K, V)>)
    requires Shaped(m)
    ensures m.EmptyMap? ==> visited == []
    ensures m.Hashed? ==> |visited| == |m.keys|
    ensures m.Hashed? ==> forall i :: 0 <= i < |m.keys| ==> visited[i] == (m.keys[i], m.values[i])
  {
    visited := [];
    if m.EmptyMap? {
      return;
    }
    var i := 0;
    while i < |m.keys|
      invariant i <= |m.keys|
      invariant |visited| == i
      invariant forall j :: 0 <= j < i ==> visited[j] == (m.keys[j], m.values[j])
    {
      visited := visited + [(m.keys[i], m.values[i])];
      i := i + 1;
    }
  }

  /** `forEachKey(action)`: every key once, in array order. */
  method ForEachKey<K, V>(m: HashMap<K, V>) returns (visited: seq<K>)
    requires Shaped(m)
    ensures m.EmptyMap? ==> visited == []
    ensures m.Hashed? ==> visited == m.keys
  {
    visited := [];
    if m.EmptyMap? {
      return;
    }
    var i := 0;
    while i < |m.keys|
      invariant i <= |m.keys|
      invariant visited == m.keys[..i]
    {
      visited := visited + [m.keys[i]];
      i := i + 1;
    }
  }

  /** `forEachValue(action)`: every value once, in array order. */
  method ForEachValue<K, V>(m: HashMap<K, V>) returns (visited: seq<V>)
    requires Shaped(m)
    ensures m.EmptyMap? ==> visited == []
    ensures m.Hashed? ==> visited == m.values
  {
    visited := [];
    if m.EmptyMap? {
      return;
    }
    var i := 0;
    while i < |m.values|
      invariant i <= |m.values|
      invariant visited == m.values[..i]
    {
      visited := visited + [m.values[i]];
      i := i + 1;
    }
  }
}
