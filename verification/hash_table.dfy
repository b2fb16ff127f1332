/** The fixed bucket table shared by `Map.Hashed` and `Set.Hashed`: one slot
    per inserted entry, the slot of a hash code is `spread(h) & (n - 1)`, and
    each slot holds null or a collision chain grown with `List.of` and then
    `List.tailList`. */
module HashTable {
  import opened Wrappers
  import opened Lists

  /** The largest length of a Java array. */
  const MaxLength: int := 0x7fff_ffff

  /** `h ^ (h >>> 16)`: folds the high half of a 32-bit hash code into its low
      half. The high half passes through unchanged. */
  function Spread(h: bv32): (r: bv32)
    ensures r >> 16 == h >> 16
  {
    h ^ (h >> 16)
  }

  /** Bitwise and of two non-negative integers, bit by bit from the lowest. */
  function And(a: nat, b: nat): nat
    decreases b
  {
    if a == 0 || b == 0 then 0
    else 2 * And(a / 2, b / 2) + (if a % 2 == 1 && b % 2 == 1 then 1 else 0)
  }

  /** Masking never exceeds the mask. */
  lemma {:induction false} AndAtMostMask(a: nat, mask: nat)
    ensures And(a, mask) <= mask
    decreases mask
  {
    if a != 0 && mask != 0 {
      AndAtMostMask(a / 2, mask / 2);
    }
  }

  /** The slot of hash code `h` in a table of `n` slots: the spread code masked
      with `n - 1` (a non-negative mask, so the sign bit of the code never
      survives). The mask keeps the slot inside the table whatever the code. */
  function Slot(h: bv32, n: int): (b: int)
    requires 1 <= n <= MaxLength
    ensures 0 <= b < n
  {
    AndAtMostMask(Spread(h) as int, n - 1);
    And(Spread(h) as int, n - 1)
  }

  /** The mask is `n - 1`, not a power of two minus one, so a table whose
      length is not a power of two has slots no hash code reaches: with three
      slots the mask is binary 10 and slot 1 is never used. */
  lemma UnreachableSlot(h: bv32)
    ensures Slot(h, 3) != 1
  {
  }

  /** The slot of every key, in array order. */
  function Slots<K>(keys: seq<K>, hash: K -> bv32, n: int): (r: seq<int>)
    requires |keys| <= n <= MaxLength
    ensures |r| == |keys|
    ensures forall i :: 0 <= i < |keys| ==> 0 <= r[i] < n
  {
    seq(|keys|, i requires 0 <= i < |keys| => Slot(hash(keys[i]), n))
  }

  /** `items[i]` for every `i < upto` with `slots[i] == b`, in increasing `i`:
      what bucket `b` holds after the first `upto` insertions. */
  function Picked<V>(items: seq<V>, slots: seq<int>, b: int, upto: nat): seq<V>
    requires upto <= |items| == |slots|
    decreases upto
  {
    if upto == 0 then []
    else Picked(items, slots, b, upto - 1) + (if slots[upto - 1] == b then [items[upto - 1]] else [])
  }

  /** A bucket table: null (`None`) or a chain per slot. */
  type Table<!V> = seq<Option<List<V>>>

  /** The cell holds the chain `vs`: it is null exactly when `vs` is empty,
      and otherwise a list whose full traversal emits `vs`. */
  ghost predicate Holds<V>(cell: Option<List<V>>, vs: seq<V>) {
    match cell
    case None => vs == []
    case Some(chain) => vs != [] && Built(chain) && Run(chain, ForEach) == Done(vs)
  }

  /** The visit `forEach` makes of one cell: nothing for a null slot,
      otherwise the chain's full traversal. */
  function Chain<V>(cell: Option<List<V>>): Visit<V> {
    match cell
    case None => Done([])
    case Some(chain) => Run(chain, ForEach)
  }

  /** A cell that holds `vs` is visited as exactly `vs`, returning normally. */
  lemma HoldsChain<V>(cell: Option<List<V>>, vs: seq<V>)
    requires Holds(cell, vs)
    ensures Chain(cell) == Done(vs)
  {
  }

  /** The constructor loop of both hashed containers: the i-th item goes to
      slot `slots[i]`, seeding an empty slot with `List.of(item)` and growing a
      used one with `List.tailList(chain, item)`. */
  method Build<V>(items: seq<V>, slots: seq<int>, n: nat) returns (table: Table<V>)
    requires |items| == |slots|
    requires forall i :: 0 <= i < |slots| ==> 0 <= slots[i] < n
    ensures |table| == n
    ensures forall b :: 0 <= b < n ==> Holds(table[b], Picked(items, slots, b, |items|))
  {
    table := seq(n, _ => None);
    var i := 0;
    while i < |items|
      invariant i <= |items|
      invariant |table| == n
      invariant forall b :: 0 <= b < n ==> Holds(table[b], Picked(items, slots, b, i))
    {
      var b := slots[i];
      var cell := table[b];
      if cell.None? {
        table := table[b := Some(Of([items[i]]))];
      } else {
        table := table[b := Some(AppendTail(cell.value, items[i]).value)];
      }
      i := i + 1;
    }
  }

  /** A value is in bucket `b` exactly when some inserted item equal to it
      went to slot `b`. */
  lemma {:induction false} PickedMembers<V>(items: seq<V>, slots: seq<int>, b: int, upto: nat, x: V)
    requires upto <= |items| == |slots|
    ensures x in Picked(items, slots, b, upto) <==>
              exists i :: 0 <= i < upto && slots[i] == b && items[i] == x
    decreases upto
  {
    if upto > 0 {
      PickedMembers(items, slots, b, upto - 1, x);
      if slots[upto - 1] == b && items[upto - 1] == x {
        assert x in Picked(items, slots, b, upto);
      }
    }
  }

  /** Bucket `b` is empty exactly when no item went to slot `b`. */
  lemma {:induction false} PickedEmpty<V>(items: seq<V>, slots: seq<int>, b: int, upto: nat)
    requires upto <= |items| == |slots|
    ensures Picked(items, slots, b, upto) == [] <==>
              forall i :: 0 <= i < upto ==> slots[i] != b
    decreases upto
  {
    if upto > 0 {
      PickedEmpty(items, slots, b, upto - 1);
    }
  }

  /** The buckets `0 .. nb - 1` after `upto` insertions, concatenated in slot order. */
  function Gather<V>(items: seq<V>, slots: seq<int>, nb: nat, upto: nat): seq<V>
    requires upto <= |items| == |slots|
    decreases nb
  {
    if nb == 0 then []
    else Gather(items, slots, nb - 1, upto) + Picked(items, slots, nb - 1, upto)
  }

  /** An insertion into a slot outside the first `nb` leaves their join unchanged. */
  lemma {:induction false} GatherSkips<V>(items: seq<V>, slots: seq<int>, nb: nat, k: nat)
    requires k < |items| == |slots|
    requires !(0 <= slots[k] < nb)
    ensures Gather(items, slots, nb, k + 1) == Gather(items, slots, nb, k)
    decreases nb
  {
    if nb > 0 {
      GatherSkips(items, slots, nb - 1, k);
    }
  }

  /** An insertion into one of the first `nb` slots adds exactly its item to
      their join. */
  lemma {:induction false} GatherAdds<V>(items: seq<V>, slots: seq<int>, nb: nat, k: nat)
    requires k < |items| == |slots|
    requires 0 <= slots[k] < nb
    ensures multiset(Gather(items, slots, nb, k + 1)) ==
              multiset(Gather(items, slots, nb, k)) + multiset{items[k]}
    decreases nb
  {
    var b := nb - 1;
    var x := items[k];
    if slots[k] == b {
      GatherSkips(items, slots, b, k);
      assert Picked(items, slots, b, k + 1) == Picked(items, slots, b, k) + [x];
      var before := Gather(items, slots, nb, k);
      assert Gather(items, slots, nb, k + 1) == before + [x];
      assert multiset(before + [x]) == multiset(before) + multiset{x};
    } else {
      GatherAdds(items, slots, b, k);
      var p := Picked(items, slots, b, k);
      var g, g' := Gather(items, slots, b, k), Gather(items, slots, b, k + 1);
      assert Picked(items, slots, b, k + 1) == p;
      assert Gather(items, slots, nb, k) == g + p;
      assert Gather(items, slots, nb, k + 1) == g' + p;
      AppendAfterGrowth(g, g', p, x);
    }
  }

  /** Appending the same tail to a part that grew by one copy of `x` gives a
      join that grew by that copy. */
  lemma AppendAfterGrowth<V>(g: seq<V>, g': seq<V>, p: seq<V>, x: V)
    requires multiset(g') == multiset(g) + multiset{x}
    ensures multiset(g' + p) == multiset(g + p) + multiset{x}
  {
  }

  /** Before any insertion every bucket is empty. */
  lemma {:induction false} GatherNothing<V>(items: seq<V>, slots: seq<int>, nb: nat)
    requires |items| == |slots|
    ensures Gather(items, slots, nb, 0) == []
    decreases nb
  {
    if nb > 0 {
      GatherNothing(items, slots, nb - 1);
    }
  }

  /** When every slot lies inside the table, walking the buckets in slot order
      visits a permutation of the inserted items (duplicates kept). */
  lemma {:induction false} GatherIsPermutation<V>(items: seq<V>, slots: seq<int>, n: nat, k: nat)
    requires k <= |items| == |slots|
    requires forall i :: 0 <= i < |slots| ==> 0 <= slots[i] < n
    ensures multiset(Gather(items, slots, n, k)) == multiset(items[..k])
    decreases k
  {
    if k == 0 {
      GatherNothing(items, slots, n);
    } else {
      var j := k - 1;
      GatherIsPermutation(items, slots, n, j);
      GatherAdds(items, slots, n, j);
      assert j + 1 == k;
      assert items[..k] == items[..j] + [items[j]];
    }
  }
}
