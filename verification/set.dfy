/** `Set.java`: a set built from an array of values, with a bucket table of
    one slot per value whose chains hold the values themselves. Membership
    compares with `equals` only inside the value's own chain. */
module Sets {
  import opened Wrappers
  import Lists
  import opened HashTable

  /** `Set.Empty` and `Set.Hashed`. `hash` is the values' `hashCode`. */
  datatype HashSet<!T> =
    | EmptySet
    | Hashed(table: Table<T>, hash: T -> bv32)

  /** The slot of every inserted value, for a table of `|values|` slots. */
  function ValueSlots<T>(values: seq<T>, hash: T -> bv32): seq<int>
    requires |values| <= MaxLength
  {
    Slots(values, hash, |values|)
  }

  /** `s` is what the constructor builds from `values`: one slot per value,
      and every slot holds the values that fell in it, in array order. */
  ghost predicate BuiltFrom<T>(s: HashSet<T>, values: seq<T>) {
    && s.Hashed?
    && |s.table| == |values| <= MaxLength
    && forall b :: 0 <= b < |s.table| ==>
         Holds(s.table[b], Picked(values, ValueSlots(values, s.hash), b, |values|))
  }

  /** `Set.of(values...)`: always a hashed set, even for no values. */
  method Of<T>(values: seq<T>, hash: T -> bv32) returns (s: HashSet<T>)
    requires |values| <= MaxLength
    ensures BuiltFrom(s, values)
    ensures forall v :: s.hash(v) == hash(v)
  {
    var table := Build(values, ValueSlots(values, hash), |values|);
    s := Hashed(table, hash);
  }

  /** `Hashed.hash(value)`: always a slot of the table. */
  function Hash<T>(s: HashSet<T>, value: T): (b: int)
    requires s.Hashed? && 1 <= |s.table| <= MaxLength
    ensures 0 <= b < |s.table|
  {
    Slot(s.hash(value), |s.table|)
  }

  /** `contains(value, fn)`: the answers handed to `fn`. The empty set answers
      `false`; a null slot answers nothing at all; otherwise the slot's chain
      is searched with `equals` and one answer is given once the search
      returns. A table of zero slots has mask -1 and the lookup throws. */
  function Contains<T(==)>(s: HashSet<T>, value: T): (r: Lists.Visit<bool>)
    requires s.Hashed? ==> |s.table| <= MaxLength
    ensures s.EmptySet? ==> r == Lists.Done([false])
    ensures s.Hashed? && |s.table| == 0 ==> r == Lists.Fail()
    ensures |r.trace| <= 1
  {
    match s
    case EmptySet => Lists.Done([false])
    case Hashed(table, _) =>
      if |table| == 0 then Lists.Fail()
      else
        match table[Hash(s, value)]
        case None => Lists.Done([])
        case Some(chain) =>
          var search := Lists.Run(chain, Lists.ForEach);
          if search.ok then Lists.Done([value in search.trace]) else Lists.Fail()
  }

  /** What `contains` answers on a constructed set, stated by the inserted
      values alone: it throws when there are none, stays silent when no
      inserted value shares the slot of `v`, and otherwise answers whether `v`
      was inserted. */
  lemma ContainsAnswers<T>(s: HashSet<T>, values: seq<T>, v: T)
    requires BuiltFrom(s, values)
    ensures Contains(s, v) ==
              if |values| == 0 then Lists.Fail()
              else if forall i :: 0 <= i < |values| ==> Hash(s, values[i]) != Hash(s, v) then Lists.Done([])
              else Lists.Done([v in values])
  {
    if |values| > 0 {
      var slots := ValueSlots(values, s.hash);
      var b := Hash(s, v);
      assert forall i :: 0 <= i < |values| ==> slots[i] == Hash(s, values[i]);
      PickedEmpty(values, slots, b, |values|);
      PickedMembers(values, slots, b, |values|, v);
      if v in values {
        var i :| 0 <= i < |values| && values[i] == v;
        assert slots[i] == b;
      }
    }
  }

  /** Every inserted value is reported present. */
  lemma ContainsInserted<T>(s: HashSet<T>, values: seq<T>, i: int)
    requires BuiltFrom(s, values)
    requires 0 <= i < |values|
    ensures Contains(s, values[i]) == Lists.Done([true])
  {
    ContainsAnswers(s, values, values[i]);
  }

  /** A value that was not inserted is never reported present. */
  lemma ContainsNoFalsePositive<T>(s: HashSet<T>, values: seq<T>, v: T)
    requires BuiltFrom(s, values)
    requires v !in values
    ensures true !in Contains(s, v).trace
  {
    ContainsAnswers(s, values, v);
  }

  /** The visit of the first `upto` slots: each non-null slot's chain is
      traversed in slot order, and the walk stops at the first one that throws. */
  function Walk<T>(table: Table<T>, upto: nat): (r: Lists.Visit<T>)
    requires upto <= |table|
    ensures r.ok <==> forall b :: 0 <= b < upto ==> Chain(table[b]).ok
  {
    if upto == 0 then Lists.Done([])
    else
      Walk(table, upto - 1).Then(Chain(table[upto - 1]))
  }

  /** Every slot of `table` is visited as exactly its bucket. */
  ghost predicate VisitsBuckets<T>(table: Table<T>, items: seq<T>, slots: seq<int>)
    requires |items| == |slots|
  {
    forall b :: 0 <= b < |table| ==> Chain(table[b]) == Lists.Done(Picked(items, slots, b, |items|))
  }

  /** On a constructed set, every slot is visited as exactly its bucket. */
  lemma BucketsVisited<T>(s: HashSet<T>, values: seq<T>)
    requires BuiltFrom(s, values)
    ensures VisitsBuckets(s.table, values, ValueSlots(values, s.hash))
  {
    forall b | 0 <= b < |s.table|
      ensures Chain(s.table[b]) == Lists.Done(Picked(values, ValueSlots(values, s.hash), b, |values|))
    {
      HoldsChain(s.table[b], Picked(values, ValueSlots(values, s.hash), b, |values|));
    }
  }

  /** When every slot is visited as its bucket, walking the first `upto`
      slots returns normally and emits buckets `0 .. upto - 1` in slot order. */
  lemma {:induction false} WalkGathers<T>(table: Table<T>, items: seq<T>, slots: seq<int>, upto: nat)
    requires upto <= |table|
    requires |items| == |slots|
    requires VisitsBuckets(table, items, slots)
    ensures Walk(table, upto) == Lists.Done(Gather(items, slots, upto, |items|))
    decreases upto
  {
    if upto > 0 {
      var k := upto - 1;
      WalkGathers(table, items, slots, k);
      WalkStep(table, items, slots, k);
    }
  }

  /** One more slot visited as its bucket extends the walk by that bucket. */
  lemma WalkStep<T>(table: Table<T>, items: seq<T>, slots: seq<int>, k: nat)
    requires k < |table|
    requires |items| == |slots|
    requires Walk(table, k) == Lists.Done(Gather(items, slots, k, |items|))
    requires VisitsBuckets(table, items, slots)
    ensures Walk(table, k + 1) == Lists.Done(Gather(items, slots, k + 1, |items|))
  {
    assert Chain(table[k]) == Lists.Done(Picked(items, slots, k, |items|));
  }

  /** `forEach(action)`: the chains of the non-null slots, in slot order. On a
      constructed set this visits every inserted value exactly as often as it
      was inserted, grouped by slot. */
  method ForEach<T>(s: HashSet<T>, ghost values: seq<T>) returns (r: Lists.Visit<T>)
    ensures s.EmptySet? ==> r == Lists.Done([])
    ensures BuiltFrom(s, values) ==>
              r == Lists.Done(Gather(values, ValueSlots(values, s.hash), |values|, |values|))
    ensures BuiltFrom(s, values) ==> multiset(r.trace) == multiset(values)
  {
    r := Lists.Done([]);
    if s.EmptySet? {
      return;
    }
    var i := 0;
    while i < |s.table|
      invariant i <= |s.table|
      invariant r == Walk(s.table, i)
    {
      r := r.Then(Chain(s.table[i]));
      i := i + 1;
    }
    if BuiltFrom(s, values) {
      BucketsVisited(s, values);
      WalkGathers(s.table, values, ValueSlots(values, s.hash), |s.table|);
      GatherIsPermutation(values, ValueSlots(values, s.hash), |values|, |values|);
      assert values[..|values|] == values;
    }
  }
}
