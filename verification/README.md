# object-java collections in Dafny

This project models the collections of the `object.java.collections`
package, which offer no operation that changes them: the persistent sequence
family of `List.java`, and the two bucket tables `Map.java` and `Set.java`
built on top of it.

A `List` is never read directly: it is *visited* with `forEach(action)`,
`forEach(start, end, action)` or `forIndex(index, action)`, and every variant
answers by delegating an adjusted range or index to the list it wraps.

- `Lists.Run(list, op)` (file `list.dfy`) gives the meaning of each visit. It
  returns the trace of elements handed to the action, plus whether the call
  returned normally or threw `IndexOutOfBoundsException`. It dispatches to
  `RunEach`, `RunRange` and `RunIndex`, one per method of the protocol, each
  following the source branch for branch.
- The trace is kept on failure, because some variants emit elements before
  they throw.
- The sizes the constructors cache (`headSize`, `endIndex`, `lastIndex`) are
  fields. The predicate `Built` says each one equals the length of a full
  traversal of the wrapped list.
- Factories that traverse their argument return `Option`. `None` means the
  constructor's own traversal threw.
- The range rules are reproduced as written, including their irregularities:
  - the `(0, 1)` shortcut of a `TailList` returns the last element;
  - a linked list answers only ranges that start at 0;
  - a pushed stack's range emits everything from `start` down to the bottom.

  The lemmas in `list_laws.dfy` state each rule against the full traversal.

`Map` and `Set` (files `map.dfy`, `set.dfy`) share the table logic of
`hash_table.dfy`:

- The table has one slot per entry.
- The slot of a hash code is `(h ^ (h >>> 16)) & (n - 1)`, computed on 32 bits.
- Each slot is null or a chain grown with `List.of` and then `List.tailList`.
- `hashCode` is a parameter of the model (`hash: K -> bv32`).
- Key and value equality is Dafny equality.

## Model

| member | source | states |
|---|---|---|
| Lists.Run | lib/src/main/java/object/java/collections/List.java:13-17 | definition: dispatches each of the three visits to `RunEach`, `RunRange` or `RunIndex`; its laws are `ListLaws.ForIndexAgrees`, `ListLaws.OutOfRangeFails`, `ListLaws.FullRangeAgrees` and `ListLaws.EmptyRangeFails` |
| Lists.RunEach | lib/src/main/java/object/java/collections/List.java:87-443 | definition, branch for branch, of every variant's `forEach`; its laws are `ListLaws.FullRangeAgrees` and `ListLaws.ForIndexAgrees` |
| Lists.RunRange | lib/src/main/java/object/java/collections/List.java:96-449 | definition, branch for branch, of every variant's `forEach(start, end)`; its laws are `ListLaws.OutOfRangeFails`, `ListLaws.EmptyRangeFails` and the per-variant range lemmas |
| Lists.RunIndex | lib/src/main/java/object/java/collections/List.java:105-455 | every variant's `forIndex` hands at most one element to the action; which one is stated by `ListLaws.ForIndexAgrees` |
| Lists.MapVisit | lib/src/main/java/object/java/collections/List.java:281-292 | the action wrapper of `Mapped` emits as many elements as the wrapped visit, with the same outcome |
| Lists.Built | lib/src/main/java/object/java/collections/List.java:121-125 | definition: every cached size (`headSize` here, `endIndex` at lines 224-228, `lastIndex` at lines 361-364) equals the length of a full traversal of the wrapped list, which the factories establish |
| Lists.Of | lib/src/main/java/object/java/collections/List.java:26-30 | `of` gives `Empty` exactly for a zero-length array; the result's `forEach` emits the array in order and returns normally |
| Lists.AppendTail | lib/src/main/java/object/java/collections/List.java:115-137 | `tailList`/`enqueue` throws exactly when traversing the head throws; otherwise the cached size is right and `forEach` emits the head's elements, then the tail |
| Lists.Push | lib/src/main/java/object/java/collections/List.java:219-240 | `push` throws exactly when traversing the stack throws; otherwise the cached end index is right and `forEach` emits the pushed value, then the stack |
| Lists.Pop | lib/src/main/java/object/java/collections/List.java:356-364 | `pop` throws exactly when traversing the stack throws; otherwise it builds a `Popped` view with a correct cached last index |
| Lists.LinkedList | lib/src/main/java/object/java/collections/List.java:45-52 | `linkedList(vs)` is a well-formed `TailList` chain whose `forEach` emits `vs` in order |
| Lists.Repeat | lib/src/main/java/object/java/collections/List.java:296-312 | `repeated(n, v)` is well formed and its `forEach` emits exactly `n` copies of `v` |
| Lists.Expand | lib/src/main/java/object/java/collections/List.java:330-334 | the concatenated traversals of `fn(e)` exist exactly when every one of them returns normally |
| Lists.FlatMap | lib/src/main/java/object/java/collections/List.java:327-342 | `flatMapped` succeeds exactly when the source and every `fn(e)` traverse normally; its `forEach` emits the concatenation of the `fn(e)` traces in source order |
| ListLaws.ForIndexAgrees | lib/src/main/java/object/java/collections/List.java:155-162 | on every well-formed list of every variant, `forIndex(i)` emits exactly the i-th element of `forEach` when `0 <= i < size`, and otherwise throws with nothing emitted |
| ListLaws.OutOfRangeFails | lib/src/main/java/object/java/collections/List.java:413-425 | on every well-formed list, a range outside `0 <= start < end <= size` never returns normally |
| ListLaws.FullRangeAgrees | lib/src/main/java/object/java/collections/List.java:139-153 | on every well-formed non-empty list, the range `(0, size)` emits the same elements with the same outcome as `forEach` |
| ListLaws.OfVisits | lib/src/main/java/object/java/collections/List.java:413-431 | an array list emits exactly `values[start..end)` for `0 <= start < end <= length` and `values[i]` for an index in bounds; `Empty` and every other range or index throw with nothing emitted |
| ListLaws.TailListRange | lib/src/main/java/object/java/collections/List.java:140-153 | the four range cases of `TailList` hold with the cached size replaced by the head's traversal length |
| ListLaws.TailOfRange | lib/src/main/java/object/java/collections/List.java:139-153 | exact range behaviour of `tailList(of(vs), x)` where `vs` has `n` elements: `(0, 1)` emits `x`; a range with `0 <= start < n` and `start < end <= n + 1` emits that slice of `vs` followed by `x`; every other range, including `(n, n + 1)`, throws with nothing emitted (the scenarios of lib/src/test/java/object/java/collections/ListTest.java, lines 37 to 52) |
| ListLaws.TailListShortcutIsNotFirst | lib/src/main/java/object/java/collections/List.java:141-142 | `(0, 1)` emits the tail even when the element at index 0 is different |
| ListLaws.EmptyRangeFails | lib/src/main/java/object/java/collections/List.java:413-420 | on every list, built or not, a range whose start is not below its end throws |
| ListLaws.TailOnlyRangeFails | lib/src/main/java/object/java/collections/List.java:145-146 | on every `TailList` whose cached head size `n` is at least 1, built or not, the range `(n, n + 1)` covering only the appended element throws, because the head is asked for the empty range `(n, n)` |
| ListLaws.LinkedListRange | lib/src/main/java/object/java/collections/List.java:45-52 | exact range behaviour of `linkedList(vs)`: `(0, 1)` emits the last value, `(0, e)` with `e >= 2` emits the first `e` values, every other range throws with nothing emitted |
| ListLaws.PushRange | lib/src/main/java/object/java/collections/List.java:243-257 | the range cases of `Cons` hold with the cached end index replaced by the stack's traversal length; with `start == 0` the pushed value is emitted before the stack's range runs |
| Lists.Stack | lib/src/main/java/object/java/collections/List.java:63-65 | repeated `push` from `empty` builds a well-formed stack whose `forEach` emits the values top first |
| ListLaws.StackRange | lib/src/main/java/object/java/collections/List.java:245-256 | exact range behaviour of a pushed stack: with a valid start and `end <= size` it emits everything from `start` to the bottom and returns normally only if `end == size`; otherwise it throws with nothing emitted |
| ListLaws.PopView | lib/src/main/java/object/java/collections/List.java:372-393 | `pop`'s `forEach`, range `(0, 1)` and `forIndex(0)` emit exactly the stack's last element; every other range or index, and every visit of a popped empty stack, throws |
| ListLaws.DequeueView | lib/src/main/java/object/java/collections/List.java:87-112 | `dequeue`'s three visits emit exactly the queue's first element; `forEach` of an empty queue emits nothing and returns normally; every other range or index throws |
| ListLaws.MappedVisit | lib/src/main/java/object/java/collections/List.java:279-293 | every visit of `mapped(fn, base)` emits `fn` of each element the same visit of `base` emits, with the same outcome |
| ListLaws.MappedIndex | lib/src/main/java/object/java/collections/List.java:290-293 | on a well-formed base, `mapped(fn, base).forIndex(i)` emits exactly `fn` of the i-th element of the base's `forEach` when `0 <= i < size`, and otherwise throws with nothing emitted |
| ListLaws.RepeatVisits | lib/src/main/java/object/java/collections/List.java:314-323 | `repeated(n, v)` answers every range and index like an array of `n` copies; with `n == 0` every visit behaves as on `Empty` |
| ListLaws.FlatMapRange | lib/src/main/java/object/java/collections/List.java:344-348 | ranges over a flat-mapped list follow the linked-list range rules over the concatenated elements |
| ListLaws.ExpandCopies | lib/src/main/java/object/java/collections/List.java:330-334 | expanding 1, 2, 3 with `i -> repeated(i, i)` concatenates the traversals in order: 1, 2, 2, 3, 3, 3 |
| ListLaws.FlatMapRepeatExample | lib/src/test/java/object/java/collections/ListTest.java:132-142 | `flatMapped(i -> repeated(i, i), linkedList(1, 2, 3))` emits 1, 2, 2, 3, 3, 3, and its range `(0, 4)` emits 1, 2, 2, 3 |
| ListLaws.PushPopExample | lib/src/test/java/object/java/collections/ListTest.java:55-81 | `pop(push(1, push(2, push(3, empty))))` emits 3 from `forEach`, `(0, 1)` and `forIndex(0)`, and throws for `forIndex(1)` and `(0, 2)` |
| ListLaws.EnqueueDequeueExample | lib/src/test/java/object/java/collections/ListTest.java:95-115 | `dequeue(enqueue(enqueue(empty, 1), 2))` emits 1 from its three visits and throws for `(0, 2)` and `forIndex(2)` |
| ListLaws.TailListExamples | lib/src/test/java/object/java/collections/ListTest.java:15-53 | the outcomes of the `tailList` scenarios: `(0, 2)` on a singleton throws, `(0, 1)` emits the tail, `(0, 3)`, `(1, 3)` and `(0, 2)` emit the expected prefixes and suffixes, and `forIndex` finds the first and last values |
| ListLaws.PushRangeExamples | lib/src/test/java/object/java/collections/ListTest.java:71-73 | `push(1, linkedList(2, 3)).forEach(0, 2)` emits 1 and then 3 (the base's `(0, 1)` shortcut), and a pushed stack's `(0, 1)` emits the whole stack and then throws |
| HashTable.Spread | lib/src/main/java/object/java/collections/Map.java:54 | `h ^ (h >>> 16)` leaves the high 16 bits of the hash code unchanged |
| HashTable.AndAtMostMask | lib/src/main/java/object/java/collections/Map.java:55 | masking a non-negative code never exceeds the mask |
| HashTable.Slot | lib/src/main/java/object/java/collections/Map.java:53-56 | for a table of `n >= 1` slots, the spread-and-masked slot of any 32-bit hash code lies in `[0, n)` |
| HashTable.UnreachableSlot | lib/src/main/java/object/java/collections/Set.java:38-41 | with a mask of `n - 1` and `n` not a power of two some slots are unreachable: with three slots no code lands in slot 1 |
| HashTable.Slots | lib/src/main/java/object/java/collections/Set.java:27-28 | the slot of every inserted key lies inside the table |
| HashTable.Build | lib/src/main/java/object/java/collections/Map.java:40-50 | after the constructor loop, slot `b` is null exactly when no item went to `b`, and otherwise holds a chain whose `forEach` emits those items in insertion order |
| HashTable.PickedMembers | lib/src/main/java/object/java/collections/Map.java:42-50 | a value is in bucket `b` exactly when some inserted item equal to it went to slot `b` |
| HashTable.PickedEmpty | lib/src/main/java/object/java/collections/Map.java:44-47 | bucket `b` is empty exactly when no inserted item went to slot `b` |
| HashTable.GatherSkips | lib/src/main/java/object/java/collections/Set.java:25-36 | inserting an item into a slot outside the first `nb` leaves the join of those buckets unchanged |
| HashTable.GatherAdds | lib/src/main/java/object/java/collections/Set.java:25-36 | inserting an item into one of the first `nb` slots adds exactly that item to the join of those buckets |
| HashTable.GatherIsPermutation | lib/src/main/java/object/java/collections/Set.java:25-36 | walking the buckets in slot order yields a permutation of the inserted items, duplicates kept |
| Maps.Of | lib/src/main/java/object/java/collections/Map.java:21-51 | a null key or value array gives the empty map; otherwise the map keeps both arrays and the hash, and every slot holds its bucket |
| Maps.Hash | lib/src/main/java/object/java/collections/Map.java:53-56 | a key's slot always lies inside a table of `n >= 1` slots |
| Maps.ForKey | lib/src/main/java/object/java/collections/Map.java:67-71 | the empty map emits nothing for any key; a map built from empty arrays throws on every lookup |
| Maps.ForKeyEmitsBucket | lib/src/main/java/object/java/collections/Map.java:67-71 | `forKey(k)` emits exactly the values whose keys share `k`'s slot, in insertion order, equal keys or not, and returns normally |
| Maps.ForKeyMembers | lib/src/main/java/object/java/collections/Map.java:42-71 | a value is emitted by `forKey(k)` exactly when it is stored under some key in `k`'s slot |
| Maps.ForKeyFindsStoredValue | lib/src/main/java/object/java/collections/Map.java:42-71 | `values[i]` is among what `forKey(keys[i])` emits |
| Maps.NullSlotIffUnused | lib/src/main/java/object/java/collections/Map.java:42-50 | after construction a slot is null exactly when no key hashes to it |
| Maps.ForEachEntry | lib/src/main/java/object/java/collections/Map.java:60-64 | `forEach` visits each `(keys[i], values[i])` once, in array order; the empty map visits nothing |
| Maps.ForEachKey | lib/src/main/java/object/java/collections/Map.java:74-78 | `forEachKey` visits exactly the key array in order; the empty map visits nothing |
| Maps.ForEachValue | lib/src/main/java/object/java/collections/Map.java:81-85 | `forEachValue` visits exactly the value array in order; the empty map visits nothing |
| Sets.Of | lib/src/main/java/object/java/collections/Set.java:17-36 | `Set.of(values)` is always a hashed set, even for no values, and every slot holds the values that fell in it, in array order |
| Sets.Hash | lib/src/main/java/object/java/collections/Set.java:38-41 | a value's slot always lies inside a table of `n >= 1` slots |
| Sets.Contains | lib/src/main/java/object/java/collections/Set.java:45-56 | the empty set answers `false` exactly once; a hashed set with no slots throws from the table lookup with nothing answered; any set answers at most once |
| Sets.ContainsAnswers | lib/src/main/java/object/java/collections/Set.java:45-56 | on a constructed set, `contains(v)` throws when no values were inserted, answers nothing when no inserted value shares `v`'s slot, and otherwise answers once whether `v` was inserted |
| Sets.ContainsInserted | lib/src/main/java/object/java/collections/Set.java:45-56 | every inserted value is answered `true`, exactly once |
| Sets.ContainsNoFalsePositive | lib/src/main/java/object/java/collections/Set.java:50-54 | a value never inserted is never answered `true`, even when it shares a slot with inserted values |
| Sets.Walk | lib/src/main/java/object/java/collections/Set.java:60-66 | the walk over the first slots returns normally exactly when every chain among them does |
| Sets.ForEach | lib/src/main/java/object/java/collections/Set.java:60-66 | `forEach` emits the buckets in slot order, insertion order within a bucket, which is a permutation of the inserted values; the empty set emits nothing |

## Left out

- `Par` (`List.java:165-215`): its behaviour is `ExecutorService` concurrency with a nondeterministic order of actions.
- Exceptions thrown by the caller's actions or by the functions given to `mapped`/`flatMapped`: they are not modelled. Every action is a pure recorder of the trace.
- 32-bit integer arithmetic in `List`: `end - 1`, `start - 1` and `index - 1` wrap at `Integer.MIN_VALUE`, and the size counters wrap past `2^31 - 1`. Integers here are unbounded, so these cases are out of scope.
- Type-changing `mapped` and `flatMapped` (`T` to `R`) are modelled with a single element type: `T -> T` and `T -> List<T>`.
- The unchecked `List<Void> EMPTY` cast: `Empty` is generic in the model.
- `hashCode`: a parameter, not a computation.
- `equals`: Dafny equality, which makes `contains` symmetric and side-effect free.
- `null` inputs:
  - `List.of(null)` is modelled as `List.of()`, which the source also maps to `Empty`.
  - `Set.of(null)` is left out: the null array throws `NullPointerException` from `new List[values.length]` (`Set.java:26`) before any hash is computed.
  - Null elements or keys are left out: `hashCode` on them throws `NullPointerException` (`Map.java:54`, `Set.java:39`).
- `repeated` with negative `n`: Java throws `NegativeArraySizeException`, and the model takes `n` as a `nat`.
- `enqueue` is the same constructor as `tailList`, so `Lists.AppendTail` models both.
- `dequeue` and `mapped` are plain constructor calls, so the datatype constructors `Dequeued` and `Mapped` stand for them.
- Maps.Of: requires equal key and value array lengths, which the source only `assert`s. With assertions disabled, a longer key array would throw from `values[i]`, or from `table[hash]` (`Map.java:44`) when the value array is empty and the table has no slots, and a shorter one would leave values out of every bucket.
- Lists.Expand: its contract states only when it succeeds. The concatenation it returns is its definition; `ListLaws.ExpandCopies` states it for the unit-test scenario.
- Lists.Pop: its contract states only the cached index. What the popped view emits is stated by `ListLaws.PopView`.
- Maps.ForKey: its own contract covers only the empty map, which emits nothing, and the zero-slot table, which throws. Lookups on constructed maps are stated by `Maps.ForKeyEmitsBucket`.
- Sets.Contains: its own contract covers only the empty set's single `false`, the zero-slot table's throw (`Set.java:47`) and "at most one answer". Lookups on constructed sets are stated by `Sets.ContainsAnswers`.
- Array aliasing: `List.of` keeps the caller's array (`List.java:29`, `401-402`) and `Map.of` keeps `keys` and `values` (`Map.java:38-39`). The model takes a snapshot of each array when the collection is built. A later write by the caller to such an array is out of scope: in Java it changes what `List.of`'s visits and `Map`'s `forEach`, `forEachKey` and `forEachValue` emit, while the chains `forKey` reads were copied at construction (`Map.java:46-48`), so the two views can disagree.
- Arrays longer than `2^31 - 1` cannot exist in Java. The hashed containers therefore require at most `MaxLength` entries.
