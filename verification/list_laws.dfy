/** Laws of the sequence family: what each visit emits, stated against the
    full traversal, for every variant and for the chains the factories build. */
module ListLaws {
  import opened Wrappers
  import opened Lists

  // ---------------------------------------------------------------------
  // Laws that hold for every constructed list
  // ---------------------------------------------------------------------

  /** `forIndex(i)` emits exactly the i-th element of the full traversal when
      `0 <= i < size`, and otherwise throws having emitted nothing. */
  lemma {:induction false} ForIndexAgrees<T>(l: List<T>, i: int)
    requires Built(l)
    ensures Run(l, ForIndex(i)) ==
              if 0 <= i < Size(l) then Done([Elements(l)[i]]) else Fail()
    decreases l
  {
    match l
    case Empty =>
    case NonEmpty(_) =>
    case TailList(head, _, _) =>
      ForIndexAgrees(head, i);
    case Cons(_, list, _) =>
      if i != 0 {
        ForIndexAgrees(list, i - 1);
      }
    case Popped(stack, lastIndex) =>
      ForIndexAgrees(stack, lastIndex);
    case Dequeued(queue) =>
      ForIndexAgrees(queue, 0);
    case Mapped(base, _) =>
      ForIndexAgrees(base, i);
    case Repeated(copies) =>
      ForIndexAgrees(copies, i);
    case FlatMapped(flat) =>
      ForIndexAgrees(flat, i);
  }

  /** A range outside `0 <= start < end <= size` never returns normally
      (although some variants emit elements before they throw). */
  lemma {:induction false} OutOfRangeFails<T>(l: List<T>, s: int, e: int)
    requires Built(l)
    requires !(0 <= s < e <= Size(l))
    ensures !Run(l, ForRange(s, e)).ok
    decreases l
  {
    match l
    case Empty =>
    case NonEmpty(_) =>
    case TailList(head, _, headSize) =>
      if e == headSize + 1 {
        OutOfRangeFails(head, s, e - 1);
      } else if e < headSize + 1 {
        OutOfRangeFails(head, s, e);
      }
    case Cons(_, list, endIndex) =>
      if e <= endIndex + 2 && !(endIndex == -1 && e == 1 && s == 0) {
        if s == 0 {
          OutOfRangeFails(list, 0, e - 1);
        } else {
          OutOfRangeFails(list, s - 1, e - 1);
        }
      }
    case Popped(stack, lastIndex) =>
      ForIndexAgrees(stack, lastIndex);
    case Dequeued(queue) =>
      ForIndexAgrees(queue, 0);
    case Mapped(base, _) =>
      OutOfRangeFails(base, s, e);
    case Repeated(copies) =>
      OutOfRangeFails(copies, s, e);
    case FlatMapped(flat) =>
      OutOfRangeFails(flat, s, e);
  }

  /** Visiting the whole index range `[0, size)` emits the same elements, with
      the same outcome, as the unranged traversal. */
  lemma {:induction false} FullRangeAgrees<T>(l: List<T>)
    requires Built(l)
    requires Size(l) >= 1
    ensures Run(l, ForRange(0, Size(l))) == Run(l, ForEach)
    decreases l
  {
    match l
    case Empty =>
    case NonEmpty(_) =>
    case TailList(head, _, headSize) =>
      if headSize >= 1 {
        FullRangeAgrees(head);
      }
    case Cons(_, list, endIndex) =>
      if endIndex != -1 {
        FullRangeAgrees(list);
      }
    case Popped(stack, lastIndex) =>
      ForIndexAgrees(stack, lastIndex);
    case Dequeued(queue) =>
      ForIndexAgrees(queue, 0);
    case Mapped(base, _) =>
      FullRangeAgrees(base);
    case Repeated(copies) =>
      FullRangeAgrees(copies);
    case FlatMapped(flat) =>
      FullRangeAgrees(flat);
  }

  // ---------------------------------------------------------------------
  // Terminal variants
  // ---------------------------------------------------------------------

  /** `Empty` emits nothing and rejects every range and index; an array list
      answers exactly the ranges and indices inside its bounds. */
  lemma OfVisits<T>(values: seq<T>, s: int, e: int, i: int)
    ensures Run(Of(values), ForRange(s, e)) ==
              if 0 <= s < e <= |values| then Done(values[s..e]) else Fail()
    ensures Run(Of(values), ForIndex(i)) ==
              if 0 <= i < |values| then Done([values[i]]) else Fail()
  {
  }

  // ---------------------------------------------------------------------
  // Growth variants
  // ---------------------------------------------------------------------

  /** The range rules of `TailList`, with the cached head size replaced by the
      length of the head's traversal. */
  lemma TailListRange<T>(head: List<T>, tail: T, s: int, e: int)
    requires Built(head) && Run(head, ForEach).ok
    ensures var l := AppendTail(head, tail).value;
      && (s == 0 && e == 1 ==> Run(l, ForRange(s, e)) == Done([tail]))
      && (e > Size(head) + 1 ==> Run(l, ForRange(s, e)) == Fail())
      && (e == Size(head) + 1 && !(s == 0 && e == 1) ==>
            Run(l, ForRange(s, e)) == Run(head, ForRange(s, e - 1)).Then(Done([tail])))
      && (e <= Size(head) && !(s == 0 && e == 1) ==>
            Run(l, ForRange(s, e)) == Run(head, ForRange(s, e)))
  {
    AppendTailShape(head, tail);
  }

  /** The exact range behaviour of `tailList(of(vs), x)`: `(0, 1)` emits `x`;
      every other range with `0 <= start < |vs|` and `start < end <= |vs| + 1`
      emits that slice of `vs` followed by `x`; every other range throws with
      nothing emitted, including `(|vs|, |vs| + 1)`, the range of `x` alone. */
  lemma TailOfRange<T>(vs: seq<T>, x: T, s: int, e: int)
    ensures Run(AppendTail(Of(vs), x).value, ForRange(s, e)) ==
              if s == 0 && e == 1 then Done([x])
              else if 0 <= s < |vs| && s < e <= |vs| + 1 then Done((vs + [x])[s..e])
              else Fail()
  {
    AppendTailShape(Of(vs), x);
    TailOfRangeStep(vs, x, s, e);
  }

  /** `TailOfRange` on the `TailList` value itself. */
  lemma TailOfRangeStep<T>(vs: seq<T>, x: T, s: int, e: int)
    ensures RunRange(TailList(Of(vs), x, |vs|), s, e) ==
              if s == 0 && e == 1 then Done([x])
              else if 0 <= s < |vs| && s < e <= |vs| + 1 then Done((vs + [x])[s..e])
              else Fail()
  {
    var n := |vs|;
    var l := TailList(Of(vs), x, n);
    if s == 0 && e == 1 {
    } else if e > n + 1 {
    } else if e == n + 1 {
      assert RunRange(l, s, e) == RunRange(Of(vs), s, n).Then(Done([x]));
      if n >= 1 && 0 <= s < n {
        assert RunRange(Of(vs), s, n) == Done(vs[s..n]);
        assert (vs + [x])[s..e] == vs[s..n] + [x];
      } else {
        assert !RunRange(Of(vs), s, n).ok;
      }
    } else {
      assert RunRange(l, s, e) == RunRange(Of(vs), s, e);
      if 0 <= s < e {
        assert (vs + [x])[s..e] == vs[s..e];
      }
    }
  }

  /** The singleton shortcut answers `(0, 1)` with the tail, which is not the
      element at index 0 once the head is non-empty. */
  lemma TailListShortcutIsNotFirst<T>(head: List<T>, tail: T)
    requires Built(head) && Run(head, ForEach).ok
    requires Size(head) >= 1 && Elements(head)[0] != tail
    ensures var l := AppendTail(head, tail).value;
      Run(l, ForRange(0, 1)) == Done([tail]) &&
      Run(l, ForRange(0, 1)) != Done([Elements(l)[0]])
  {
  }

  /** A range covering only the appended element fails, because the head is
      then asked for the empty range `(n, n)`. This holds on every `TailList`
      whose cached head size `n` is at least 1, built or not; `tailList` builds
      one from every non-empty head (`AppendTailShape`). */
  lemma TailOnlyRangeFails<T>(head: List<T>, tail: T, n: int)
    requires n >= 1
    ensures !Run(TailList(head, tail, n), ForRange(n, n + 1)).ok
  {
    EmptyRangeFails(head, n, n);
  }

  /** `tailList` caches the size of its head. */
  lemma AppendTailShape<T>(head: List<T>, tail: T)
    requires Built(head) && Run(head, ForEach).ok
    ensures AppendTail(head, tail).value == TailList(head, tail, Size(head))
  {
  }

  /** A range that does not start below its end throws on every list, built
      or not. */
  lemma {:induction false} EmptyRangeFails<T>(l: List<T>, s: int, e: int)
    requires s >= e
    ensures !RunRange(l, s, e).ok
    decreases l
  {
    match l
    case Empty =>
    case NonEmpty(_) =>
    case TailList(head, _, headSize) =>
      if e == headSize + 1 {
        EmptyRangeFails(head, s, e - 1);
      } else if e < headSize + 1 {
        EmptyRangeFails(head, s, e);
      }
    case Cons(_, list, endIndex) =>
      if e <= endIndex + 2 {
        if s == 0 {
          EmptyRangeFails(list, s, e - 1);
        } else {
          EmptyRangeFails(list, s - 1, e - 1);
        }
      }
    case Popped(_, _) =>
    case Dequeued(_) =>
    case Mapped(base, _) => EmptyRangeFails(base, s, e);
    case Repeated(copies) => EmptyRangeFails(copies, s, e);
    case FlatMapped(flat) => EmptyRangeFails(flat, s, e);
  }

  /** The range rule of a `TailList` chain built from `values`: `(0, 1)`
      emits the LAST value, other ranges from 0 emit the prefix, and every
      range that does not start at 0 throws with nothing emitted. */
  function LinkedRange<T>(values: seq<T>, s: int, e: int): Visit<T> {
    if |values| >= 1 && s == 0 && e == 1 then Done([values[|values| - 1]])
    else if s == 0 && 2 <= e <= |values| then Done(values[..e])
    else Fail()
  }

  /** The exact range behaviour of `List.linkedList(values)`. */
  lemma {:induction false} LinkedListRange<T>(values: seq<T>, s: int, e: int)
    ensures Run(LinkedList(values), ForRange(s, e)) == LinkedRange(values, s, e)
    decreases |values|
  {
    var n := |values|;
    if n >= 1 {
      var prefix, last := values[..n - 1], values[n - 1];
      LinkedListShape(values);
      assert values == prefix + [last];
      if s == 0 && e == 1 {
      } else if e == n {
        LinkedListRange(prefix, s, n - 1);
        TailRangeAtEnd(LinkedList(prefix), prefix, last, s);
      } else if e < n {
        LinkedListRange(prefix, s, e);
        TailRangeInside(LinkedList(prefix), prefix, last, s, e);
      }
    }
  }

  /** A non-empty linked list is its prefix's list with the last value
      appended, caching the prefix length. */
  lemma LinkedListShape<T>(values: seq<T>)
    requires |values| >= 1
    ensures LinkedList(values) ==
              TailList(LinkedList(values[..|values| - 1]), values[|values| - 1], |values| - 1)
  {
  }

  /** The step of `LinkedListRange` for a range ending at the appended value:
      the range of the head is followed by that value. */
  lemma TailRangeAtEnd<T>(head: List<T>, prefix: seq<T>, last: T, s: int)
    requires !(s == 0 && |prefix| == 0)
    requires RunRange(head, s, |prefix|) == LinkedRange(prefix, s, |prefix|)
    ensures RunRange(TailList(head, last, |prefix|), s, |prefix| + 1) ==
              LinkedRange(prefix + [last], s, |prefix| + 1)
  {
  }

  /** The step of `LinkedListRange` for a range ending before the appended
      value: the head answers it alone. */
  lemma TailRangeInside<T>(head: List<T>, prefix: seq<T>, last: T, s: int, e: int)
    requires e <= |prefix| && !(s == 0 && e == 1)
    requires RunRange(head, s, e) == LinkedRange(prefix, s, e)
    ensures RunRange(TailList(head, last, |prefix|), s, e) == LinkedRange(prefix + [last], s, e)
  {
  }

  /** The range rules of `Cons`, with the cached end index replaced by the
      length of the stack's traversal. */
  lemma PushRange<T>(value: T, stack: List<T>, s: int, e: int)
    requires Built(stack) && Run(stack, ForEach).ok
    ensures var c := Push(value, stack).value;
      && (e > Size(stack) + 1 ==> Run(c, ForRange(s, e)) == Fail())
      && (Size(stack) == 0 && s == 0 && e == 1 ==> Run(c, ForRange(s, e)) == Done([value]))
      && (e <= Size(stack) + 1 && s == 0 && !(Size(stack) == 0 && e == 1) ==>
            Run(c, ForRange(s, e)) == Done([value]).Then(Run(stack, ForRange(0, e - 1))))
      && (e <= Size(stack) + 1 && s != 0 ==>
            Run(c, ForRange(s, e)) == Run(stack, ForRange(s - 1, e - 1)))
  {
  }

  /** The range rule of a pushed stack of `values`: a range with a valid start
      emits everything from `start` to the bottom, and returns normally only
      when `end` is the size; any other range fails with nothing emitted. */
  function StackRanges<T>(values: seq<T>, s: int, e: int): Visit<T> {
    if s < 0 || s >= |values| || e > |values| then Fail()
    else Visit(values[s..], e == |values|)
  }

  /** The exact range behaviour of a pushed stack. */
  lemma {:induction false} StackRange<T>(values: seq<T>, s: int, e: int)
    ensures Run(Stack(values), ForRange(s, e)) == StackRanges(values, s, e)
    decreases |values|
  {
    if |values| >= 1 {
      StackShape(values);
      if s == 0 {
        StackRange(values[1..], 0, e - 1);
        ConsRangeFromTop(values, Stack(values[1..]), e);
      } else {
        StackRange(values[1..], s - 1, e - 1);
        ConsRangeBelowTop(values, Stack(values[1..]), s, e);
      }
    }
  }

  /** A non-empty stack is its rest with the top pushed on, caching the last
      index of the rest. */
  lemma StackShape<T>(values: seq<T>)
    requires |values| >= 1
    ensures Stack(values) == Cons(values[0], Stack(values[1..]), |values| - 2)
  {
  }

  /** The step of `StackRange` for a range from the top: the top is emitted,
      then the rest's range from 0 runs. */
  lemma ConsRangeFromTop<T>(values: seq<T>, list: List<T>, e: int)
    requires |values| >= 1
    requires RunRange(list, 0, e - 1) == StackRanges(values[1..], 0, e - 1)
    ensures RunRange(Cons(values[0], list, |values| - 2), 0, e) == StackRanges(values, 0, e)
  {
    assert values[0..] == [values[0]] + values[1..];
  }

  /** The step of `StackRange` for a range starting below the top: the rest
      answers the range shifted down by one. */
  lemma ConsRangeBelowTop<T>(values: seq<T>, list: List<T>, s: int, e: int)
    requires |values| >= 1 && s != 0
    requires RunRange(list, s - 1, e - 1) == StackRanges(values[1..], s - 1, e - 1)
    ensures RunRange(Cons(values[0], list, |values| - 2), s, e) == StackRanges(values, s, e)
  {
    if 1 <= s < |values| {
      assert values[1..][s - 1..] == values[s..];
    }
  }

  // ---------------------------------------------------------------------
  // View variants
  // ---------------------------------------------------------------------

  /** `List.pop(stack)` is a one-element view of the stack's LAST element:
      `forEach`, `forEach(0, 1)` and `forIndex(0)` emit it, everything else
      throws; over an empty stack even `forEach` throws. */
  lemma PopView<T>(stack: List<T>, s: int, e: int, i: int)
    requires Built(stack) && Run(stack, ForEach).ok
    ensures var p := Pop(stack).value; var n := Size(stack);
      && Run(p, ForEach) == (if n >= 1 then Done([Elements(stack)[n - 1]]) else Fail())
      && Run(p, ForRange(s, e)) ==
           (if s == 0 && e == 1 && n >= 1 then Done([Elements(stack)[n - 1]]) else Fail())
      && Run(p, ForIndex(i)) ==
           (if i == 0 && n >= 1 then Done([Elements(stack)[n - 1]]) else Fail())
  {
    ForIndexAgrees(stack, Size(stack) - 1);
  }

  /** `List.dequeue(queue)` is a one-element view of the queue's FIRST
      element; `forEach` of an empty queue emits nothing and returns normally
      because the exception is caught. */
  lemma DequeueView<T>(queue: List<T>, s: int, e: int, i: int)
    requires Built(queue)
    ensures var d := Dequeued(queue); var n := Size(queue);
      && Run(d, ForEach) == Done(if n >= 1 then [Elements(queue)[0]] else [])
      && Run(d, ForRange(s, e)) ==
           (if s == 0 && e == 1 && n >= 1 then Done([Elements(queue)[0]]) else Fail())
      && Run(d, ForIndex(i)) ==
           (if i == 0 && n >= 1 then Done([Elements(queue)[0]]) else Fail())
  {
    ForIndexAgrees(queue, 0);
  }

  // ---------------------------------------------------------------------
  // Combinators
  // ---------------------------------------------------------------------

  /** `List.mapped(fn, base)`: every visit emits `fn` of what the same visit of
      `base` emits, element by element, with the same outcome. */
  lemma MappedVisit<T>(base: List<T>, fn: T -> T, op: Op)
    ensures var b := Run(base, op); var r := Run(Mapped(base, fn), op);
      && r.ok == b.ok
      && |r.trace| == |b.trace|
      && forall k :: 0 <= k < |b.trace| ==> r.trace[k] == fn(b.trace[k])
  {
  }

  /** `mapped(fn, base)` indexes like `base` with `fn` applied: `forIndex(i)`
      emits `fn` of the i-th element of `base` when `0 <= i < size`, and
      otherwise throws having emitted nothing. */
  lemma MappedIndex<T>(base: List<T>, fn: T -> T, i: int)
    requires Built(base)
    ensures Run(Mapped(base, fn), ForIndex(i)) ==
              if 0 <= i < Size(base) then Done([fn(Elements(base)[i])]) else Fail()
  {
    ForIndexAgrees(base, i);
    if 0 <= i < Size(base) {
      assert MapVisit(fn, Done([Elements(base)[i]])).trace == [fn(Elements(base)[i])];
    }
  }

  /** `List.repeated(n, value)` answers like an array of `n` copies, and with
      `n == 0` exactly like `Empty`. */
  lemma RepeatVisits<T>(n: nat, value: T, s: int, e: int, i: int)
    ensures Run(Repeat(n, value), ForRange(s, e)) ==
              if 0 <= s < e <= n then Done(seq(e - s, _ => value)) else Fail()
    ensures Run(Repeat(n, value), ForIndex(i)) ==
              if 0 <= i < n then Done([value]) else Fail()
    ensures n == 0 ==> forall op :: Run(Repeat(n, value), op) == Run(Empty, op)
  {
    var copies := seq(n, _ => value);
    assert Repeat(n, value) == Repeated(Of(copies));
    if n == 0 {
      assert Of(copies) == Empty;
    } else {
      assert Of(copies) == NonEmpty(copies);
      assert RunRange(Repeated(NonEmpty(copies)), s, e) == RunRange(NonEmpty(copies), s, e);
      assert RunIndex(Repeated(NonEmpty(copies)), i) == RunIndex(NonEmpty(copies), i);
      if 0 <= s < e <= n {
        assert copies[s..e] == seq(e - s, _ => value);
      }
    }
  }

  /** Ranges over a flat-mapped list follow the linked-list rules over the
      concatenated elements, because the constructor builds a `TailList` chain. */
  lemma FlatMapRange<T>(fn: T -> List<T>, list: List<T>, s: int, e: int)
    requires FlatMap(fn, list).Some?
    ensures Run(FlatMap(fn, list).value, ForRange(s, e)) ==
              LinkedRange(Expand(fn, Elements(list)).value, s, e)
  {
    var out := Expand(fn, Elements(list)).value;
    assert FlatMap(fn, list).value == FlatMapped(LinkedList(out));
    LinkedListRange(out, s, e);
  }

  // ---------------------------------------------------------------------
  // The scenarios of the unit tests
  // ---------------------------------------------------------------------

  /** `i -> repeated(i, i)` for the non-negative counts of the unit test.
      Java's `repeated` throws for a negative count; that case is not
      meaningful here and is read as zero only to keep the function total. */
  function Copies(x: int): List<int> {
    Repeat(if x < 0 then 0 else x, x)
  }

  /** Expanding 1, 2, 3 with `Copies` gives 1, 2, 2, 3, 3, 3. */
  lemma ExpandCopies()
    ensures Expand(Copies, [1, 2, 3]) == Some([1, 2, 2, 3, 3, 3])
  {
    assert Run(Copies(1), ForEach) == Done([1]);
    assert Run(Copies(2), ForEach) == Done([2, 2]);
    assert Run(Copies(3), ForEach) == Done([3, 3, 3]);
    ExpandStep([3], [3, 3, 3], []);
    assert [3, 3, 3] + [] == [3, 3, 3];
    assert [2, 3][1..] == [3];
    ExpandStep([2, 3], [2, 2], [3, 3, 3]);
    assert [2, 2] + [3, 3, 3] == [2, 2, 3, 3, 3];
    assert [1, 2, 3][1..] == [2, 3];
    ExpandStep([1, 2, 3], [1], [2, 2, 3, 3, 3]);
    assert [1] + [2, 2, 3, 3, 3] == [1, 2, 2, 3, 3, 3];
  }

  /** One step of `Expand` with `Copies`. */
  lemma ExpandStep(xs: seq<int>, first: seq<int>, rest: seq<int>)
    requires |xs| >= 1
    requires Run(Copies(xs[0]), ForEach) == Done(first)
    requires Expand(Copies, xs[1..]) == Some(rest)
    ensures Expand(Copies, xs) == Some(first + rest)
  {
  }

  /** `flatMapped(i -> repeated(i, i), linkedList(1, 2, 3))` emits
      1, 2, 2, 3, 3, 3, and its range `(0, 4)` emits the first four. */
  lemma FlatMapRepeatExample()
    ensures var l := FlatMap(Copies, LinkedList([1, 2, 3]));
      && l.Some?
      && Run(l.value, ForEach) == Done([1, 2, 2, 3, 3, 3])
      && Run(l.value, ForRange(0, 4)) == Done([1, 2, 2, 3])
  {
    ExpandCopies();
    assert Elements(LinkedList([1, 2, 3])) == [1, 2, 3];
    FlatMapRange(Copies, LinkedList([1, 2, 3]), 0, 4);
    assert [1, 2, 2, 3, 3, 3][..4] == [1, 2, 2, 3];
  }

  /** `pop(push(1, push(2, push(3, empty))))` emits 3 from `forEach`,
      `forEach(0, 1)` and `forIndex(0)`, and throws for `forIndex(1)` and
      `forEach(0, 2)`. */
  lemma PushPopExample()
    ensures var p := Pop(Stack([1, 2, 3])).value;
      && Run(p, ForEach) == Done([3])
      && Run(p, ForRange(0, 1)) == Done([3])
      && Run(p, ForIndex(0)) == Done([3])
      && Run(p, ForIndex(1)) == Fail()
      && Run(p, ForRange(0, 2)) == Fail()
  {
    PopView(Stack([1, 2, 3]), 0, 1, 0);
    PopView(Stack([1, 2, 3]), 0, 2, 1);
  }

  /** `dequeue(enqueue(enqueue(empty, 1), 2))` emits 1 from `forEach`,
      `forEach(0, 1)` and `forIndex(0)`, and throws for `forEach(0, 2)` and
      `forIndex(2)`. */
  lemma EnqueueDequeueExample()
    ensures var d := Dequeued(LinkedList([1, 2]));
      && Run(d, ForEach) == Done([1])
      && Run(d, ForRange(0, 1)) == Done([1])
      && Run(d, ForIndex(0)) == Done([1])
      && Run(d, ForRange(0, 2)) == Fail()
      && Run(d, ForIndex(2)) == Fail()
  {
    DequeueView(LinkedList([1, 2]), 0, 1, 0);
    DequeueView(LinkedList([1, 2]), 0, 2, 2);
  }

  /** The `TailList` range scenarios of the unit tests. */
  lemma TailListExamples()
    ensures !Run(AppendTail(Empty, 1).value, ForRange(0, 2)).ok
    ensures Run(AppendTail(Empty, 1).value, ForRange(0, 1)) == Done([1])
    ensures Run(AppendTail(Of([1, 2]), 3).value, ForRange(0, 3)) == Done([1, 2, 3])
    ensures Run(AppendTail(Of([1, 2]), 3).value, ForRange(1, 3)) == Done([2, 3])
    ensures Run(AppendTail(LinkedList([1, 2]), 3).value, ForRange(0, 2)) == Done([1, 2])
    ensures Run(AppendTail(Of([1, 2, 3]), 4).value, ForRange(0, 2)) == Done([1, 2])
    ensures Run(LinkedList([3, 2, 1]), ForIndex(2)) == Done([1])
    ensures Run(LinkedList([3, 2, 1]), ForIndex(0)) == Done([3])
  {
    LinkedListRange([1, 2, 3], 0, 2);
    ForIndexAgrees(LinkedList([3, 2, 1]), 2);
    ForIndexAgrees(LinkedList([3, 2, 1]), 0);
  }

  /** `push(1, linkedList(2, 3)).forEach(0, 2)` emits 1 and then 3: the base's
      `(0, 1)` range is its singleton shortcut. A pushed stack's `(0, 1)` range
      emits the whole stack and then throws. */
  lemma PushRangeExamples()
    ensures Run(Push(1, LinkedList([2, 3])).value, ForRange(0, 2)) == Done([1, 3])
    ensures Run(Stack([1, 2, 3]), ForRange(0, 1)) == Visit([1, 2, 3], false)
  {
    LinkedListRange([2, 3], 0, 1);
    StackRange([1, 2, 3], 0, 1);
  }
}
