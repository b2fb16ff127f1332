/** The persistent sequence family of `List.java`.

    A sequence is never read directly: it is visited. Every variant answers the
    same three visits (`forEach(action)`, `forEach(start, end, action)` and
    `forIndex(index, action)`), usually by delegating an adjusted range or index
    to the list it wraps. `Run(l, op)` is the meaning of a visit: the elements
    handed to the action, in order, together with whether the call returned
    normally or threw `IndexOutOfBoundsException`. */
module Lists {
  import opened Wrappers

  /** The three visits of the protocol. */
  datatype Op =
    | ForEach
    | ForRange(start: int, end: int)
    | ForIndex(index: int)

  /** The observable effect of a visit: the trace of elements passed to the
      action, and `ok == false` when the call ended by throwing
      `IndexOutOfBoundsException` (possibly after some elements were emitted). */
  datatype Visit<T> = Visit(trace: seq<T>, ok: bool) {

    /** Run `next` after this part, unless this part threw. */
    function Then(next: Visit<T>): Visit<T> {
      if ok then Visit(trace + next.trace, next.ok) else this
    }
  }

  /** A visit that returned normally after emitting `trace`. */
  function Done<T>(trace: seq<T>): Visit<T> {
    Visit(trace, true)
  }

  /** A visit that threw before emitting anything. */
  function Fail<T>(): Visit<T> {
    Visit([], false)
  }

  /** One constructor per class implementing `List`. The cached sizes
      (`headSize`, `endIndex`, `lastIndex`) are fields, as in the source;
      `Built` states the value the constructors give them. */
  datatype List<!T> =
    | Empty
    | NonEmpty(values: seq<T>)
    | TailList(head: List<T>, tail: T, headSize: int)
    | Cons(one: T, list: List<T>, endIndex: int)
    | Popped(stack: List<T>, lastIndex: int)
    | Dequeued(queue: List<T>)
    | Mapped(base: List<T>, fn: T -> T)
    | Repeated(copies: List<T>)
    | FlatMapped(flat: List<T>)

  /** The semantics of every visit on every variant. */
  function Run<T>(l: List<T>, op: Op): Visit<T> {
    match op
    case ForEach => RunEach(l)
    case ForRange(s, e) => RunRange(l, s, e)
    case ForIndex(i) => RunIndex(l, i)
  }

  /** `forEach(action)`, branch for branch. */
  function RunEach<T>(l: List<T>): Visit<T>
    decreases l
  {
    match l
    case Empty => Done([])
    case NonEmpty(values) => Done(values)
    case TailList(head, tail, _) => RunEach(head).Then(Done([tail]))
    case Cons(one, list, _) => Done([one]).Then(RunEach(list))
    case Popped(stack, lastIndex) => RunIndex(stack, lastIndex)
    case Dequeued(queue) =>
      // the IndexOutOfBoundsException of an empty queue is caught
      Visit(RunIndex(queue, 0).trace, true)
    case Mapped(base, fn) => MapVisit(fn, RunEach(base))
    case Repeated(copies) => RunEach(copies)
    case FlatMapped(flat) => RunEach(flat)
  }

  /** `forEach(start, end, action)`, branch for branch. */
  function RunRange<T>(l: List<T>, s: int, e: int): Visit<T>
    decreases l
  {
    match l
    case Empty => Fail()
    case NonEmpty(values) =>
      if s < 0 || s >= |values| || e <= 0 || e > |values| || s >= e then Fail()
      else Done(values[s..e])
    case TailList(head, tail, headSize) =>
      if s == 0 && e == 1 then Done([tail])
      else if e > headSize + 1 then Fail()
      else if e == headSize + 1 then RunRange(head, s, e - 1).Then(Done([tail]))
      else RunRange(head, s, e)
    case Cons(one, list, endIndex) =>
      if endIndex == -1 && e == 1 && s == 0 then Done([one])
      else if e > endIndex + 2 then Fail()
      else if s == 0 then Done([one]).Then(RunRange(list, s, e - 1))
      else RunRange(list, s - 1, e - 1)
    case Popped(stack, lastIndex) =>
      if s == 0 && e == 1 then RunIndex(stack, lastIndex) else Fail()
    case Dequeued(queue) =>
      if s == 0 && e == 1 then RunIndex(queue, 0) else Fail()
    case Mapped(base, fn) => MapVisit(fn, RunRange(base, s, e))
    case Repeated(copies) => RunRange(copies, s, e)
    case FlatMapped(flat) => RunRange(flat, s, e)
  }

  /** `forIndex(index, action)`, branch for branch. */
  function RunIndex<T>(l: List<T>, i: int): (r: Visit<T>)
    ensures |r.trace| <= 1
    decreases l
  {
    match l
    case Empty => Fail()
    case NonEmpty(values) =>
      // an ArrayIndexOutOfBoundsException is an IndexOutOfBoundsException
      if 0 <= i < |values| then Done([values[i]]) else Fail()
    case TailList(head, tail, headSize) =>
      if i == headSize then Done([tail]) else RunIndex(head, i)
    case Cons(one, list, _) =>
      if i == 0 then Done([one]) else RunIndex(list, i - 1)
    case Popped(stack, lastIndex) =>
      if i == 0 then RunIndex(stack, lastIndex) else Fail()
    case Dequeued(queue) =>
      if i == 0 then RunIndex(queue, 0) else Fail()
    case Mapped(base, fn) => MapVisit(fn, RunIndex(base, i))
    case Repeated(copies) => RunIndex(copies, i)
    case FlatMapped(flat) => RunIndex(flat, i)
  }

  /** What `Mapped` hands on: `fn` of every element, with the same outcome. */
  function MapVisit<T>(fn: T -> T, v: Visit<T>): (r: Visit<T>)
    ensures |r.trace| == |v.trace| && r.ok == v.ok
  {
    Visit(seq(|v.trace|, k requires 0 <= k < |v.trace| => fn(v.trace[k])), v.ok)
  }

  /** The elements a full traversal emits. */
  function Elements<T>(l: List<T>): seq<T> {
    Run(l, ForEach).trace
  }

  /** The number of elements a full traversal emits (`sizeOf` in the source). */
  function Size<T>(l: List<T>): nat {
    |Elements(l)|
  }

  /** `l` is a value the constructors can produce: a `NonEmpty` array is never
      empty, and every cached size was computed by a full traversal of the
      wrapped list that returned normally. */
  predicate Built<T>(l: List<T>)
    decreases l
  {
    match l
    case Empty => true
    case NonEmpty(values) => |values| > 0
    case TailList(head, _, headSize) =>
      Built(head) && Run(head, ForEach).ok && headSize == Size(head)
    case Cons(_, list, endIndex) =>
      Built(list) && Run(list, ForEach).ok && endIndex == Size(list) - 1
    case Popped(stack, lastIndex) =>
      Built(stack) && Run(stack, ForEach).ok && lastIndex == Size(stack) - 1
    case Dequeued(queue) => Built(queue)
    case Mapped(base, _) => Built(base)
    case Repeated(copies) => Built(copies)
    case FlatMapped(flat) => Built(flat)
  }

  /** `List.of(values)`: the empty array (or null) gives `Empty`. */
  function Of<T>(values: seq<T>): (r: List<T>)
    ensures r.Empty? <==> |values| == 0
    ensures Built(r)
    ensures Run(r, ForEach) == Done(values)
  {
    if |values| == 0 then Empty else NonEmpty(values)
  }

  /** `List.tailList(head, tail)`, also `List.enqueue(queue, value)`. The
      constructor traverses `head` to cache its size, so it throws (`None`)
      exactly when that traversal throws. */
  function AppendTail<T>(head: List<T>, tail: T): (r: Option<List<T>>)
    requires Built(head)
    ensures r.Some? <==> Run(head, ForEach).ok
    ensures r.Some? ==> Built(r.value)
    ensures r.Some? ==> Run(r.value, ForEach) == Done(Run(head, ForEach).trace + [tail])
  {
    var sizing := Run(head, ForEach);
    if sizing.ok then Some(TailList(head, tail, |sizing.trace|)) else None
  }

  /** `List.push(value, stack)`: the constructor caches `size - 1` of the stack. */
  function Push<T>(value: T, stack: List<T>): (r: Option<List<T>>)
    requires Built(stack)
    ensures r.Some? <==> Run(stack, ForEach).ok
    ensures r.Some? ==> Built(r.value)
    ensures r.Some? ==> Run(r.value, ForEach) == Done([value] + Run(stack, ForEach).trace)
  {
    var sizing := Run(stack, ForEach);
    if sizing.ok then Some(Cons(value, stack, |sizing.trace| - 1)) else None
  }

  /** A stack built by pushing `values` right to left onto `Empty`, so that
      `values[0]` is on top. */
  function Stack<T>(values: seq<T>): (r: List<T>)
    ensures Built(r)
    ensures Run(r, ForEach) == Done(values)
    decreases |values|
  {
    if |values| == 0 then Empty
    else
      assert values == [values[0]] + values[1..];
      Push(values[0], Stack(values[1..])).value
  }

  /** `List.pop(stack)`: the constructor caches the last index of the stack. */
  function Pop<T>(stack: List<T>): (r: Option<List<T>>)
    requires Built(stack)
    ensures r.Some? <==> Run(stack, ForEach).ok
    ensures r.Some? ==> Built(r.value) && r.value.Popped?
  {
    var sizing := Run(stack, ForEach);
    if sizing.ok then Some(Popped(stack, |sizing.trace| - 1)) else None
  }

  /** `List.linkedList(values)`: a chain of `TailList`s grown from `Empty`. */
  function LinkedList<T>(values: seq<T>): (r: List<T>)
    ensures Built(r)
    ensures Run(r, ForEach) == Done(values)
    decreases |values|
  {
    if |values| == 0 then Empty
    else
      var prefix := values[..|values| - 1];
      assert values == prefix + [values[|values| - 1]];
      AppendTail(LinkedList(prefix), values[|values| - 1]).value
  }

  /** `List.repeated(n, value)`: `List.of` over an array of `n` copies. A
      negative `n` throws `NegativeArraySizeException`, so `n` is a `nat`. */
  function Repeat<T>(n: nat, value: T): (r: List<T>)
    ensures Built(r)
    ensures Run(r, ForEach) == Done(seq(n, _ => value))
  {
    Repeated(Of(seq(n, _ => value)))
  }

  /** The concatenated full traversals of `fn(x)` for every `x` of `xs`, in
      order; `None` once one of them throws. */
  function Expand<T>(fn: T -> List<T>, xs: seq<T>): (r: Option<seq<T>>)
    ensures r.Some? <==> forall i :: 0 <= i < |xs| ==> Run(fn(xs[i]), ForEach).ok
    decreases |xs|
  {
    if |xs| == 0 then Some([])
    else
      var first := Run(fn(xs[0]), ForEach);
      if !first.ok then None
      else
        match Expand(fn, xs[1..])
        case None => None
        case Some(rest) => Some(first.trace + rest)
  }

  /** `List.flatMapped(fn, list)`: built eagerly by visiting `list` and every
      `fn(e)` and appending each emitted element to a `TailList` chain. The
      constructor throws (`None`) when one of those traversals throws. */
  function FlatMap<T>(fn: T -> List<T>, list: List<T>): (r: Option<List<T>>)
    ensures r.Some? <==> Run(list, ForEach).ok && Expand(fn, Run(list, ForEach).trace).Some?
    ensures r.Some? ==> Built(r.value)
    ensures r.Some? ==> Run(r.value, ForEach) == Done(Expand(fn, Run(list, ForEach).trace).value)
  {
    var source := Run(list, ForEach);
    if !source.ok then None
    else
      match Expand(fn, source.trace)
      case None => None
      case Some(elements) => Some(FlatMapped(LinkedList(elements)))
  }
}
