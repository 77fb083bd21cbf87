/**
 The bounded ring that sits under the asynchronous queue and the backtrace buffer.

 `QueueState` is what a ring means to its callers: a sequence with room for `capacity` items
 that loses its oldest item when it is pushed while full. `CircularQ` is the array, the two
 indices and the counter; every method is proved against `QueueState`.
 */
module CircularQueue {

  const SIZE_MAX: nat := 0xFFFF_FFFF_FFFF_FFFF

  /** A disabled queue (default-constructed or moved-from) silently ignores pushes. */
  datatype QueueState<+T> = QueueState(enabled: bool, capacity: nat, items: seq<T>, overruns: nat) {

    ghost predicate Valid() {
      |items| <= capacity && (!enabled ==> capacity == 0 && overruns == 0)
    }

    predicate Full() {
      enabled && |items| == capacity
    }
  }

  function EmptyQueue<T>(capacity: nat): QueueState<T> {
    QueueState(true, capacity, [], 0)
  }

  function Push<T>(q: QueueState<T>, item: T): QueueState<T> {
    if !q.enabled then
      q
    else if |q.items| < q.capacity then
      q.(items := q.items + [item])
    else
      q.(items := (q.items + [item])[1..], overruns := q.overruns + 1)
  }

  function Pop<T>(q: QueueState<T>): QueueState<T>
    requires q.items != []
  {
    q.(items := q.items[1..])
  }

  /** `i % n` for an index advanced by less than one turn. */
  function Wrap(i: nat, n: nat): nat
    requires i < 2 * n
  {
    if i < n then i else i - n
  }

  lemma WrapIsModulo(i: nat, n: nat)
    requires i < 2 * n
    ensures Wrap(i, n) == i % n
  {
    assert i >= n ==> i == (i - n) + 1 * n;
  }

  /** The stored items, oldest first: the slots from head up to tail, going round once. */
  function Slots<T>(v: seq<T>, head: nat, tail: nat): seq<T>
    requires head <= |v| && tail <= |v|
  {
    if head <= tail then v[head..tail] else v[head..] + v[..tail]
  }

  lemma SlotsPush<T>(v: seq<T>, head: nat, tail: nat, item: T)
    requires head < |v| && tail < |v|
    ensures var end, after := Wrap(tail + 1, |v|), v[tail := item];
            && (end == head <==> |Slots(v, head, tail)| == |v| - 1)
            && (end != head ==> Slots(after, head, end) == Slots(v, head, tail) + [item])
            && (end == head ==> Slots(after, Wrap(head + 1, |v|), end) == (Slots(v, head, tail) + [item])[1..])
  {
    var end, after := Wrap(tail + 1, |v|), v[tail := item];
    if end == head {
      assert Slots(after, Wrap(head + 1, |v|), end) == (Slots(v, head, tail) + [item])[1..];
    } else {
      assert Slots(after, head, end) == Slots(v, head, tail) + [item];
    }
  }

  class CircularQ<T(0)> {
    var maxItems: nat
    var head: nat
    var tail: nat
    var overrunCounter: nat
    var v: array<T>

    ghost predicate Valid()
      reads this, v
    {
      && maxItems <= SIZE_MAX
      && if maxItems == 0 then head == tail == overrunCounter == 0
         else v.Length == maxItems && head < maxItems && tail < maxItems
    }

    ghost function State(): (s: QueueState<T>)
      requires Valid()
      reads this, v
      ensures s.Valid()
    {
      if maxItems == 0 then QueueState(false, 0, [], 0)
      else QueueState(true, maxItems - 1, Slots(v[..], head, tail), overrunCounter)
    }

    /** The default constructor: a disabled queue with no storage. */
    constructor Disabled()
      ensures Valid() && State() == QueueState(false, 0, [], 0) && fresh(v)
    {
      maxItems, head, tail, overrunCounter := 0, 0, 0, 0;
      v := new T[0];
    }

    /** One slot is reserved to tell full from empty; the increment wraps like size_t. */
    constructor WithCapacity(n: nat)
      requires n <= SIZE_MAX
      ensures Valid() && fresh(v)
      ensures State() == if n == SIZE_MAX then QueueState(false, 0, [], 0) else EmptyQueue(n)
    {
      maxItems := (n + 1) % (SIZE_MAX + 1);
      head, tail, overrunCounter := 0, 0, 0;
      v := new T[(n + 1) % (SIZE_MAX + 1)];
    }

    constructor Copy(other: CircularQ<T>)
      requires other.Valid()
      ensures Valid() && fresh(v)
      ensures State() == other.State()
    {
      maxItems, head, tail, overrunCounter := other.maxItems, other.head, other.tail, other.overrunCounter;
      var source := other.v;
      v := new T[source.Length](i requires 0 <= i < source.Length reads source => source[i]);
      new;
      assert v[..] == other.v[..];
    }

    /** Move construction and assignment: the source is left disabled. */
    method MoveFrom(other: CircularQ<T>)
      requires Valid() && other.Valid()
      modifies this, other
      ensures Valid() && other.Valid()
      ensures other.State() == QueueState(false, 0, [], 0)
      ensures this != other ==> State() == old(other.State()) && v == old(other.v)
      ensures fresh(other.v)
    {
      maxItems := other.maxItems;
      head := other.head;
      tail := other.tail;
      overrunCounter := other.overrunCounter;
      v := other.v;
      other.maxItems := 0;
      other.head, other.tail := 0, 0;
      other.overrunCounter := 0;
      other.v := new T[0];
    }

    method PushBack(item: T)
      requires Valid()
      modifies this`tail, this`head, this`overrunCounter, v
      ensures Valid() && State() == Push(old(State()), item)
    {
      if maxItems > 0 {
        SlotsPush(v[..], head, tail, item);
        v[tail] := item;
        assert v[..] == old(v[..])[old(tail) := item];
        tail := Wrap(tail + 1, maxItems);
        if tail == head {
          head := Wrap(head + 1, maxItems);
          overrunCounter := overrunCounter + 1;
        }
      }
    }

    method Front() returns (item: T)
      requires Valid() && State().items != []
      ensures item == State().items[0]
    {
      item := v[head];
    }

    method Size() returns (n: nat)
      requires Valid()
      ensures n == |State().items|
    {
      n := if tail >= head then tail - head else maxItems - (head - tail);
    }

    method At(i: nat) returns (item: T)
      requires Valid() && i < |State().items|
      ensures item == State().items[i]
    {
      item := v[Wrap(head + i, maxItems)];
    }

    method PopFront()
      requires Valid() && State().items != []
      modifies this`head
      ensures Valid() && State() == Pop(old(State()))
    {
      head := Wrap(head + 1, maxItems);
    }

    method Empty() returns (b: bool)
      requires Valid()
      ensures b <==> State().items == []
    {
      b := tail == head;
    }

    method Full() returns (b: bool)
      requires Valid()
      ensures b <==> State().Full()
    {
      if maxItems > 0 {
        b := Wrap(tail + 1, maxItems) == head;
      } else {
        b := false;
      }
    }

    method ResetOverrunCounter()
      requires Valid()
      modifies this`overrunCounter
      ensures Valid() && State() == old(State()).(overruns := 0)
    {
      overrunCounter := 0;
    }
  }

  // Runs of the queue: what is conserved whatever the clients do.

  datatype Op<+T> = PushOp(item: T) | PopOp

  datatype History<+T> = History(q: QueueState<T>, pushed: seq<T>, removed: seq<T>, pops: nat)

  /** A client never pops an empty queue. */
  predicate Allowed<T>(h: History<T>, op: Op<T>) {
    op.PushOp? || h.q.items != []
  }

  function Apply<T>(h: History<T>, op: Op<T>): History<T>
    requires Allowed(h, op)
  {
    match op
    case PushOp(x) =>
      var lost := if h.q.Full() then [(h.q.items + [x])[0]] else [];
      h.(q := Push(h.q, x), pushed := h.pushed + [x], removed := h.removed + lost)
    case PopOp =>
      History(Pop(h.q), h.pushed, h.removed + [h.q.items[0]], h.pops + 1)
  }

  predicate IsRun<T>(h: History<T>, ops: seq<Op<T>>)
    decreases |ops|
  {
    ops == [] || (Allowed(h, ops[0]) && IsRun(Apply(h, ops[0]), ops[1..]))
  }

  function Run<T>(h: History<T>, ops: seq<Op<T>>): History<T>
    requires IsRun(h, ops)
    decreases |ops|
  {
    if ops == [] then h else Run(Apply(h, ops[0]), ops[1..])
  }

  /** Over any run nothing is lost or reordered, and the counter accounts for every overrun. */
  lemma {:induction false} RunConserves<T>(h: History<T>, ops: seq<Op<T>>)
    requires IsRun(h, ops) && h.q.Valid() && h.q.enabled
    requires h.pushed == h.removed + h.q.items
    requires |h.pushed| == h.pops + |h.q.items| + h.q.overruns
    ensures var r := Run(h, ops);
            && r.q.Valid() && r.q.enabled && r.q.capacity == h.q.capacity
            && r.pushed == r.removed + r.q.items
            && |r.pushed| == r.pops + |r.q.items| + r.q.overruns
    decreases |ops|
  {
    if ops != [] {
      var next := Apply(h, ops[0]);
      assert next.pushed == next.removed + next.q.items;
      RunConserves(next, ops[1..]);
    }
  }

  function PushAll<T>(q: QueueState<T>, xs: seq<T>): QueueState<T> {
    if xs == [] then q else Push(PushAll(q, xs[..|xs| - 1]), xs[|xs| - 1])
  }

  function LastN<T>(xs: seq<T>, n: nat): seq<T> {
    if |xs| <= n then xs else xs[|xs| - n..]
  }

  /** Pushing k items into a fresh queue of capacity n keeps exactly the last min(n, k), in order. */
  lemma {:induction false} PushAllKeepsLast<T>(n: nat, xs: seq<T>)
    ensures PushAll(EmptyQueue(n), xs)
         == QueueState(true, n, LastN(xs, n), if |xs| <= n then 0 else |xs| - n)
  {
    if xs != [] {
      var before, x := xs[..|xs| - 1], xs[|xs| - 1];
      PushAllKeepsLast(n, before);
      assert xs == before + [x];
    }
  }
}
