/** The buffer of recent messages that a logger dumps on demand. */
module Backtracer {

  import opened CircularQueue
  import opened Sequences

  /** A size for which the one reserved slot overflows size_t gives a queue that ignores pushes. */
  function FreshBuffer<T>(size: nat): QueueState<T> {
    if size == SIZE_MAX then QueueState(false, 0, [], 0) else EmptyQueue(size)
  }

  /** Every method holds the mutex for its whole body. */
  class BacktracerT<T(0)> {
    var enabled: bool
    var messages: CircularQ<T>

    ghost predicate Valid()
      reads this, messages, messages.v
    {
      messages.Valid()
    }

    constructor ()
      ensures Valid() && fresh(messages) && fresh(messages.v)
      ensures !enabled && messages.State() == QueueState(false, 0, [], 0)
    {
      enabled := false;
      messages := new CircularQ<T>.Disabled();
    }

    constructor Copy(other: BacktracerT<T>)
      requires other.Valid()
      ensures Valid() && fresh(messages) && fresh(messages.v)
      ensures enabled == other.enabled && messages.State() == other.messages.State()
    {
      enabled := other.enabled;
      messages := new CircularQ<T>.Copy(other.messages);
    }

    /** Replaces whatever was buffered. */
    method Enable(size: nat)
      requires Valid() && size <= SIZE_MAX
      modifies this, messages
      ensures Valid() && enabled && fresh(messages.v)
      ensures messages == old(messages)
      ensures messages.State() == FreshBuffer(size)
    {
      enabled := true;
      var created := new CircularQ<T>.WithCapacity(size);
      messages.MoveFrom(created);
    }

    /** The messages stay. */
    method Disable()
      requires Valid()
      modifies this`enabled
      ensures Valid() && !enabled && messages.State() == old(messages.State())
    {
      enabled := false;
    }

    method PushBack(msg: T)
      requires Valid()
      modifies messages, messages.v
      ensures Valid() && messages.State() == Push(old(messages.State()), msg) && messages.v == old(messages.v)
    {
      messages.PushBack(msg);
    }

    method Empty() returns (b: bool)
      requires Valid()
      ensures b <==> messages.State().items == []
    {
      b := messages.Empty();
    }

    /** `visited` is what the callback is given, in the order of the calls. */
    method ForeachPop() returns (visited: seq<T>)
      requires Valid()
      modifies messages
      ensures Valid() && messages.v == old(messages.v)
      ensures visited == old(messages.State().items)
      ensures messages.State() == old(messages.State()).(items := [])
    {
      hide CircularQ.State, CircularQ.Valid;
      ghost var before := messages.State();
      visited := [];
      var empty := messages.Empty();
      while !empty
        invariant Valid() && messages.v == old(messages.v)
        invariant empty <==> messages.State().items == []
        invariant messages.State() == before.(items := messages.State().items)
        invariant visited + messages.State().items == before.items
        decreases |messages.State().items|
      {
        ghost var items := messages.State().items;
        var frontMsg := messages.Front();
        messages.PopFront();
        Associates(visited, [items[0]], items[1..]);
        visited := visited + [frontMsg];
        empty := messages.Empty();
      }
    }
  }

  // Runs: what a dump shows.

  datatype Op<+T> = EnableOp(size: nat) | DisableOp | PushOp(msg: T) | DumpOp

  function Apply<T>(q: QueueState<T>, op: Op<T>): QueueState<T> {
    match op
    case EnableOp(size) => FreshBuffer(size)
    case DisableOp => q
    case PushOp(msg) => Push(q, msg)
    case DumpOp => q.(items := [])
  }

  function Run<T>(q: QueueState<T>, ops: seq<Op<T>>): QueueState<T> {
    if ops == [] then q else Apply(Run(q, ops[..|ops| - 1]), ops[|ops| - 1])
  }

  /** The messages pushed since the buffer was last emptied, by a dump or by enabling. */
  function Pending<T>(ops: seq<Op<T>>): seq<T> {
    if ops == [] then []
    else
      var before := Pending(ops[..|ops| - 1]);
      match ops[|ops| - 1]
      case EnableOp(_) => []
      case DisableOp => before
      case PushOp(msg) => before + [msg]
      case DumpOp => []
  }

  /** The size given when tracing was last enabled, if it ever was. */
  function LastSize<T>(ops: seq<Op<T>>): nat {
    if ops == [] then 0
    else if ops[|ops| - 1].EnableOp? then if ops[|ops| - 1].size == SIZE_MAX then 0 else ops[|ops| - 1].size
    else LastSize(ops[..|ops| - 1])
  }

  /** And whether the buffer takes messages since. */
  predicate WasEnabled<T>(ops: seq<Op<T>>) {
    ops != [] &&
    if ops[|ops| - 1].EnableOp? then ops[|ops| - 1].size != SIZE_MAX else WasEnabled(ops[..|ops| - 1])
  }

  /**
   Whatever happened before, the buffer holds exactly the last min(n, k) of the k messages pushed
   since it was last emptied, in order; before tracing was ever enabled it holds none.
   */
  lemma {:induction false} DumpShowsLastMessages<T>(ops: seq<Op<T>>)
    ensures var q := Run(QueueState(false, 0, [], 0), ops);
            && q.enabled == WasEnabled(ops)
            && q.capacity == LastSize(ops)
            && q.items == if WasEnabled(ops) then LastN(Pending(ops), LastSize(ops)) else []
  {
    if ops != [] {
      var before, op := ops[..|ops| - 1], ops[|ops| - 1];
      DumpShowsLastMessages(before);
      if op.PushOp? {
      }
    }
  }
}
