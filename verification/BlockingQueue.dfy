/**
 The multi-producer multi-consumer blocking queue.

 `MpmcQueue` holds the fields and the bodies that run under the mutex. `State` and `Step` interleave
 any number of threads over what such a queue means. A body under the lock is one step, the one that
 `MpmcQueue.RunLocked` takes on the real queue, and so is each of the unlocked notifies and counter
 updates that follow it, each spurious wake-up and each expired wait.
 A thread in the wait set of a condition variable moves only when it is notified, when it wakes up
 spuriously, or when its timed wait expires.
 */
module BlockingQueue {
  import opened CircularQueue

  // The data under the mutex.

  class MpmcQueue<T(0)> {
    const q: CircularQ<T>
    var discardCounter: nat

    ghost predicate Valid()
      reads this, q, q.v
    {
      q.Valid()
    }

    constructor (maxItems: nat)
      requires maxItems <= SIZE_MAX
      ensures Valid() && fresh(q) && fresh(q.v) && discardCounter == 0
      ensures q.State() == if maxItems == SIZE_MAX then QueueState(false, 0, [], 0) else EmptyQueue(maxItems)
    {
      q := new CircularQ<T>.WithCapacity(maxItems);
      discardCounter := 0;
    }

    /** One look at whether there is room, and the push if there is: enqueue and enqueue_if_have_room. */
    method EnqueueLocked(item: T) returns (pushed: bool)
      requires Valid()
      modifies q, q.v
      ensures Valid() && q.v == old(q.v)
      ensures pushed == !old(q.State()).Full()
      ensures q.State() == if pushed then Push(old(q.State()), item) else old(q.State())
    {
      var full := q.Full();
      pushed := !full;
      if pushed {
        q.PushBack(item);
      }
    }

    method EnqueueNowaitLocked(item: T)
      requires Valid()
      modifies q, q.v
      ensures Valid() && q.v == old(q.v)
      ensures q.State() == Push(old(q.State()), item)
    {
      q.PushBack(item);
    }

    /** One evaluation of the wait predicate of dequeue and dequeue_for, and the pop when it holds. */
    method DequeueLocked() returns (popped: bool, item: T)
      requires Valid()
      modifies q
      ensures Valid() && q.v == old(q.v)
      ensures popped == (old(q.State()).items != [])
      ensures popped ==> item == old(q.State()).items[0]
      ensures q.State() == if popped then Pop(old(q.State())) else old(q.State())
    {
      var empty := q.Empty();
      popped := !empty;
      if popped {
        item := q.Front();
        q.PopFront();
      } else {
        item := *;
      }
    }

    /** Whatever a thread does while it holds the mutex: the step `Locked` of the threads below, on the real queue. */
    method RunLocked(pc: Pc<T>, ghost s: State<T>, ghost t: nat) returns (after: Pc<T>)
      requires Valid() && (pc.AtLock? || pc.Expired?)
      requires t < |s.threads| && s.threads[t] == pc && s.q == q.State()
      modifies q, q.v
      ensures Valid() && q.v == old(q.v)
      ensures q.State() == InLock(s, t).q && after == InLock(s, t).threads[t]
    {
      hide CircularQ.State, CircularQ.Valid;
      match pc {
        case AtLock(Enqueue(x)) =>
          var pushed := EnqueueLocked(x);
          after := if pushed then NotifyingPush else Asleep(Enqueue(x));
        case AtLock(EnqueueNowait(x)) =>
          EnqueueNowaitLocked(x);
          after := NotifyingPush;
        case AtLock(EnqueueIfHaveRoom(x)) =>
          var pushed := EnqueueLocked(x);
          after := if pushed then NotifyingPush else Discarding;
        case AtLock(call) =>
          var popped, item := DequeueLocked();
          after := if popped then NotifyingPop(item) else Asleep(call);
        case Expired =>
          var popped, item := DequeueLocked();
          after := if popped then NotifyingPop(item) else Idle;
      }
    }

    method CountDiscard()
      modifies this`discardCounter
      ensures discardCounter == old(discardCounter) + 1
    {
      discardCounter := discardCounter + 1;
    }
  }

  // The threads.

  datatype Call<+T> = Enqueue(item: T) | EnqueueNowait(item: T) | EnqueueIfHaveRoom(item: T) | Dequeue | DequeueFor

  /** Where a thread stands between two of its steps. */
  datatype Pc<+T> =
    | Idle
    | AtLock(call: Call<T>)      // about to take the mutex and evaluate its condition
    | Asleep(call: Call<T>)      // in the wait set of pop_cv_ (Enqueue) or push_cv_ (Dequeue, DequeueFor)
    | Expired                    // a DequeueFor whose deadline passed, before its last look at the queue
    | NotifyingPush              // pushed and unlocked; push_cv_.notify_one() is still to come
    | NotifyingPop(popped: T)    // popped and unlocked; pop_cv_.notify_one() is still to come
    | Discarding                 // found the queue full; ++discard_counter_ is still to come

  datatype Removal<+T> = Taken(thread: nat, item: T) | Overrun(item: T)

  /** `accepted`, `removed` and `rejected` record, in order, what ever happened to items. */
  datatype State<+T> = State(
    q: QueueState<T>,
    threads: seq<Pc<T>>,
    discards: nat,
    accepted: seq<T>,
    removed: seq<Removal<T>>,
    rejected: seq<T>)

  datatype Step<+T> =
    | Start(t: nat, call: Call<T>)
    | Locked(t: nat)
    | Notify(t: nat, woken: Waiter)
    | CountDiscard(t: nat)
    | SpuriousWake(t: nat)
    | Expire(t: nat)

  datatype Waiter = Nobody | Thread(t: nat)

  function Init<T>(capacity: nat, n: nat): State<T> {
    State(EmptyQueue(capacity), seq(n, _ => Idle), 0, [], [], [])
  }

  predicate SleepsOnPush<T>(pc: Pc<T>) {
    pc.Asleep? && (pc.call.Dequeue? || pc.call.DequeueFor?)
  }

  predicate SleepsOnPop<T>(pc: Pc<T>) {
    pc.Asleep? && pc.call.Enqueue?
  }

  /** notify_one wakes some thread of the wait set, if there is one. */
  predicate MayWake<T>(threads: seq<Pc<T>>, woken: Waiter, sleeps: Pc<T> -> bool) {
    match woken
    case Nobody => forall u :: 0 <= u < |threads| ==> !sleeps(threads[u])
    case Thread(u) => u < |threads| && sleeps(threads[u])
  }

  predicate Enabled<T>(s: State<T>, step: Step<T>) {
    step.t < |s.threads| &&
    var pc := s.threads[step.t];
    match step
    case Start(_, _) => pc.Idle?
    case Locked(_) => pc.AtLock? || pc.Expired?
    case Notify(_, woken) =>
      || (pc.NotifyingPush? && MayWake(s.threads, woken, SleepsOnPush))
      || (pc.NotifyingPop? && MayWake(s.threads, woken, SleepsOnPop))
    case CountDiscard(_) => pc.Discarding?
    case SpuriousWake(_) => pc.Asleep?
    case Expire(_) => pc.Asleep? && pc.call.DequeueFor?
  }

  function PushItem<T>(s: State<T>, t: nat, item: T): State<T>
    requires t < |s.threads|
  {
    s.(q := Push(s.q, item),
       threads := s.threads[t := NotifyingPush],
       accepted := s.accepted + [item],
       removed := s.removed + if s.q.Full() then [Overrun((s.q.items + [item])[0])] else [])
  }

  function PopItem<T>(s: State<T>, t: nat): State<T>
    requires t < |s.threads| && s.q.items != []
  {
    s.(q := Pop(s.q),
       threads := s.threads[t := NotifyingPop(s.q.items[0])],
       removed := s.removed + [Taken(t, s.q.items[0])])
  }

  /** What a thread does while it holds the mutex. */
  function InLock<T>(s: State<T>, t: nat): State<T>
    requires t < |s.threads| && (s.threads[t].AtLock? || s.threads[t].Expired?)
  {
    match s.threads[t]
    case AtLock(Enqueue(x)) =>
      if s.q.Full() then s.(threads := s.threads[t := Asleep(Enqueue(x))]) else PushItem(s, t, x)
    case AtLock(EnqueueNowait(x)) => PushItem(s, t, x)
    case AtLock(EnqueueIfHaveRoom(x)) =>
      if s.q.Full() then s.(threads := s.threads[t := Discarding], rejected := s.rejected + [x])
      else PushItem(s, t, x)
    case AtLock(call) =>
      if s.q.items == [] then s.(threads := s.threads[t := Asleep(call)]) else PopItem(s, t)
    case Expired =>
      if s.q.items == [] then s.(threads := s.threads[t := Idle]) else PopItem(s, t)
  }

  function Wake<T>(threads: seq<Pc<T>>, t: nat): seq<Pc<T>>
    requires t < |threads| && threads[t].Asleep?
  {
    threads[t := AtLock(threads[t].call)]
  }

  function Next<T>(s: State<T>, step: Step<T>): State<T>
    requires Enabled(s, step)
  {
    match step
    case Start(t, call) => s.(threads := s.threads[t := AtLock(call)])
    case Locked(t) => InLock(s, t)
    case Notify(t, woken) =>
      var rest := s.threads[t := Idle];
      s.(threads := if woken.Thread? then Wake(rest, woken.t) else rest)
    case CountDiscard(t) => s.(threads := s.threads[t := Idle], discards := s.discards + 1)
    case SpuriousWake(t) => s.(threads := Wake(s.threads, t))
    case Expire(t) => s.(threads := s.threads[t := Expired])
  }

  predicate IsRun<T>(s: State<T>, steps: seq<Step<T>>)
    decreases |steps|
  {
    steps == [] || (Enabled(s, steps[0]) && IsRun(Next(s, steps[0]), steps[1..]))
  }

  function Run<T>(s: State<T>, steps: seq<Step<T>>): State<T>
    requires IsRun(s, steps)
    decreases |steps|
  {
    if steps == [] then s else Run(Next(s, steps[0]), steps[1..])
  }

  // Counting threads by what they are about to do.

  datatype Kind = Resting | Consumer | Producer | OtherProducer | SleepingConsumer | SleepingProducer
                | PushNotifier | PopNotifier | Discarder

  function KindOf<T>(pc: Pc<T>): Kind {
    match pc
    case Idle => Resting
    case AtLock(call) => if call.Dequeue? || call.DequeueFor? then Consumer else if call.Enqueue? then Producer else OtherProducer
    case Asleep(call) => if call.Dequeue? || call.DequeueFor? then SleepingConsumer else SleepingProducer
    case Expired => Consumer
    case NotifyingPush => PushNotifier
    case NotifyingPop(_) => PopNotifier
    case Discarding => Discarder
  }

  function Count<T>(threads: seq<Pc<T>>, k: Kind): nat {
    if threads == [] then 0
    else (if KindOf(threads[0]) == k then 1 else 0) + Count(threads[1..], k)
  }

  function Is<T>(pc: Pc<T>, k: Kind): nat {
    if KindOf(pc) == k then 1 else 0
  }

  lemma {:induction false} CountUpdate<T>(threads: seq<Pc<T>>, t: nat, pc: Pc<T>, k: Kind)
    requires t < |threads|
    ensures Count(threads[t := pc], k) == Count(threads, k) - Is(threads[t], k) + Is(pc, k)
  {
    if t == 0 {
      assert threads[t := pc][1..] == threads[1..];
    } else {
      assert threads[t := pc][1..] == threads[1..][t - 1 := pc];
      CountUpdate(threads[1..], t - 1, pc, k);
    }
  }

  lemma CountUpdates<T>(threads: seq<Pc<T>>, t: nat, pc: Pc<T>)
    requires t < |threads|
    ensures forall k :: Count(threads[t := pc], k) == Count(threads, k) - Is(threads[t], k) + Is(pc, k)
  {
    forall k ensures Count(threads[t := pc], k) == Count(threads, k) - Is(threads[t], k) + Is(pc, k) {
      CountUpdate(threads, t, pc, k);
    }
  }

  lemma {:induction false} CountIsPositive<T>(threads: seq<Pc<T>>, k: Kind)
    ensures Count(threads, k) > 0 <==> exists t :: 0 <= t < |threads| && KindOf(threads[t]) == k
  {
    if threads != [] {
      CountIsPositive(threads[1..], k);
      assert forall t :: 1 <= t < |threads| ==> threads[t] == threads[1..][t - 1];
      if Count(threads[1..], k) > 0 {
        var t :| 0 <= t < |threads[1..]| && KindOf(threads[1..][t]) == k;
        assert KindOf(threads[t + 1]) == k;
      }
    }
  }

  // The invariant.

  function Items<T>(removed: seq<Removal<T>>): seq<T> {
    seq(|removed|, i requires 0 <= i < |removed| => removed[i].item)
  }

  function Overruns<T>(removed: seq<Removal<T>>): nat {
    if removed == [] then 0
    else Overruns(removed[..|removed| - 1]) + if removed[|removed| - 1].Overrun? then 1 else 0
  }

  /** Every item a sleeping consumer could take is covered by a wake-up that is still to come. */
  ghost predicate ConsumersCovered<T>(s: State<T>) {
    Count(s.threads, SleepingConsumer) > 0 ==>
      |s.q.items| <= Count(s.threads, PushNotifier) + Count(s.threads, Consumer)
  }

  /** Dually, every free slot a sleeping producer could fill. */
  ghost predicate ProducersCovered<T>(s: State<T>) {
    Count(s.threads, SleepingProducer) > 0 ==>
      s.q.capacity - |s.q.items| <= Count(s.threads, PopNotifier) + Count(s.threads, Producer)
  }

  ghost predicate ItemsConserved<T>(s: State<T>) {
    && s.accepted == Items(s.removed) + s.q.items
    && s.q.overruns == Overruns(s.removed)
    && |s.rejected| == s.discards + Count(s.threads, Discarder)
  }

  ghost predicate WellFormed<T>(s: State<T>) {
    && s.q.Valid() && s.q.enabled
    && forall t :: 0 <= t < |s.threads| ==>
         s.threads[t].Asleep? ==> s.threads[t].call.Enqueue? || SleepsOnPush(s.threads[t])
  }

  ghost predicate Inv<T>(s: State<T>) {
    WellFormed(s) && ItemsConserved(s) && ConsumersCovered(s) && ProducersCovered(s)
  }

  lemma {:induction false} InitCounts<T>(n: nat, k: Kind)
    ensures Count(seq(n, _ => Pc<T>.Idle), k) == if k == Resting then n else 0
  {
    if n > 0 {
      assert seq(n, _ => Pc<T>.Idle)[1..] == seq(n - 1, _ => Pc<T>.Idle);
      InitCounts<T>(n - 1, k);
    }
  }

  lemma InitInv<T>(capacity: nat, n: nat)
    ensures Inv(Init<T>(capacity, n))
  {
    InitCounts<T>(n, SleepingConsumer);
    InitCounts<T>(n, SleepingProducer);
    InitCounts<T>(n, Discarder);
  }

  lemma NextWellFormed<T>(s: State<T>, step: Step<T>)
    requires WellFormed(s) && Enabled(s, step)
    ensures WellFormed(Next(s, step)) && Next(s, step).q.capacity == s.q.capacity
  {
  }

  lemma RemovedGrows<T>(removed: seq<Removal<T>>, r: Removal<T>)
    ensures Items(removed + [r]) == Items(removed) + [r.item]
    ensures Overruns(removed + [r]) == Overruns(removed) + if r.Overrun? then 1 else 0
  {
    assert (removed + [r])[..|removed|] == removed;
  }

  lemma RemovedNothing<T>()
    ensures Items<T>([]) == []
  {
  }

  /** By how much a step changes the number of threads of a kind. */
  function Change<T>(s: State<T>, step: Step<T>, k: Kind): int
    requires Enabled(s, step)
  {
    var s' := Next(s, step);
    Is(s'.threads[step.t], k) - Is(s.threads[step.t], k)
    + if step.Notify? && step.woken.Thread? then Is(s'.threads[step.woken.t], k) - Is(s.threads[step.woken.t], k) else 0
  }

  lemma NextCounts<T>(s: State<T>, step: Step<T>)
    requires Enabled(s, step)
    ensures forall k :: Count(Next(s, step).threads, k) == Count(s.threads, k) + Change(s, step, k)
  {
    var s' := Next(s, step);
    if step.Notify? && step.woken.Thread? {
      var rest := s.threads[step.t := Idle];
      CountUpdates(s.threads, step.t, Idle);
      CountUpdates(rest, step.woken.t, AtLock(rest[step.woken.t].call));
    } else {
      CountUpdates(s.threads, step.t, s'.threads[step.t]);
      assert s'.threads == s.threads[step.t := s'.threads[step.t]];
    }
  }

  lemma PushConserves<T>(s: State<T>, t: nat, item: T)
    requires WellFormed(s) && t < |s.threads|
    requires s.accepted == Items(s.removed) + s.q.items && s.q.overruns == Overruns(s.removed)
    ensures var s' := PushItem(s, t, item);
            s'.accepted == Items(s'.removed) + s'.q.items && s'.q.overruns == Overruns(s'.removed)
  {
    if s.q.Full() {
      RemovedGrows(s.removed, Overrun((s.q.items + [item])[0]));
    } else {
      assert s.removed + [] == s.removed;
    }
  }

  lemma PopConserves<T>(s: State<T>, t: nat)
    requires WellFormed(s) && t < |s.threads| && s.q.items != []
    requires s.accepted == Items(s.removed) + s.q.items && s.q.overruns == Overruns(s.removed)
    ensures var s' := PopItem(s, t);
            s'.accepted == Items(s'.removed) + s'.q.items && s'.q.overruns == Overruns(s'.removed)
  {
    RemovedGrows(s.removed, Taken(t, s.q.items[0]));
  }

  lemma InLockConserves<T>(s: State<T>, t: nat)
    requires WellFormed(s) && t < |s.threads| && (s.threads[t].AtLock? || s.threads[t].Expired?)
    requires s.accepted == Items(s.removed) + s.q.items && s.q.overruns == Overruns(s.removed)
    ensures var s' := InLock(s, t);
            s'.accepted == Items(s'.removed) + s'.q.items && s'.q.overruns == Overruns(s'.removed)
  {
    if s.threads[t].AtLock? && !s.threads[t].call.Dequeue? && !s.threads[t].call.DequeueFor? {
      PushConserves(s, t, s.threads[t].call.item);
    } else if s.q.items != [] {
      PopConserves(s, t);
    }
  }

  lemma NextDiscards<T>(s: State<T>, step: Step<T>)
    requires Enabled(s, step) && |s.rejected| == s.discards + Count(s.threads, Discarder)
    ensures |Next(s, step).rejected| == Next(s, step).discards + Count(Next(s, step).threads, Discarder)
  {
    hide Count;
    NextCounts(s, step);
  }

  lemma NextConserves<T>(s: State<T>, step: Step<T>)
    requires WellFormed(s) && ItemsConserved(s) && Enabled(s, step)
    ensures ItemsConserved(Next(s, step))
  {
    hide Count, Items, Overruns;
    NextDiscards(s, step);
    if step.Locked? {
      InLockConserves(s, step.t);
    }
  }

  lemma NextCoversConsumers<T>(s: State<T>, step: Step<T>)
    requires WellFormed(s) && ConsumersCovered(s) && Enabled(s, step)
    ensures ConsumersCovered(Next(s, step))
  {
    hide Count;
    NextCounts(s, step);
    CountIsPositive(s.threads, SleepingConsumer);
  }

  lemma NextCoversProducers<T>(s: State<T>, step: Step<T>)
    requires WellFormed(s) && ProducersCovered(s) && Enabled(s, step)
    ensures ProducersCovered(Next(s, step))
  {
    hide Count;
    NextCounts(s, step);
    CountIsPositive(s.threads, SleepingProducer);
  }

  lemma NextCovers<T>(s: State<T>, step: Step<T>)
    requires WellFormed(s) && ConsumersCovered(s) && ProducersCovered(s) && Enabled(s, step)
    ensures ConsumersCovered(Next(s, step)) && ProducersCovered(Next(s, step))
  {
    NextCoversConsumers(s, step);
    NextCoversProducers(s, step);
  }

  lemma NextInv<T>(s: State<T>, step: Step<T>)
    requires Inv(s) && Enabled(s, step)
    ensures Inv(Next(s, step)) && Next(s, step).q.capacity == s.q.capacity
  {
    NextWellFormed(s, step);
    NextConserves(s, step);
    NextCovers(s, step);
  }

  lemma {:induction false} RunInv<T>(s: State<T>, steps: seq<Step<T>>)
    requires Inv(s) && IsRun(s, steps)
    ensures Inv(Run(s, steps)) && Run(s, steps).q.capacity == s.q.capacity
    ensures |Run(s, steps).threads| == |s.threads|
    decreases |steps|
  {
    if steps != [] {
      NextInv(s, steps[0]);
      RunInv(Next(s, steps[0]), steps[1..]);
    }
  }

  // Safety over every run.

  ghost predicate Reachable<T(!new)>(s: State<T>) {
    exists capacity: nat, n: nat, steps: seq<Step<T>> ::
      IsRun(Init<T>(capacity, n), steps) && Run(Init<T>(capacity, n), steps) == s
  }

  lemma ReachableInv<T(!new)>(s: State<T>)
    requires Reachable(s)
    ensures Inv(s)
  {
    var capacity: nat, n: nat, steps: seq<Step<T>> :|
      IsRun(Init<T>(capacity, n), steps) && Run(Init<T>(capacity, n), steps) == s;
    InitInv<T>(capacity, n);
    RunInv(Init<T>(capacity, n), steps);
  }

  /** In every reachable state of any number of threads, no item and no free slot is forgotten. */
  lemma NoLostWakeup<T(!new)>(s: State<T>)
    requires Reachable(s)
    ensures ConsumersCovered(s) && ProducersCovered(s)
    ensures |s.q.items| <= s.q.capacity
  {
    ReachableInv(s);
  }

  /** In every reachable state the removed items followed by the stored ones are the accepted ones, in order. */
  lemma FifoConservation<T(!new)>(s: State<T>)
    requires Reachable(s)
    ensures s.accepted == Items(s.removed) + s.q.items
    ensures s.q.overruns == Overruns(s.removed)
    ensures |s.rejected| == s.discards + Count(s.threads, Discarder)
  {
    ReachableInv(s);
  }

  /** Only idle and sleeping threads: nothing moves without a new call, a timeout or a spurious wake-up. */
  ghost predicate Quiescent<T>(s: State<T>) {
    forall t :: 0 <= t < |s.threads| ==> s.threads[t].Idle? || s.threads[t].Asleep?
  }

  lemma QuiescentCounts<T>(s: State<T>, k: Kind)
    requires Quiescent(s) && k != Resting && k != SleepingConsumer && k != SleepingProducer
    ensures Count(s.threads, k) == 0
  {
    CountIsPositive(s.threads, k);
  }

  /** Whoever still sleeps when all activity is over has to: its condition is false. */
  lemma QuiescentSleepersMustSleep<T>(s: State<T>)
    requires Inv(s) && Quiescent(s)
    ensures (exists t :: 0 <= t < |s.threads| && SleepsOnPush(s.threads[t])) ==> s.q.items == []
    ensures (exists t :: 0 <= t < |s.threads| && SleepsOnPop(s.threads[t])) ==> s.q.Full()
  {
    QuiescentCounts(s, PushNotifier);
    QuiescentCounts(s, Consumer);
    QuiescentCounts(s, PopNotifier);
    QuiescentCounts(s, Producer);
    CountIsPositive(s.threads, SleepingConsumer);
    CountIsPositive(s.threads, SleepingProducer);
    forall t | 0 <= t < |s.threads| && SleepsOnPush(s.threads[t]) ensures s.q.items == [] {
      assert KindOf(s.threads[t]) == SleepingConsumer;
    }
    forall t | 0 <= t < |s.threads| && SleepsOnPop(s.threads[t]) ensures s.q.Full() {
      assert KindOf(s.threads[t]) == SleepingProducer;
    }
  }

  /** A consumer and a producer wait for each other and nobody is left to wake either. */
  ghost predicate Deadlocked<T>(s: State<T>) {
    && Quiescent(s)
    && (exists t :: 0 <= t < |s.threads| && SleepsOnPush(s.threads[t]))
    && (exists t :: 0 <= t < |s.threads| && SleepsOnPop(s.threads[t]))
  }

  /** Two or more threads can deadlock on the queue exactly when it was built without any room. */
  lemma DeadlockIffNoCapacity<T>(capacity: nat, n: nat, x: T)
    requires n >= 2
    ensures (exists steps: seq<Step<T>> :: IsRun(Init<T>(capacity, n), steps) && Deadlocked(Run(Init<T>(capacity, n), steps)))
       <==> capacity == 0
  {
    if capacity == 0 {
      ZeroCapacityDeadlocks(n, x);
    } else {
      forall steps: seq<Step<T>> | IsRun(Init<T>(capacity, n), steps) ensures !Deadlocked(Run(Init<T>(capacity, n), steps)) {
        InitInv<T>(capacity, n);
        RunInv(Init<T>(capacity, n), steps);
        if Quiescent(Run(Init<T>(capacity, n), steps)) {
          QuiescentSleepersMustSleep(Run(Init<T>(capacity, n), steps));
        }
      }
    }
  }

  lemma ZeroCapacityDeadlocks<T>(n: nat, x: T)
    requires n >= 2
    ensures exists steps: seq<Step<T>> :: IsRun(Init<T>(0, n), steps) && Deadlocked(Run(Init<T>(0, n), steps))
  {
    var s0 := Init<T>(0, n);
    var s1 := Next(s0, Start(0, Dequeue));
    var s2 := Next(s1, Locked(0));
    var s3 := Next(s2, Start(1, Enqueue(x)));
    var s4 := Next(s3, Locked(1));
    var tail: seq<Step<T>> := [Locked(1)];
    var tail3 := [Start(1, Enqueue(x))] + tail;
    var tail2 := [Step<T>.Locked(0)] + tail3;
    var steps := [Step<T>.Start(0, Dequeue)] + tail2;
    assert tail[1..] == [] && tail3[1..] == tail && tail2[1..] == tail3 && steps[1..] == tail2;
    assert IsRun(s3, tail) && Run(s3, tail) == s4;
    assert IsRun(s2, tail3) && Run(s2, tail3) == s4;
    assert IsRun(s1, tail2) && Run(s1, tail2) == s4;
    assert IsRun(s0, steps) && Run(s0, steps) == s4;
    assert SleepsOnPush(s4.threads[0]) && SleepsOnPop(s4.threads[1]);
    assert Deadlocked(s4);
  }

  // Progress: calls in flight finish, or end up asleep for good reason.

  /** Steps the threads take by themselves. */
  predicate Internal<T>(step: Step<T>) {
    step.Locked? || step.Notify? || step.CountDiscard?
  }

  function Weight(k: Kind): nat {
    match k
    case Resting => 0
    case Consumer => 4
    case Producer => 4
    case OtherProducer => 4
    case SleepingConsumer => 3
    case SleepingProducer => 3
    case PushNotifier => 2
    case PopNotifier => 2
    case Discarder => 1
  }

  function Work<T>(threads: seq<Pc<T>>): nat {
    if threads == [] then 0 else Weight(KindOf(threads[0])) + Work(threads[1..])
  }

  lemma {:induction false} WorkUpdate<T>(threads: seq<Pc<T>>, t: nat, pc: Pc<T>)
    requires t < |threads|
    ensures Work(threads[t := pc]) == Work(threads) - Weight(KindOf(threads[t])) + Weight(KindOf(pc))
  {
    if t == 0 {
      assert threads[t := pc][1..] == threads[1..];
    } else {
      assert threads[t := pc][1..] == threads[1..][t - 1 := pc];
      WorkUpdate(threads[1..], t - 1, pc);
    }
  }

  lemma LockedWork<T>(s: State<T>, t: nat)
    requires Enabled(s, Locked(t))
    ensures Work(Next(s, Locked(t)).threads) == Work(s.threads) - 4 + Weight(KindOf(Next(s, Locked(t)).threads[t]))
  {
    hide Work;
    var after := Next(s, Locked(t)).threads;
    assert after == s.threads[t := after[t]];
    WorkUpdate(s.threads, t, after[t]);
  }

  lemma StartWork<T>(s: State<T>, t: nat, call: Call<T>)
    requires Enabled(s, Start(t, call))
    ensures Work(Next(s, Start(t, call)).threads) == Work(s.threads) + 4
  {
    hide Work;
    WorkUpdate(s.threads, t, AtLock(call));
  }

  lemma NotifyWork<T>(s: State<T>, t: nat, woken: Waiter)
    requires WellFormed(s) && Enabled(s, Notify(t, woken))
    ensures Work(Next(s, Notify(t, woken)).threads) == Work(s.threads) - if woken.Thread? then 1 else 2
  {
    hide Work;
    var rest := s.threads[t := Idle];
    WorkUpdate(s.threads, t, Idle);
    if woken.Thread? {
      WorkUpdate(rest, woken.t, AtLock(rest[woken.t].call));
    }
  }

  lemma InternalStepWorks<T>(s: State<T>, step: Step<T>)
    requires WellFormed(s) && Enabled(s, step) && Internal(step)
    ensures Work(Next(s, step).threads) < Work(s.threads)
  {
    hide Work;
    match step
    case Locked(t) => LockedWork(s, t);
    case Notify(t, woken) => NotifyWork(s, t, woken);
    case CountDiscard(t) => WorkUpdate(s.threads, t, Idle);
  }

  /** Left alone, the threads stop after a bounded number of steps, whatever the scheduler does. */
  lemma InternalRunsAreBounded<T(!new)>(s: State<T>, steps: seq<Step<T>>)
    requires Reachable(s) && IsRun(s, steps)
    requires forall i :: 0 <= i < |steps| ==> Internal(steps[i])
    ensures |steps| <= Work(s.threads)
  {
    ReachableInv(s);
    InternalRunBound(s, steps);
  }

  lemma {:induction false} InternalRunBound<T>(s: State<T>, steps: seq<Step<T>>)
    requires Inv(s) && IsRun(s, steps)
    requires forall i :: 0 <= i < |steps| ==> Internal(steps[i])
    ensures |steps| + Work(Run(s, steps).threads) <= Work(s.threads)
    decreases |steps|
  {
    hide Next, Work, ItemsConserved, ConsumersCovered, ProducersCovered;
    if steps != [] {
      NextInv(s, steps[0]);
      InternalStepWorks(s, steps[0]);
      InternalRunBound(Next(s, steps[0]), steps[1..]);
    }
  }

  lemma SomeWaiter<T>(threads: seq<Pc<T>>, sleeps: Pc<T> -> bool) returns (woken: Waiter)
    ensures MayWake(threads, woken, sleeps)
  {
    if u :| 0 <= u < |threads| && sleeps(threads[u]) {
      woken := Thread(u);
    } else {
      woken := Nobody;
    }
  }

  /** They stop nowhere but in a quiescent state. */
  lemma InternalStepExists<T>(s: State<T>) returns (step: Step<T>)
    requires !Quiescent(s)
    ensures Internal(step) && Enabled(s, step)
  {
    var t :| 0 <= t < |s.threads| && !s.threads[t].Idle? && !s.threads[t].Asleep?;
    if s.threads[t].NotifyingPush? {
      var woken := SomeWaiter(s.threads, SleepsOnPush);
      step := Notify(t, woken);
    } else if s.threads[t].NotifyingPop? {
      var woken := SomeWaiter(s.threads, SleepsOnPop);
      step := Notify(t, woken);
    } else if s.threads[t].Discarding? {
      step := CountDiscard(t);
    } else {
      step := Locked(t);
    }
  }

  /**
   A maximal run of the threads on their own, from any reachable state: no consumer is left asleep
   while there is an item, no producer while there is room, and with room for one item not both.
   */
  lemma MaximalRunServesEverybody<T(!new)>(s: State<T>, steps: seq<Step<T>>)
    requires Reachable(s) && IsRun(s, steps)
    requires forall step :: Internal(step) ==> !Enabled(Run(s, steps), step)
    ensures var r := Run(s, steps);
            && Quiescent(r)
            && (r.q.items != [] ==> forall t :: 0 <= t < |r.threads| ==> !SleepsOnPush(r.threads[t]))
            && (!r.q.Full() ==> forall t :: 0 <= t < |r.threads| ==> !SleepsOnPop(r.threads[t]))
            && (r.q.capacity > 0 ==> !Deadlocked(r))
  {
    ReachableInv(s);
    RunInv(s, steps);
    var r := Run(s, steps);
    if !Quiescent(r) {
      var step := InternalStepExists(r);
    }
    QuiescentSleepersMustSleep(r);
  }
}
