/**
 What a run of the threads of `BlockingQueue` looks like from outside.

 Every look at the queue under the lock is told by the thread that looked: by where it stood before
 and where it stands afterwards. Read in the order of the lock, these answers are those of one bounded
 queue that is used by a single thread.
 */
module QueueHistory {
  import opened Options
  import opened BlockingQueue

  datatype Op<+T> =
    | Stored(item: T)             // enqueue or enqueue_if_have_room went on to notify a consumer
    | Forced(item: T)             // enqueue_nowait did
    | Refused(item: T)            // enqueue_if_have_room went on to count a discarded item
    | Took(thread: nat, item: T)  // dequeue or dequeue_for left with an item
    | FoundFull                   // enqueue went to sleep
    | FoundEmpty                  // dequeue or dequeue_for went to sleep, or gave up after its deadline
    | Nonsense                    // none of these

  ghost function Observed<T>(t: nat, before: Pc<T>, after: Pc<T>): Op<T> {
    match (before, after)
    case (AtLock(Enqueue(x)), NotifyingPush) => Stored(x)
    case (AtLock(EnqueueIfHaveRoom(x)), NotifyingPush) => Stored(x)
    case (AtLock(EnqueueNowait(x)), NotifyingPush) => Forced(x)
    case (AtLock(EnqueueIfHaveRoom(x)), Discarding) => Refused(x)
    case (AtLock(Enqueue(x)), Asleep(call)) => if call == Enqueue(x) then FoundFull else Nonsense
    case (AtLock(Dequeue), NotifyingPop(x)) => Took(t, x)
    case (AtLock(DequeueFor), NotifyingPop(x)) => Took(t, x)
    case (Expired, NotifyingPop(x)) => Took(t, x)
    case (AtLock(Dequeue), Asleep(call)) => if call == Dequeue then FoundEmpty else Nonsense
    case (AtLock(DequeueFor), Asleep(call)) => if call == DequeueFor then FoundEmpty else Nonsense
    case (Expired, Idle) => FoundEmpty
    case _ => Nonsense
  }

  /** The answers of a run, in the order in which the threads held the lock. */
  ghost function History<T>(s: State<T>, steps: seq<Step<T>>): seq<Op<T>>
    requires IsRun(s, steps)
    decreases |steps|
  {
    if steps == [] then []
    else
      var s' := Next(s, steps[0]);
      (if steps[0].Locked? then [Observed(steps[0].t, s.threads[steps[0].t], s'.threads[steps[0].t])] else [])
      + History(s', steps[1..])
  }

  datatype Ledger<+T> = Ledger(items: seq<T>, accepted: seq<T>, removed: seq<Removal<T>>, rejected: seq<T>)

  function LedgerOf<T>(s: State<T>): Ledger<T> {
    Ledger(s.q.items, s.accepted, s.removed, s.rejected)
  }

  /** The one answer of a bounded queue to each operation: `None` where it would have answered otherwise. */
  ghost function After<T>(l: Ledger<T>, capacity: nat, op: Op<T>): Option<Ledger<T>> {
    match op
    case Stored(x) =>
      if |l.items| < capacity then Some(l.(items := l.items + [x], accepted := l.accepted + [x])) else None
    case Forced(x) =>
      var all := l.items + [x];
      if |l.items| < capacity then Some(l.(items := all, accepted := l.accepted + [x]))
      else Some(l.(items := all[1..], accepted := l.accepted + [x], removed := l.removed + [Overrun(all[0])]))
    case Refused(x) =>
      if |l.items| < capacity then None else Some(l.(rejected := l.rejected + [x]))
    case Took(t, x) =>
      if l.items == [] || l.items[0] != x then None
      else Some(l.(items := l.items[1..], removed := l.removed + [Taken(t, x)]))
    case FoundFull => if |l.items| < capacity then None else Some(l)
    case FoundEmpty => if l.items == [] then Some(l) else None
    case Nonsense => None
  }

  ghost function Replay<T>(l: Ledger<T>, capacity: nat, ops: seq<Op<T>>): Option<Ledger<T>>
    decreases |ops|
  {
    if ops == [] then Some(l)
    else match After(l, capacity, ops[0])
      case None => None
      case Some(l') => Replay(l', capacity, ops[1..])
  }

  lemma LockedAnswers<T>(s: State<T>, t: nat)
    requires WellFormed(s) && Enabled(s, Locked(t))
    ensures var s' := Next(s, Locked(t));
            After(LedgerOf(s), s.q.capacity, Observed(t, s.threads[t], s'.threads[t])) == Some(LedgerOf(s'))
  {
    assert s.removed + [] == s.removed;
  }

  lemma OthersChangeNoItems<T>(s: State<T>, step: Step<T>)
    requires Enabled(s, step) && !step.Locked?
    ensures LedgerOf(Next(s, step)) == LedgerOf(s)
  {
  }

  /**
   Every run, of any number of threads, is a run of one bounded queue: in the order of the lock each
   answer is the one that queue gives, and it ends with what is stored, accepted, removed and rejected.
   */
  lemma {:induction false} RunsLinearize<T>(s: State<T>, steps: seq<Step<T>>)
    requires WellFormed(s) && IsRun(s, steps)
    ensures Replay(LedgerOf(s), s.q.capacity, History(s, steps)) == Some(LedgerOf(Run(s, steps)))
    decreases |steps|
  {
    hide Next, Observed, After, LedgerOf;
    if steps != [] {
      var s' := Next(s, steps[0]);
      var rest := History(s', steps[1..]);
      NextWellFormed(s, steps[0]);
      RunsLinearize(s', steps[1..]);
      if steps[0].Locked? {
        LockedAnswers(s, steps[0].t);
        assert History(s, steps)[1..] == rest;
      } else {
        OthersChangeNoItems(s, steps[0]);
        assert History(s, steps) == rest;
      }
    }
  }

  // Which call is answered how.

  /** The items of the enqueue_if_have_room calls that got the lock when nothing was free, in that order. */
  function Rejections<T>(s: State<T>, steps: seq<Step<T>>): seq<T>
    requires IsRun(s, steps)
    decreases |steps|
  {
    if steps == [] then []
    else
      (if steps[0].Locked? && s.threads[steps[0].t].AtLock? && s.threads[steps[0].t].call.EnqueueIfHaveRoom?
          && |s.q.items| == s.q.capacity
       then [s.threads[steps[0].t].call.item] else [])
      + Rejections(Next(s, steps[0]), steps[1..])
  }

  /** A step rejects an item exactly if it is such a call's, and then nothing that is stored or counted changes. */
  lemma RejectionStep<T>(s: State<T>, step: Step<T>)
    requires WellFormed(s) && Enabled(s, step)
    ensures Next(s, step).rejected
         == s.rejected + if step.Locked? && s.threads[step.t].AtLock? && s.threads[step.t].call.EnqueueIfHaveRoom?
                            && |s.q.items| == s.q.capacity
                         then [s.threads[step.t].call.item] else []
    ensures Next(s, step).rejected != s.rejected ==> Next(s, step).q == s.q && Next(s, step).accepted == s.accepted
    ensures Next(s, step).rejected != s.rejected ==> Next(s, step).removed == s.removed
  {
  }

  /** In any run exactly the items of the enqueue_if_have_room calls that found the queue full are rejected, in order. */
  lemma {:induction false} RejectedWhenFull<T>(s: State<T>, steps: seq<Step<T>>)
    requires WellFormed(s) && IsRun(s, steps)
    ensures Run(s, steps).rejected == s.rejected + Rejections(s, steps)
    decreases |steps|
  {
    hide Next;
    if steps != [] {
      var s' := Next(s, steps[0]);
      NextWellFormed(s, steps[0]);
      RejectionStep(s, steps[0]);
      RejectedWhenFull(s', steps[1..]);
    }
  }

  /** Nobody is in enqueue_nowait. */
  ghost predicate NoNowait<T>(s: State<T>) {
    forall t :: 0 <= t < |s.threads| ==> s.threads[t].AtLock? || s.threads[t].Asleep? ==> !s.threads[t].call.EnqueueNowait?
  }

  lemma NoNowaitStep<T>(s: State<T>, step: Step<T>)
    requires WellFormed(s) && Enabled(s, step) && NoNowait(s)
    requires step.Start? ==> !step.call.EnqueueNowait?
    ensures NoNowait(Next(s, step)) && Next(s, step).q.overruns == s.q.overruns
    ensures Next(s, step).removed == s.removed
         || exists r: Removal<T> :: r.Taken? && Next(s, step).removed == s.removed + [r]
  {
    assert s.removed + [] == s.removed;
    if step.Locked? && s.q.items != [] {
      var r := Removal<T>.Taken(step.t, s.q.items[0]);
      assert Next(s, step).removed == s.removed || Next(s, step).removed == s.removed + [r];
    }
  }

  lemma {:induction false} NoNowaitRun<T>(s: State<T>, steps: seq<Step<T>>)
    requires WellFormed(s) && IsRun(s, steps) && NoNowait(s)
    requires forall i :: 0 <= i < |steps| ==> steps[i].Start? ==> !steps[i].call.EnqueueNowait?
    requires forall i :: 0 <= i < |s.removed| ==> s.removed[i].Taken?
    ensures Run(s, steps).q.overruns == s.q.overruns
    ensures forall i :: 0 <= i < |Run(s, steps).removed| ==> Run(s, steps).removed[i].Taken?
    decreases |steps|
  {
    hide Next, NoNowait;
    if steps != [] {
      NextWellFormed(s, steps[0]);
      NoNowaitStep(s, steps[0]);
      NoNowaitRun(Next(s, steps[0]), steps[1..]);
    }
  }

  /** Only enqueue_nowait overruns: where nobody calls it, every item that is accepted is stored until somebody takes it. */
  lemma OnlyNowaitOverruns<T>(capacity: nat, n: nat, steps: seq<Step<T>>)
    requires IsRun(Init<T>(capacity, n), steps)
    requires forall i :: 0 <= i < |steps| ==> steps[i].Start? ==> !steps[i].call.EnqueueNowait?
    ensures var s := Run(Init<T>(capacity, n), steps);
            s.q.overruns == 0 && forall i :: 0 <= i < |s.removed| ==> s.removed[i].Taken?
  {
    NoNowaitRun(Init<T>(capacity, n), steps);
  }

  // No call is lost and none is answered twice.

  ghost function Holds<T>(pc: Pc<T>, x: T): nat {
    if (pc.AtLock? || pc.Asleep?) && !pc.call.Dequeue? && !pc.call.DequeueFor? && pc.call.item == x then 1 else 0
  }

  /** How many threads have an item in their hands and have not been answered. */
  ghost function InFlight<T>(threads: seq<Pc<T>>, x: T): nat {
    if threads == [] then 0 else Holds(threads[0], x) + InFlight(threads[1..], x)
  }

  lemma {:induction false} InFlightUpdate<T>(threads: seq<Pc<T>>, t: nat, pc: Pc<T>, x: T)
    requires t < |threads|
    ensures InFlight(threads[t := pc], x) == InFlight(threads, x) - Holds(threads[t], x) + Holds(pc, x)
  {
    hide Holds;
    if t == 0 {
      assert threads[t := pc][1..] == threads[1..];
    } else {
      assert threads[t := pc][1..] == threads[1..][t - 1 := pc];
      InFlightUpdate(threads[1..], t - 1, pc, x);
    }
  }

  ghost function Offers<T>(step: Step<T>, x: T): nat {
    if step.Start? then Holds(AtLock(step.call), x) else 0
  }

  ghost function OffersAll<T>(steps: seq<Step<T>>, x: T): nat {
    if steps == [] then 0 else Offers(steps[0], x) + OffersAll(steps[1..], x)
  }

  ghost function Times<T>(items: seq<T>, x: T): nat {
    multiset(items)[x]
  }

  lemma TimesGrow<T>(items: seq<T>, y: T, x: T)
    ensures Times(items + [y], x) == Times(items, x) + if x == y then 1 else 0
  {
    assert multiset(items + [y]) == multiset(items) + multiset{y};
  }

  /** How often an item is in a caller's hands, or was accepted, or was rejected. */
  ghost function Everywhere<T>(s: State<T>, x: T): nat {
    InFlight(s.threads, x) + Times(s.accepted, x) + Times(s.rejected, x)
  }

  lemma LockedKeepsItems<T>(s: State<T>, t: nat, x: T)
    requires Enabled(s, Locked(t))
    ensures Everywhere(Next(s, Locked(t)), x) == Everywhere(s, x)
  {
    hide InFlight, Times;
    var s' := Next(s, Locked(t));
    assert s'.threads == s.threads[t := s'.threads[t]];
    InFlightUpdate(s.threads, t, s'.threads[t], x);
    if KindOf(s.threads[t]) != Consumer {
      TimesGrow(s.accepted, s.threads[t].call.item, x);
      TimesGrow(s.rejected, s.threads[t].call.item, x);
    }
  }

  lemma StepKeepsItems<T>(s: State<T>, step: Step<T>, x: T)
    requires Enabled(s, step)
    ensures Everywhere(Next(s, step), x) == Everywhere(s, x) + Offers(step, x)
  {
    hide InFlight, Times;
    var s' := Next(s, step);
    if step.Locked? {
      LockedKeepsItems(s, step.t, x);
    } else if step.Notify? && step.woken.Thread? {
      var rest := s.threads[step.t := Idle];
      InFlightUpdate(s.threads, step.t, Idle, x);
      InFlightUpdate(rest, step.woken.t, AtLock(rest[step.woken.t].call), x);
    } else {
      assert s'.threads == s.threads[step.t := s'.threads[step.t]];
      InFlightUpdate(s.threads, step.t, s'.threads[step.t], x);
    }
  }

  /** Every item that a call brought in is still in that caller's hands, or was accepted once, or was rejected once. */
  lemma {:induction false} CallsConserveItems<T>(s: State<T>, steps: seq<Step<T>>, x: T)
    requires IsRun(s, steps)
    ensures Everywhere(Run(s, steps), x) == Everywhere(s, x) + OffersAll(steps, x)
    decreases |steps|
  {
    hide Next, Everywhere, Offers;
    if steps != [] {
      StepKeepsItems(s, steps[0], x);
      CallsConserveItems(Next(s, steps[0]), steps[1..], x);
    }
  }

  // The consuming calls.

  function Waiting<T>(s: State<T>): nat {
    Count(s.threads, Consumer) + Count(s.threads, SleepingConsumer)
  }

  function Takes<T>(removed: seq<Removal<T>>): nat {
    if removed == [] then 0
    else Takes(removed[..|removed| - 1]) + if removed[|removed| - 1].Taken? then 1 else 0
  }

  lemma TakesGrow<T>(removed: seq<Removal<T>>, r: Removal<T>)
    ensures Takes(removed + [r]) == Takes(removed) + if r.Taken? then 1 else 0
  {
    assert (removed + [r])[..|removed|] == removed;
  }

  function Asks<T>(step: Step<T>): nat {
    if step.Start? && (step.call.Dequeue? || step.call.DequeueFor?) then 1 else 0
  }

  /** A dequeue_for whose deadline passed looks once more, and there is nothing. */
  function GivesUp<T>(s: State<T>, step: Step<T>): nat
    requires Enabled(s, step)
  {
    if step.Locked? && s.threads[step.t].Expired? && s.q.items == [] then 1 else 0
  }

  function AsksAll<T>(steps: seq<Step<T>>): nat {
    if steps == [] then 0 else Asks(steps[0]) + AsksAll(steps[1..])
  }

  function GivesUpAll<T>(s: State<T>, steps: seq<Step<T>>): nat
    requires IsRun(s, steps)
    decreases |steps|
  {
    if steps == [] then 0 else GivesUp(s, steps[0]) + GivesUpAll(Next(s, steps[0]), steps[1..])
  }

  lemma RemovedByStep<T>(s: State<T>, step: Step<T>)
    requires WellFormed(s) && Enabled(s, step)
    ensures var took := step.Locked? && KindOf(s.threads[step.t]) == Consumer && s.q.items != [];
            Takes(Next(s, step).removed) == Takes(s.removed) + if took then 1 else 0
  {
    hide Takes;
    assert s.removed + [] == s.removed;
    if step.Locked? {
      if KindOf(s.threads[step.t]) == Consumer {
        if s.q.items != [] {
          TakesGrow(s.removed, Taken(step.t, s.q.items[0]));
        }
      } else {
        TakesGrow(s.removed, Overrun((s.q.items + [s.threads[step.t].call.item])[0]));
      }
    }
  }

  lemma StepKeepsConsumers<T>(s: State<T>, step: Step<T>)
    requires WellFormed(s) && Enabled(s, step)
    ensures Waiting(Next(s, step)) + Takes(Next(s, step).removed) + GivesUp(s, step)
         == Waiting(s) + Takes(s.removed) + Asks(step)
  {
    hide Count, Takes;
    NextCounts(s, step);
    RemovedByStep(s, step);
  }

  /** Every consuming call still waits, or took exactly one item, or gave up after its deadline on an empty queue. */
  lemma {:induction false} ConsumersConserved<T>(s: State<T>, steps: seq<Step<T>>)
    requires WellFormed(s) && IsRun(s, steps)
    ensures var r := Run(s, steps);
            Waiting(r) + Takes(r.removed) + GivesUpAll(s, steps) == Waiting(s) + Takes(s.removed) + AsksAll(steps)
    decreases |steps|
  {
    hide Next, Waiting, Takes, GivesUp, Asks;
    if steps != [] {
      NextWellFormed(s, steps[0]);
      StepKeepsConsumers(s, steps[0]);
      ConsumersConserved(Next(s, steps[0]), steps[1..]);
    }
  }
}
