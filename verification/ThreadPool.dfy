/**
 The asynchronous worker pool: n workers in their dequeue loops, any number of posting threads, and
 the destructor, which posts one terminate message per worker with the blocking policy and then joins
 the workers in order. All of them interleave over the steps of `BlockingQueue`.

 Threads 0 to n-1 are the workers, thread n runs the destructor, the rest post messages and have to
 be finished before destruction begins.
 */
module ThreadPool {
  import B = BlockingQueue

  datatype Msg = Log(id: nat) | Flush(id: nat) | Terminate

  /** Where a worker is in worker_loop_. */
  datatype Phase = Ready | InDequeue | Handling(msg: Msg) | Exited

  datatype Pool = Pool(
    q: B.State<Msg>,
    phases: seq<Phase>,
    handled: seq<seq<Msg>>,
    destructing: bool,
    posted: nat,
    joined: nat)
  {
    function N(): nat { |phases| }
  }

  datatype Step =
    | Post(t: nat, call: B.Call<Msg>)
    | BeginDequeue(w: nat)
    | Handle(w: nat)
    | Queue(step: B.Step<Msg>)
    | BeginDestruction
    | PostTerminate
    | Join

  function Init(capacity: nat, workers: nat, posters: nat): Pool {
    Pool(B.Init(capacity, workers + 1 + posters), seq(workers, _ => Ready), seq(workers, _ => []), false, 0, 0)
  }

  /** post_async_msg_ with one of the three overflow policies. */
  predicate IsPost(call: B.Call<Msg>) {
    !call.Dequeue? && !call.DequeueFor?
  }

  predicate Enabled(p: Pool, step: Step) {
    p.N() < |p.q.threads| &&
    match step
    case Post(t, call) =>
      !p.destructing && p.N() < t < |p.q.threads| && p.q.threads[t].Idle? && IsPost(call) && call.item != Terminate
    case BeginDequeue(w) => w < p.N() && p.phases[w].Ready? && p.q.threads[w].Idle?
    case Handle(w) => w < p.N() && w < |p.handled| && p.phases[w].Handling?
    case Queue(step) => !step.Start? && !step.Expire? && B.Enabled(p.q, step)
    case BeginDestruction =>
      !p.destructing && forall t :: p.N() < t < |p.q.threads| ==> p.q.threads[t].Idle?
    case PostTerminate => p.destructing && p.posted < p.N() && p.q.threads[p.N()].Idle?
    case Join =>
      p.destructing && p.posted == p.N() && p.q.threads[p.N()].Idle? && p.joined < p.N() && p.phases[p.joined].Exited?
  }

  function Next(p: Pool, step: Step): Pool
    requires Enabled(p, step)
  {
    match step
    case Post(t, call) => p.(q := B.Next(p.q, B.Start(t, call)))
    case BeginDequeue(w) => p.(q := B.Next(p.q, B.Start(w, B.Dequeue)), phases := p.phases[w := InDequeue])
    case Handle(w) =>
      var msg := p.phases[w].msg;
      p.(handled := p.handled[w := p.handled[w] + [msg]],
         phases := p.phases[w := if msg.Terminate? then Exited else Ready])
    case Queue(step) =>
      var t := step.t;
      p.(q := B.Next(p.q, step),
         phases := if step.Notify? && t < p.N() && p.q.threads[t].NotifyingPop?
                   then p.phases[t := Handling(p.q.threads[t].popped)] else p.phases)
    case BeginDestruction => p.(destructing := true)
    case PostTerminate =>
      p.(q := B.Next(p.q, B.Start(p.N(), B.Enqueue(Terminate))), posted := p.posted + 1)
    case Join => p.(joined := p.joined + 1)
  }

  predicate IsRun(p: Pool, steps: seq<Step>)
    decreases |steps|
  {
    steps == [] || (Enabled(p, steps[0]) && IsRun(Next(p, steps[0]), steps[1..]))
  }

  function Run(p: Pool, steps: seq<Step>): Pool
    requires IsRun(p, steps)
    decreases |steps|
  {
    if steps == [] then p else Run(Next(p, steps[0]), steps[1..])
  }

  // Sums over the workers.

  function Sum(xs: seq<nat>): nat {
    if xs == [] then 0 else xs[0] + Sum(xs[1..])
  }

  lemma {:induction false} SumUpdate(xs: seq<nat>, i: nat, x: nat)
    requires i < |xs|
    ensures Sum(xs[i := x]) == Sum(xs) - xs[i] + x
  {
    if i == 0 {
      assert xs[i := x][1..] == xs[1..];
    } else {
      assert xs[i := x][1..] == xs[1..][i - 1 := x];
      SumUpdate(xs[1..], i - 1, x);
    }
  }

  /** A 0/1 sum is full exactly when every entry is 1. */
  lemma {:induction false} SumOfBits(xs: seq<nat>)
    requires forall i :: 0 <= i < |xs| ==> xs[i] <= 1
    ensures Sum(xs) <= |xs|
    ensures Sum(xs) == |xs| <==> forall i :: 0 <= i < |xs| ==> xs[i] == 1
  {
    if xs != [] {
      SumOfBits(xs[1..]);
      assert forall i :: 1 <= i < |xs| ==> xs[i] == xs[1..][i - 1];
      assert forall i :: 0 <= i < |xs| - 1 ==> xs[1..][i] == xs[i + 1];
    }
  }

  // The invariant, in four parts.

  predicate WorkerAgrees(phase: Phase, pc: B.Pc<Msg>) {
    if phase.InDequeue? then pc == B.AtLock(B.Dequeue) || pc == B.Asleep(B.Dequeue) || pc.NotifyingPop?
    else pc.Idle?
  }

  predicate DestructorAgrees(pc: B.Pc<Msg>) {
    pc.Idle? || pc == B.AtLock(B.Enqueue(Terminate)) || pc == B.Asleep(B.Enqueue(Terminate)) || pc.NotifyingPush?
  }

  predicate PosterAgrees(pc: B.Pc<Msg>) {
    match pc
    case AtLock(call) => IsPost(call) && call.item != Terminate
    case Asleep(call) => call.Enqueue? && call.item != Terminate
    case _ => pc.Idle? || pc.NotifyingPush? || pc.Discarding?
  }

  ghost predicate Shape(p: Pool) {
    && 1 <= p.N() == |p.handled| && p.N() < |p.q.threads|
    && p.posted <= p.N() && p.joined <= p.N()
    && (forall w :: 0 <= w < p.N() ==> WorkerAgrees(p.phases[w], p.q.threads[w]))
    && DestructorAgrees(p.q.threads[p.N()])
    && (forall t :: p.N() < t < |p.q.threads| ==> PosterAgrees(p.q.threads[t]))
    && (!p.destructing ==> p.posted == 0 && p.joined == 0)
    && (p.posted == 0 ==> p.q.threads[p.N()].Idle?)
    && (p.destructing ==> forall t :: p.N() < t < |p.q.threads| ==> p.q.threads[t].Idle?)
    && (p.joined > 0 ==> p.posted == p.N() && p.q.threads[p.N()].Idle?)
    && (forall w :: 0 <= w < p.joined ==> p.phases[w].Exited?)
  }

  /** The destructor has begun its latest post and not yet got it into the queue. */
  function InFlight(p: Pool): nat
    requires p.N() < |p.q.threads|
  {
    if p.q.threads[p.N()].AtLock? || p.q.threads[p.N()].Asleep? then 1 else 0
  }

  function HasTerminate(phase: Phase, pc: B.Pc<Msg>): nat {
    if phase.Exited? || phase == Handling(Terminate) || (phase.InDequeue? && pc == B.NotifyingPop(Terminate)) then 1 else 0
  }

  function TerminateBits(p: Pool): seq<nat>
    requires p.N() < |p.q.threads|
  {
    seq(p.N(), w requires 0 <= w < p.N() => HasTerminate(p.phases[w], p.q.threads[w]))
  }

  ghost predicate TerminatesLast(s: seq<Msg>) {
    forall i, j :: 0 <= i < j < |s| && s[i].Terminate? ==> s[j].Terminate?
  }

  /** Every terminate message in the queue was posted, and is still there or with one worker. */
  ghost predicate TerminatesCounted(p: Pool)
    requires Shape(p)
  {
    && multiset(p.q.accepted)[Terminate] == p.posted - InFlight(p)
    && multiset(p.q.accepted)[Terminate] == multiset(p.q.q.items)[Terminate] + Sum(TerminateBits(p))
  }

  ghost predicate Terminates(p: Pool)
    requires Shape(p)
  {
    && TerminatesCounted(p)
    && TerminatesLast(p.q.accepted)
    && (p.q.q.capacity == 0 ==> Terminate !in p.q.accepted)
  }

  function TakenBy(removed: seq<B.Removal<Msg>>, w: nat): seq<Msg> {
    if removed == [] then []
    else
      var last := removed[|removed| - 1];
      TakenBy(removed[..|removed| - 1], w) + if last.Taken? && last.thread == w then [last.item] else []
  }

  function InHand(phase: Phase, pc: B.Pc<Msg>): seq<Msg> {
    if phase.Handling? then [phase.msg]
    else if phase.InDequeue? && pc.NotifyingPop? then [pc.popped]
    else []
  }

  ghost predicate HandledWell(phase: Phase, handled: seq<Msg>) {
    if phase.Exited?
    then handled != [] && handled[|handled| - 1] == Terminate && Terminate !in handled[..|handled| - 1]
    else Terminate !in handled
  }

  ghost predicate Handled(p: Pool)
    requires Shape(p)
  {
    && (forall w :: 0 <= w < p.N() ==>
          TakenBy(p.q.removed, w) == p.handled[w] + InHand(p.phases[w], p.q.threads[w]))
    && (forall w :: 0 <= w < p.N() ==> HandledWell(p.phases[w], p.handled[w]))
    && (forall i :: 0 <= i < |p.q.removed| && p.q.removed[i].Taken? ==> p.q.removed[i].thread < p.N())
    && (forall i :: 0 <= i < |p.q.removed| && p.q.removed[i].Overrun? ==> p.q.removed[i].item != Terminate)
  }

  ghost predicate Inv(p: Pool) {
    B.Inv(p.q) && Shape(p) && Terminates(p) && Handled(p)
  }

  lemma {:induction false} SumOfZeros(xs: seq<nat>)
    requires forall i :: 0 <= i < |xs| ==> xs[i] == 0
    ensures Sum(xs) == 0
  {
    if xs != [] {
      SumOfZeros(xs[1..]);
    }
  }

  lemma InitInv(capacity: nat, workers: nat, posters: nat)
    requires workers >= 1
    ensures Inv(Init(capacity, workers, posters))
  {
    B.InitInv<Msg>(capacity, workers + 1 + posters);
    SumOfZeros(TerminateBits(Init(capacity, workers, posters)));
  }

  lemma LockedShape(p: Pool, t: nat)
    requires Shape(p) && Enabled(p, Queue(B.Locked(t)))
    ensures Shape(Next(p, Queue(B.Locked(t))))
  {
    var p' := Next(p, Queue(B.Locked(t)));
    assert p'.q.threads == p.q.threads[t := p'.q.threads[t]];
  }

  lemma NotifyShape(p: Pool, t: nat, woken: B.Waiter)
    requires Shape(p) && Enabled(p, Queue(B.Notify(t, woken)))
    ensures Shape(Next(p, Queue(B.Notify(t, woken))))
  {
    var rest := p.q.threads[t := B.Idle];
    var p' := Next(p, Queue(B.Notify(t, woken)));
    if woken.Thread? {
      assert p'.q.threads == rest[woken.t := B.AtLock(p.q.threads[woken.t].call)];
    }
  }

  lemma QueueShape(p: Pool, step: B.Step<Msg>)
    requires Shape(p) && Enabled(p, Queue(step))
    ensures Shape(Next(p, Queue(step)))
  {
    match step
    case Locked(t) => LockedShape(p, t);
    case Notify(t, woken) => NotifyShape(p, t, woken);
    case _ =>
  }

  lemma NextShape(p: Pool, step: Step)
    requires Shape(p) && Enabled(p, step)
    ensures Shape(Next(p, step)) && Next(p, step).N() == p.N() && |Next(p, step).q.threads| == |p.q.threads|
  {
    if step.Queue? {
      QueueShape(p, step.step);
    }
  }

  lemma NextQueueInv(p: Pool, step: Step)
    requires B.Inv(p.q) && Shape(p) && Enabled(p, step)
    ensures B.Inv(Next(p, step).q) && Next(p, step).q.q.capacity == p.q.q.capacity
  {
    match step
    case Post(t, call) => B.NextInv(p.q, B.Start(t, call));
    case BeginDequeue(w) => B.NextInv(p.q, B.Start(w, B.Dequeue));
    case Queue(s) => B.NextInv(p.q, s);
    case PostTerminate => B.NextInv(p.q, B.Start(p.N(), B.Enqueue(Terminate)));
    case _ =>
  }

  lemma MultisetTail(s: seq<Msg>)
    requires s != []
    ensures multiset(s[1..]) == multiset(s) - multiset{s[0]}
  {
    assert s == [s[0]] + s[1..];
  }

  /** Only the destructor posts terminate messages, so before it starts there are none. */
  lemma NoTerminateYet(p: Pool)
    requires Shape(p) && Terminates(p) && !p.destructing
    ensures Terminate !in p.q.accepted && Terminate !in p.q.q.items && Sum(TerminateBits(p)) == 0
  {
    assert multiset(p.q.accepted)[Terminate] == 0;
  }

  /** A step that leaves the items and every worker's terminate alone. */
  lemma FrameTerminates(p: Pool, p': Pool)
    requires Shape(p) && Terminates(p) && Shape(p') && p'.N() == p.N()
    requires p'.q.accepted == p.q.accepted && p'.q.q == p.q.q
    requires p'.posted - InFlight(p') == p.posted - InFlight(p)
    requires forall w :: 0 <= w < p.N() ==>
      HasTerminate(p'.phases[w], p'.q.threads[w]) == HasTerminate(p.phases[w], p.q.threads[w])
    ensures Terminates(p')
  {
    assert TerminateBits(p') == TerminateBits(p);
  }

  lemma OneBitChanges(p: Pool, p': Pool, w: nat)
    requires p.N() < |p.q.threads| == |p'.q.threads| && p'.N() == p.N() && w < p.N()
    requires forall u :: 0 <= u < p.N() && u != w ==>
      HasTerminate(p'.phases[u], p'.q.threads[u]) == HasTerminate(p.phases[u], p.q.threads[u])
    ensures Sum(TerminateBits(p')) == Sum(TerminateBits(p)) - HasTerminate(p.phases[w], p.q.threads[w])
                                      + HasTerminate(p'.phases[w], p'.q.threads[w])
  {
    var bit := HasTerminate(p'.phases[w], p'.q.threads[w]);
    SumUpdate(TerminateBits(p), w, bit);
    assert TerminateBits(p') == TerminateBits(p)[w := bit];
  }

  lemma PopCounted(p: Pool, w: nat)
    requires Shape(p) && TerminatesCounted(p) && w < p.N() && p.q.threads[w].AtLock? && p.q.q.items != []
    requires p.phases[w].InDequeue? && Shape(p.(q := B.PopItem(p.q, w)))
    ensures TerminatesCounted(p.(q := B.PopItem(p.q, w)))
  {
    hide Sum;
    OneBitChanges(p, p.(q := B.PopItem(p.q, w)), w);
    MultisetTail(p.q.q.items);
  }

  lemma ShapeSizes(p: Pool)
    requires Shape(p)
    ensures p.N() < |p.q.threads|
  {
  }

  lemma LockedWorkerDequeues(p: Pool, w: nat)
    requires Shape(p) && w < p.N() && p.q.threads[w].AtLock?
    ensures p.phases[w].InDequeue? && p.q.threads[w] == B.AtLock(B.Dequeue)
  {
  }

  lemma PopTerminates(p: Pool, w: nat)
    requires Shape(p) && Terminates(p) && w < p.N() && p.q.threads[w].AtLock? && p.q.q.items != []
    requires Shape(Next(p, Queue(B.Locked(w))))
    ensures Terminates(Next(p, Queue(B.Locked(w))))
  {
    hide Shape, TerminatesCounted, TerminatesLast;
    ShapeSizes(p);
    LockedWorkerDequeues(p, w);
    assert Next(p, Queue(B.Locked(w))) == p.(q := B.PopItem(p.q, w));
    PopCounted(p, w);
  }

  lemma DequeueTerminates(p: Pool, w: nat)
    requires B.Inv(p.q) && Shape(p) && Terminates(p) && w < p.N() && p.q.threads[w].AtLock?
    requires Shape(Next(p, Queue(B.Locked(w))))
    ensures Terminates(Next(p, Queue(B.Locked(w))))
  {
    if p.q.q.items == [] {
      FrameTerminates(p, Next(p, Queue(B.Locked(w))));
    } else {
      PopTerminates(p, w);
    }
  }

  lemma TerminateLastAgain(s: seq<Msg>)
    requires TerminatesLast(s)
    ensures TerminatesLast(s + [Terminate])
  {
  }

  /** The destructor's post: asleep if there is no room, and in the queue otherwise. */
  lemma DestructorCounted(p: Pool)
    requires Shape(p) && TerminatesCounted(p) && p.q.threads[p.N()] == B.AtLock(B.Enqueue(Terminate))
    requires p.q.q.Valid() && p.q.q.enabled
    requires var step := Queue(B.Locked(p.N())); Enabled(p, step) && Shape(Next(p, step))
    ensures TerminatesCounted(Next(p, Queue(B.Locked(p.N()))))
  {
    hide Sum;
    var p' := Next(p, Queue(B.Locked(p.N())));
    assert TerminateBits(p') == TerminateBits(p);
  }

  lemma DestructorTerminates(p: Pool)
    requires B.Inv(p.q) && Shape(p) && Terminates(p) && p.q.threads[p.N()].AtLock?
    ensures var step := Queue(B.Locked(p.N()));
            Enabled(p, step) && Shape(Next(p, step)) && Terminates(Next(p, step))
  {
    hide TerminatesCounted, TerminatesLast, B.ItemsConserved, B.ConsumersCovered, B.ProducersCovered;
    LockedShape(p, p.N());
    DestructorCounted(p);
    TerminateLastAgain(p.q.accepted);
  }

  lemma NoneTerminates(p: Pool)
    requires Shape(p) && p.posted == 0 && InFlight(p) == 0 && Sum(TerminateBits(p)) == 0
    requires Terminate !in p.q.accepted && Terminate !in p.q.q.items
    ensures Terminates(p)
  {
  }

  lemma PosterTerminates(p: Pool, t: nat)
    requires B.Inv(p.q) && Shape(p) && Terminates(p) && p.N() < t < |p.q.threads| && p.q.threads[t].AtLock?
    ensures var step := Queue(B.Locked(t));
            Enabled(p, step) && Shape(Next(p, step)) && Terminates(Next(p, step))
  {
    hide Sum, B.Inv, Terminates;
    var p' := Next(p, Queue(B.Locked(t)));
    LockedShape(p, t);
    NoTerminateYet(p);
    assert TerminateBits(p') == TerminateBits(p);
    NoneTerminates(p');
  }

  lemma NotifyTerminates(p: Pool, t: nat, woken: B.Waiter)
    requires Shape(p) && Terminates(p) && Enabled(p, Queue(B.Notify(t, woken)))
    ensures Shape(Next(p, Queue(B.Notify(t, woken)))) && Terminates(Next(p, Queue(B.Notify(t, woken))))
  {
    var p' := Next(p, Queue(B.Notify(t, woken)));
    NotifyShape(p, t, woken);
    FrameTerminates(p, p');
  }

  lemma LockedTerminates(p: Pool, t: nat)
    requires B.Inv(p.q) && Shape(p) && Terminates(p) && Enabled(p, Queue(B.Locked(t)))
    requires Shape(Next(p, Queue(B.Locked(t))))
    ensures Terminates(Next(p, Queue(B.Locked(t))))
  {
    if t < p.N() {
      DequeueTerminates(p, t);
    } else if t == p.N() {
      DestructorTerminates(p);
    } else {
      PosterTerminates(p, t);
    }
  }

  /** A step that removes nothing and completes no message. */
  lemma FrameHandled(p: Pool, p': Pool)
    requires Shape(p) && Handled(p) && Shape(p') && p'.N() == p.N()
    requires p'.q.removed == p.q.removed && p'.handled == p.handled
    requires forall w :: 0 <= w < p.N() ==>
      && (p'.phases[w].Exited? <==> p.phases[w].Exited?)
      && InHand(p'.phases[w], p'.q.threads[w]) == InHand(p.phases[w], p.q.threads[w])
    ensures Handled(p')
  {
  }

  lemma PopHandled(p: Pool, w: nat)
    requires Shape(p) && Handled(p) && w < p.N() && p.q.threads[w] == B.AtLock(B.Dequeue) && p.q.q.items != []
    requires Shape(Next(p, Queue(B.Locked(w))))
    ensures Handled(Next(p, Queue(B.Locked(w))))
  {
    var p' := Next(p, Queue(B.Locked(w)));
    assert p'.q == B.PopItem(p.q, w) && p'.phases == p.phases && p'.handled == p.handled;
    forall u | 0 <= u < p.N() ensures TakenBy(p'.q.removed, u) == p'.handled[u] + InHand(p'.phases[u], p'.q.threads[u]) {
    }
  }

  lemma PushHandled(p: Pool, t: nat, item: Msg)
    requires Shape(p) && Handled(p) && p.N() <= t < |p.q.threads| && p.q.threads[t].AtLock?
    requires p.q.q.Full() ==> (p.q.q.items + [item])[0] != Terminate
    requires Next(p, Queue(B.Locked(t))) == p.(q := B.PushItem(p.q, t, item))
    requires Shape(Next(p, Queue(B.Locked(t))))
    ensures Handled(Next(p, Queue(B.Locked(t))))
  {
    var p' := Next(p, Queue(B.Locked(t)));
    if p.q.q.Full() {
      forall u | 0 <= u < p.N() ensures TakenBy(p'.q.removed, u) == p'.handled[u] + InHand(p'.phases[u], p'.q.threads[u]) {
      }
    } else {
      assert p'.q.removed == p.q.removed;
      FrameHandled(p, p');
    }
  }

  lemma LockedHandled(p: Pool, t: nat)
    requires Shape(p) && Terminates(p) && Handled(p) && Enabled(p, Queue(B.Locked(t)))
    requires Shape(Next(p, Queue(B.Locked(t))))
    ensures Handled(Next(p, Queue(B.Locked(t))))
  {
    var p' := Next(p, Queue(B.Locked(t)));
    if t < p.N() && p.q.q.items != [] {
      PopHandled(p, t);
    } else if p.N() <= t && p'.q.threads[t].NotifyingPush? {
      if p.N() < t {
        NoTerminateYet(p);
      }
      PushHandled(p, t, p.q.threads[t].call.item);
    } else {
      FrameHandled(p, p');
    }
  }

  lemma HandleHandled(p: Pool, w: nat)
    requires Shape(p) && Handled(p) && Enabled(p, Handle(w))
    ensures Shape(Next(p, Handle(w))) && Handled(Next(p, Handle(w)))
  {
    var p' := Next(p, Handle(w));
    NextShape(p, Handle(w));
    assert p'.handled[w][..|p'.handled[w]| - 1] == p.handled[w];
  }

  lemma NotifyHandled(p: Pool, t: nat, woken: B.Waiter)
    requires Shape(p) && Handled(p) && Enabled(p, Queue(B.Notify(t, woken)))
    ensures Shape(Next(p, Queue(B.Notify(t, woken)))) && Handled(Next(p, Queue(B.Notify(t, woken))))
  {
    NotifyShape(p, t, woken);
    FrameHandled(p, Next(p, Queue(B.Notify(t, woken))));
  }

  /** Every step but a locked body, a notify and the handling of a message. */
  predicate Quiet(step: Step) {
    !step.Handle? && !(step.Queue? && (step.step.Locked? || step.step.Notify?))
  }

  lemma QuietStep(p: Pool, step: Step)
    requires Shape(p) && Enabled(p, step) && Quiet(step) && Shape(Next(p, step))
    ensures var p' := Next(p, step);
            && p'.q.accepted == p.q.accepted && p'.q.q == p.q.q && p'.q.removed == p.q.removed
            && p'.handled == p.handled
            && p'.posted - InFlight(p') == p.posted - InFlight(p)
            && forall w :: 0 <= w < p.N() ==>
                 && (p'.phases[w].Exited? <==> p.phases[w].Exited?)
                 && HasTerminate(p'.phases[w], p'.q.threads[w]) == HasTerminate(p.phases[w], p.q.threads[w])
                 && InHand(p'.phases[w], p'.q.threads[w]) == InHand(p.phases[w], p.q.threads[w])
  {
    if step.Queue? {
      assert Next(p, step).phases == p.phases;
      assert step.step.CountDiscard? || step.step.SpuriousWake?;
    }
  }

  lemma NextHistory(p: Pool, step: Step)
    requires B.Inv(p.q) && Shape(p) && Terminates(p) && Handled(p) && Enabled(p, step) && Shape(Next(p, step))
    ensures Terminates(Next(p, step)) && Handled(Next(p, step))
  {
    hide Terminates, Handled, Sum, B.Inv;
    if Quiet(step) {
      QuietStep(p, step);
      FrameTerminates(p, Next(p, step));
      FrameHandled(p, Next(p, step));
    } else if step.Handle? {
      FrameTerminates(p, Next(p, step));
      HandleHandled(p, step.w);
    } else if step.step.Locked? {
      LockedTerminates(p, step.step.t);
      LockedHandled(p, step.step.t);
    } else {
      NotifyTerminates(p, step.step.t, step.step.woken);
      NotifyHandled(p, step.step.t, step.step.woken);
    }
  }

  lemma NextInv(p: Pool, step: Step)
    requires Inv(p) && Enabled(p, step)
    ensures Inv(Next(p, step)) && Next(p, step).N() == p.N() && Next(p, step).q.q.capacity == p.q.q.capacity
  {
    NextQueueInv(p, step);
    NextShape(p, step);
    NextHistory(p, step);
  }

  lemma {:induction false} RunInv(p: Pool, steps: seq<Step>)
    requires Inv(p) && IsRun(p, steps)
    ensures Inv(Run(p, steps)) && Run(p, steps).N() == p.N() && Run(p, steps).q.q.capacity == p.q.q.capacity
    decreases |steps|
  {
    if steps != [] {
      NextInv(p, steps[0]);
      RunInv(Next(p, steps[0]), steps[1..]);
    }
  }

  ghost predicate Reachable(p: Pool) {
    exists capacity: nat, workers: nat, posters: nat, steps: seq<Step> ::
      workers >= 1 && IsRun(Init(capacity, workers, posters), steps) && Run(Init(capacity, workers, posters), steps) == p
  }

  lemma ReachableInv(p: Pool)
    requires Reachable(p)
    ensures Inv(p)
  {
    var capacity: nat, workers: nat, posters: nat, steps: seq<Step> :|
      workers >= 1 && IsRun(Init(capacity, workers, posters), steps) && Run(Init(capacity, workers, posters), steps) == p;
    InitInv(capacity, workers, posters);
    RunInv(Init(capacity, workers, posters), steps);
  }

  // What shutdown guarantees once every join has returned.

  function OverrunItems(removed: seq<B.Removal<Msg>>): multiset<Msg> {
    if removed == [] then multiset{}
    else
      var last := removed[|removed| - 1];
      OverrunItems(removed[..|removed| - 1]) + if last.Overrun? then multiset{last.item} else multiset{}
  }

  function AllOf(lists: seq<seq<Msg>>): multiset<Msg> {
    if lists == [] then multiset{} else multiset(lists[0]) + AllOf(lists[1..])
  }

  function TakenLists(removed: seq<B.Removal<Msg>>, n: nat): seq<seq<Msg>> {
    seq(n, w requires 0 <= w < n => TakenBy(removed, w))
  }

  lemma {:induction false} AllOfUpdate(lists: seq<seq<Msg>>, i: nat, msg: Msg)
    requires i < |lists|
    ensures AllOf(lists[i := lists[i] + [msg]]) == AllOf(lists) + multiset{msg}
  {
    var updated := lists[i := lists[i] + [msg]];
    if i == 0 {
      assert updated[1..] == lists[1..];
    } else {
      assert updated[1..] == lists[1..][i - 1 := lists[1..][i - 1] + [msg]];
      AllOfUpdate(lists[1..], i - 1, msg);
    }
  }

  lemma {:induction false} AllOfNothing(n: nat)
    ensures AllOf(TakenLists([], n)) == multiset{}
  {
    if n > 0 {
      assert TakenLists([], n)[1..] == TakenLists([], n - 1);
      AllOfNothing(n - 1);
    }
  }

  /** Each removed item went to exactly one place: one worker, or an overrun. */
  lemma {:induction false} RemovedPartition(removed: seq<B.Removal<Msg>>, n: nat)
    requires forall i :: 0 <= i < |removed| && removed[i].Taken? ==> removed[i].thread < n
    ensures multiset(B.Items(removed)) == OverrunItems(removed) + AllOf(TakenLists(removed, n))
  {
    hide AllOf, B.Items;
    if removed == [] {
      AllOfNothing(n);
      assert B.Items<Msg>([]) == [] by { B.RemovedNothing<Msg>(); }
    } else {
      var rest, last := removed[..|removed| - 1], removed[|removed| - 1];
      RemovedPartition(rest, n);
      assert removed == rest + [last];
      B.RemovedGrows(rest, last);
      forall w | 0 <= w < n
        ensures TakenBy(removed, w)
             == if last.Taken? && last.thread == w then TakenBy(rest, w) + [last.item] else TakenBy(rest, w)
      {
        assert TakenBy(rest, w) + [] == TakenBy(rest, w);
      }
      if last.Taken? {
        AllOfUpdate(TakenLists(rest, n), last.thread, last.item);
        assert TakenLists(removed, n) == TakenLists(rest, n)[last.thread := TakenLists(rest, n)[last.thread] + [last.item]];
      } else {
        assert TakenLists(removed, n) == TakenLists(rest, n);
      }
    }
  }

  lemma AllExited(p: Pool)
    requires Inv(p) && forall w :: 0 <= w < p.N() ==> p.phases[w].Exited?
    ensures p.posted == p.N() && InFlight(p) == 0 && p.q.q.items == []
  {
    assert p.q.q.items != [] ==> p.q.accepted[|p.q.accepted| - 1] == p.q.q.items[|p.q.q.items| - 1];
    SumOfBits(TerminateBits(p));
    assert multiset(p.q.accepted)[Terminate] == p.N() && Terminate !in p.q.q.items;
  }

  /**
   When the destructor has joined every worker, in any interleaving: the queue is empty; each worker
   handled exactly one terminate message, its last; and every message ever accepted was either
   handled by exactly one worker, once, or had been overrun before.
   */
  lemma ShutdownDrains(p: Pool)
    requires Reachable(p) && p.joined == p.N()
    ensures p.q.q.items == [] && p.posted == p.N()
    ensures |p.handled| == p.N()
    ensures forall w :: 0 <= w < p.N() ==> HandledWell(Exited, p.handled[w]) && TakenBy(p.q.removed, w) == p.handled[w]
    ensures p.q.accepted == B.Items(p.q.removed)
    ensures multiset(p.q.accepted) == OverrunItems(p.q.removed) + AllOf(p.handled)
    ensures Terminate !in OverrunItems(p.q.removed)
  {
    ReachableInv(p);
    AllExited(p);
    RemovedPartition(p.q.removed, p.N());
    assert forall w :: 0 <= w < p.N() ==> p.phases[w].Exited?;
    HandledByNow(p);
    OverrunsAreMessages(p.q.removed);
  }

  lemma HandledByNow(p: Pool)
    requires Shape(p) && Handled(p) && forall w :: 0 <= w < p.N() ==> p.phases[w].Exited?
    ensures TakenLists(p.q.removed, p.N()) == p.handled
    ensures forall w :: 0 <= w < p.N() ==> HandledWell(Exited, p.handled[w]) && TakenBy(p.q.removed, w) == p.handled[w]
  {
    forall w | 0 <= w < p.N() ensures TakenBy(p.q.removed, w) == p.handled[w] {
      assert p.phases[w].Exited? && p.handled[w] + [] == p.handled[w];
    }
  }

  lemma {:induction false} OverrunsAreMessages(removed: seq<B.Removal<Msg>>)
    requires forall i :: 0 <= i < |removed| && removed[i].Overrun? ==> removed[i].item != Terminate
    ensures Terminate !in OverrunItems(removed)
  {
    if removed != [] {
      OverrunsAreMessages(removed[..|removed| - 1]);
    }
  }

  // Shutdown always gets there.

  /** Steps that need no luck: everything but spurious wake-ups. */
  predicate Productive(step: Step) {
    !(step.Queue? && step.step.SpuriousWake?)
  }

  /** With everybody asleep or done, the destructor itself can move. */
  lemma DestructorMoves(p: Pool)
    requires Inv(p) && p.destructing && p.joined < p.N() && p.q.q.capacity > 0 && B.Quiescent(p.q)
    requires forall w :: 0 <= w < p.N() ==> p.phases[w].Exited? || p.q.threads[w] == B.Asleep(B.Dequeue)
    ensures Enabled(p, PostTerminate) || Enabled(p, Join)
  {
    if w :| 0 <= w < p.N() && !p.phases[w].Exited? {
      assert B.SleepsOnPush(p.q.threads[w]);
      assert p.q.threads[p.N()].Asleep? ==> B.SleepsOnPop(p.q.threads[p.N()]);
      B.QuiescentSleepersMustSleep(p.q);
      SumOfBits(TerminateBits(p));
      assert TerminateBits(p)[w] == 0;
    } else {
      AllExited(p);
    }
  }

  /** With room for at least one message, destruction is never stuck before the last join. */
  lemma ShutdownNeverStuck(p: Pool) returns (step: Step)
    requires Reachable(p) && p.destructing && p.joined < p.N() && p.q.q.capacity > 0
    ensures Productive(step) && Enabled(p, step)
  {
    ReachableInv(p);
    if !B.Quiescent(p.q) {
      var s := B.InternalStepExists(p.q);
      step := Queue(s);
    } else if w :| 0 <= w < p.N() && p.phases[w].Ready? {
      step := BeginDequeue(w);
    } else if w :| 0 <= w < p.N() && p.phases[w].Handling? {
      step := Handle(w);
    } else {
      forall w | 0 <= w < p.N() ensures p.phases[w].Exited? || p.q.threads[w] == B.Asleep(B.Dequeue) {
        assert p.q.threads[w].Idle? || p.q.threads[w].Asleep?;
      }
      DestructorMoves(p);
      step := if Enabled(p, PostTerminate) then PostTerminate else Join;
    }
  }

  /** What is still to be done, in steps: an upper bound that every productive step lowers. */
  function PhaseWork(phase: Phase, pc: B.Pc<Msg>): nat {
    match phase
    case Ready => 5
    case Handling(_) => 6
    case InDequeue => if pc.NotifyingPop? then 6 else 0
    case Exited => 0
  }

  function PhaseWorks(p: Pool): seq<nat>
    requires p.N() <= |p.q.threads|
  {
    seq(p.N(), w requires 0 <= w < p.N() => PhaseWork(p.phases[w], p.q.threads[w]))
  }

  function Remaining(p: Pool): int
    requires p.N() < |p.q.threads|
  {
    5 * (p.N() - p.posted) + 5 * (p.N() - p.posted + InFlight(p)) + 5 * |p.q.q.items|
    + B.Work(p.q.threads) + Sum(PhaseWorks(p)) + (p.N() - p.joined)
  }

  lemma OneWorkChanges(p: Pool, p': Pool, w: nat)
    requires p.N() < |p.q.threads| == |p'.q.threads| && p'.N() == p.N() && w < p.N()
    requires forall u :: 0 <= u < p.N() && u != w ==>
      PhaseWork(p'.phases[u], p'.q.threads[u]) == PhaseWork(p.phases[u], p.q.threads[u])
    ensures Sum(PhaseWorks(p')) == Sum(PhaseWorks(p)) - PhaseWork(p.phases[w], p.q.threads[w])
                                   + PhaseWork(p'.phases[w], p'.q.threads[w])
  {
    var work := PhaseWork(p'.phases[w], p'.q.threads[w]);
    SumUpdate(PhaseWorks(p), w, work);
    assert PhaseWorks(p') == PhaseWorks(p)[w := work];
  }

  lemma NoWorkChanges(p: Pool, p': Pool)
    requires p.N() < |p.q.threads| == |p'.q.threads| && p'.N() == p.N()
    requires forall u :: 0 <= u < p.N() ==>
      PhaseWork(p'.phases[u], p'.q.threads[u]) == PhaseWork(p.phases[u], p.q.threads[u])
    ensures Sum(PhaseWorks(p')) == Sum(PhaseWorks(p))
  {
    assert PhaseWorks(p') == PhaseWorks(p);
  }

  lemma LockedWorkerWorks(p: Pool, w: nat)
    requires Shape(p) && w < p.N() && p.q.threads[w] == B.AtLock(B.Dequeue)
    ensures Remaining(Next(p, Queue(B.Locked(w)))) < Remaining(p)
  {
    var p' := Next(p, Queue(B.Locked(w)));
    B.LockedWork(p.q, w);
    OneWorkChanges(p, p', w);
  }

  lemma LockedDestructorWorks(p: Pool)
    requires Shape(p) && |p.q.q.items| <= p.q.q.capacity && p.q.q.enabled && p.q.threads[p.N()].AtLock?
    ensures Remaining(Next(p, Queue(B.Locked(p.N())))) < Remaining(p)
  {
    var p' := Next(p, Queue(B.Locked(p.N())));
    B.LockedWork(p.q, p.N());
    NoWorkChanges(p, p');
  }

  lemma NotifyWorks(p: Pool, t: nat, woken: B.Waiter)
    requires B.WellFormed(p.q) && Shape(p) && Enabled(p, Queue(B.Notify(t, woken)))
    ensures Remaining(Next(p, Queue(B.Notify(t, woken)))) < Remaining(p)
  {
    var p' := Next(p, Queue(B.Notify(t, woken)));
    B.InternalStepWorks(p.q, B.Notify(t, woken));
    NotifyChangesNoWork(p, t, woken);
    NoWorkChanges(p, p');
  }

  lemma NotifyChangesNoWork(p: Pool, t: nat, woken: B.Waiter)
    requires Shape(p) && Enabled(p, Queue(B.Notify(t, woken)))
    ensures var p' := Next(p, Queue(B.Notify(t, woken)));
            && InFlight(p') == InFlight(p)
            && forall u :: 0 <= u < p.N() ==>
                 PhaseWork(p'.phases[u], p'.q.threads[u]) == PhaseWork(p.phases[u], p.q.threads[u])
  {
  }

  lemma WorkerStepWorks(p: Pool, step: Step)
    requires Shape(p) && Enabled(p, step) && (step.BeginDequeue? || step.Handle?)
    ensures Remaining(Next(p, step)) < Remaining(p)
  {
    if step.BeginDequeue? {
      B.StartWork(p.q, step.w, B.Dequeue);
    }
    OneWorkChanges(p, Next(p, step), step.w);
  }

  lemma DestructorStepWorks(p: Pool, step: Step)
    requires Shape(p) && Enabled(p, step) && (step.PostTerminate? || step.Join?)
    ensures Remaining(Next(p, step)) < Remaining(p)
  {
    if step.PostTerminate? {
      B.StartWork(p.q, p.N(), B.Enqueue(Terminate));
    }
    NoWorkChanges(p, Next(p, step));
  }

  lemma ProductiveStepWorks(p: Pool, step: Step)
    requires B.WellFormed(p.q) && Shape(p) && p.destructing && Enabled(p, step) && Productive(step) && Shape(Next(p, step))
    ensures Remaining(Next(p, step)) < Remaining(p)
  {
    match step
    case BeginDequeue(_) => WorkerStepWorks(p, step);
    case Handle(_) => WorkerStepWorks(p, step);
    case PostTerminate => DestructorStepWorks(p, step);
    case Join => DestructorStepWorks(p, step);
    case Queue(Locked(t)) =>
      if t < p.N() {
        LockedWorkerWorks(p, t);
      } else {
        LockedDestructorWorks(p);
      }
    case Queue(Notify(t, woken)) => NotifyWorks(p, t, woken);
    case _ =>
  }

  /** A spurious wake-up costs the thread one more look at its condition. */
  lemma SpuriousStepWorks(p: Pool, t: nat)
    requires B.WellFormed(p.q) && Shape(p) && Enabled(p, Queue(B.SpuriousWake(t)))
    ensures Remaining(Next(p, Queue(B.SpuriousWake(t)))) == Remaining(p) + 1
  {
    hide B.Work, Sum;
    B.WorkUpdate(p.q.threads, t, B.AtLock(p.q.threads[t].call));
    NoWorkChanges(p, Next(p, Queue(B.SpuriousWake(t))));
  }

  function SpuriousWakes(steps: seq<Step>): nat {
    if steps == [] then 0 else (if Productive(steps[0]) then 0 else 1) + SpuriousWakes(steps[1..])
  }

  lemma RemainingIsBound(p: Pool)
    requires Inv(p)
    ensures Remaining(p) >= 0
  {
  }

  lemma ShutdownStep(p: Pool, step: Step)
    requires Inv(p) && p.destructing && Enabled(p, step)
    ensures Inv(Next(p, step)) && Next(p, step).destructing
    ensures Remaining(Next(p, step)) <= Remaining(p) + if Productive(step) then -1 else 1
  {
    hide Remaining;
    NextInv(p, step);
    if Productive(step) {
      ProductiveStepWorks(p, step);
    } else {
      SpuriousStepWorks(p, step.step.t);
    }
  }

  lemma {:induction false} ShutdownRunBound(p: Pool, steps: seq<Step>, bound: int)
    requires Inv(p) && p.destructing && IsRun(p, steps) && Remaining(p) <= bound
    ensures |steps| <= bound + 2 * SpuriousWakes(steps)
    decreases |steps|
  {
    hide Next, Enabled, Remaining, Inv;
    RemainingIsBound(p);
    if steps != [] {
      var p' := Next(p, steps[0]);
      assert IsRun(p', steps[1..]);
      ShutdownStep(p, steps[0]);
      ShutdownRunBound(p', steps[1..], bound + if Productive(steps[0]) then -1 else 1);
    }
  }

  /**
   Destruction terminates: from any reachable state in which it has begun, every run is bounded, but
   for two steps more per spurious wake-up, and one that cannot be prolonged by anything else has
   joined every worker.
   */
  lemma ShutdownTerminates(p: Pool, steps: seq<Step>)
    requires Reachable(p) && p.destructing && p.q.q.capacity > 0 && IsRun(p, steps)
    ensures p.N() < |p.q.threads| && |steps| <= Remaining(p) + 2 * SpuriousWakes(steps)
    ensures (forall step :: Productive(step) ==> !Enabled(Run(p, steps), step)) ==> Run(p, steps).joined == p.N()
  {
    ReachableInv(p);
    ShutdownRunBound(p, steps, Remaining(p));
    RunInv(p, steps);
    RunReachable(p, steps);
    RunKeepsDestructing(p, steps);
    if Run(p, steps).joined < p.N() {
      var step := ShutdownNeverStuck(Run(p, steps));
    }
  }

  lemma {:induction false} RunAppend(p: Pool, xs: seq<Step>, ys: seq<Step>)
    requires IsRun(p, xs) && IsRun(Run(p, xs), ys)
    ensures IsRun(p, xs + ys) && Run(p, xs + ys) == Run(Run(p, xs), ys)
    decreases |xs|
  {
    hide Next, Enabled;
    if xs == [] {
      assert xs + ys == ys;
    } else {
      RunAppend(Next(p, xs[0]), xs[1..], ys);
      assert (xs + ys)[1..] == xs[1..] + ys;
    }
  }

  lemma RunReachable(p: Pool, steps: seq<Step>)
    requires Reachable(p) && IsRun(p, steps)
    ensures Reachable(Run(p, steps))
  {
    var capacity: nat, workers: nat, posters: nat, before: seq<Step> :|
      workers >= 1 && IsRun(Init(capacity, workers, posters), before) && Run(Init(capacity, workers, posters), before) == p;
    RunAppend(Init(capacity, workers, posters), before, steps);
  }

  lemma {:induction false} RunKeepsDestructing(p: Pool, steps: seq<Step>)
    requires p.destructing && IsRun(p, steps)
    ensures Run(p, steps).destructing
    decreases |steps|
  {
    if steps != [] {
      RunKeepsDestructing(Next(p, steps[0]), steps[1..]);
    }
  }

  /** Without any room the destructor's first post blocks for ever: no run joins a single worker. */
  lemma NoCapacityNeverShutsDown(p: Pool)
    requires Reachable(p) && p.q.q.capacity == 0
    ensures p.joined == 0 && Terminate !in p.q.accepted
  {
    ReachableInv(p);
    SumPositive(TerminateBits(p), 0);
    assert TerminateBits(p)[0] == 0;
  }

  lemma {:induction false} SumPositive(xs: seq<nat>, i: nat)
    requires i < |xs|
    ensures Sum(xs) >= xs[i]
  {
    if i > 0 {
      SumPositive(xs[1..], i - 1);
    }
  }
}
