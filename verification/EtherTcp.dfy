/**
 The receive path of EtherTcp: a 256-slot ring that the socket thread fills and the protocol thread
 drains, with no lock between them.

 `RxRing` is the ring as the code has it, for one thread at a time. `State` and `Step` interleave the
 two threads one memory access at a time, sequentially consistent, with the store, the increment and
 the wrap of `buffer_end` as separate steps. Neither thread can see that the ring is full, so what it
 guarantees depends on how far the writer is ahead when it starts a push.
 */
module EtherTcp {

  import opened Bytes
  import opened Sequences

  const BUFSIZE := 256

  // The ring in one thread.

  /** get_buffer_size, from the two indices it loads. */
  function BufferSize(start: int, end: int): int {
    if end - start < 0 then end - start + BUFSIZE else end - start
  }

  class RxRing {
    const buffer: array<byte>
    var start: int
    var end: int

    ghost predicate Valid()
      reads this
    {
      buffer.Length == BUFSIZE && 0 <= start < BUFSIZE && 0 <= end < BUFSIZE
    }

    /** The bytes pushed and not yet popped, as far as the indices tell. */
    ghost function Unread(): (bytes: seq<byte>)
      requires Valid()
      reads this, buffer
      ensures |bytes| < BUFSIZE
    {
      if start <= end then buffer[start..end] else buffer[start..] + buffer[..end]
    }

    constructor ()
      ensures Valid() && Unread() == [] && fresh(buffer)
    {
      buffer := new byte[BUFSIZE];
      start, end := 0, 0;
    }

    method GetBufferSize() returns (n: nat)
      requires Valid()
      ensures n == |Unread()|
    {
      var size := end - start;
      if size < 0 {
        size := size + BUFSIZE;
      }
      n := size;
    }

    /** One push too many makes a full ring look empty. */
    method Push(dat: byte)
      requires Valid()
      modifies this`end, buffer
      ensures Valid()
      ensures |old(Unread())| < BUFSIZE - 1 ==> Unread() == old(Unread()) + [dat]
      ensures |old(Unread())| == BUFSIZE - 1 ==> Unread() == []
    {
      ghost var unread := Unread();
      buffer[end] := dat;
      ghost var wide := if start <= end then buffer[start..end + 1] else buffer[start..] + buffer[..end + 1];
      assert wide == unread + [dat];
      end := end + 1;
      if end >= BUFSIZE {
        end := 0;
      }
    }

    method Pop() returns (dat: byte)
      requires Valid() && Unread() != []
      modifies this`start
      ensures Valid() && [dat] + Unread() == old(Unread())
    {
      ghost var unread := Unread();
      assert unread == [buffer[start]] + unread[1..];
      dat := buffer[start];
      start := start + 1;
      if start >= BUFSIZE {
        start := 0;
      }
      assert Unread() == unread[1..];
    }

    /** EtherTcp::read while the socket thread is quiet: as much as there is, at most `size`. */
    method Read(size: byte) returns (bytes: seq<byte>)
      requires Valid()
      modifies this`start
      ensures Valid()
      ensures |bytes| == if size >= |old(Unread())| then |old(Unread())| else size
      ensures bytes + Unread() == old(Unread())
    {
      var sizeRead: int := size;
      var available := GetBufferSize();
      if size >= available {
        sizeRead := GetBufferSize();
      }
      bytes := [];
      var i := 0;
      ghost var all := Unread();
      while i < sizeRead
        invariant 0 <= i <= sizeRead && i == |bytes|
        invariant Valid() && bytes + Unread() == all
      {
        var dat := Pop();
        Associates(bytes, [dat], Unread());
        bytes := bytes + [dat];
        i := i + 1;
      }
    }
  }

  // The two threads.

  /** Inside buffer_push: about to store, to increment, to test and wrap. */
  datatype Writer = Between | Storing(dat: byte) | Incrementing(dat: byte) | Wrapping

  /**
   Inside EtherTcp::read(size): about to load the size for the comparison, to load it again, or to
   pop `left` more bytes, each pop being a load, an increment and a wrap.
   */
  datatype Reader =
    | Outside
    | Comparing(size: byte)
    | Reloading(size: byte)
    | Loading(left: nat)
    | Advancing(left: nat)
    | Unwrapping(left: nat)

  datatype State = State(
    buffer: seq<byte>,
    start: int,
    end: int,
    writer: Writer,
    reader: Reader,
    pushed: seq<byte>,       // bytes whose increment has been done: what the reader can know of
    popped: seq<byte>,       // bytes whose slot the reader has given back
    inHand: seq<byte>)       // the byte loaded by the pop in progress

  datatype Step =
    | BeginPush(dat: byte) | Store | Increment | Wrap
    | BeginRead(size: byte) | Compare | Reload | Load | Advance | Unwrap

  function Init(): State {
    State(seq(BUFSIZE, _ => 0), 0, 0, Between, Outside, [], [], [])
  }

  /** How many bytes the writer is ahead of the reader. */
  function Backlog(s: State): int {
    |s.pushed| - |s.popped|
  }

  predicate Enabled(s: State, step: Step) {
    match step
    case BeginPush(_) => s.writer.Between?
    case Store => s.writer.Storing? && 0 <= s.end < |s.buffer|
    case Increment => s.writer.Incrementing?
    case Wrap => s.writer.Wrapping?
    case BeginRead(_) => s.reader.Outside?
    case Compare => s.reader.Comparing?
    case Reload => s.reader.Reloading?
    case Load => s.reader.Loading? && 0 <= s.start < |s.buffer|
    case Advance => s.reader.Advancing?
    case Unwrap => s.reader.Unwrapping?
  }

  /** The next iteration of the copy loop, or the return from read. */
  function Continue(left: nat): Reader {
    if left == 0 then Outside else Loading(left)
  }

  function Next(s: State, step: Step): State
    requires Enabled(s, step)
  {
    var size := BufferSize(s.start, s.end);
    match step
    case BeginPush(dat) => s.(writer := Storing(dat))
    case Store => s.(buffer := s.buffer[s.end := s.writer.dat], writer := Incrementing(s.writer.dat))
    case Increment => s.(end := s.end + 1, pushed := s.pushed + [s.writer.dat], writer := Wrapping)
    case Wrap => s.(end := if s.end >= BUFSIZE then 0 else s.end, writer := Between)
    case BeginRead(n) => s.(reader := Comparing(n))
    case Compare => s.(reader := if s.reader.size >= size then Reloading(s.reader.size) else Continue(s.reader.size))
    case Reload => s.(reader := Continue(if size < 0 then 0 else size))
    case Load => s.(inHand := [s.buffer[s.start]], reader := Advancing(s.reader.left))
    case Advance => s.(start := s.start + 1, popped := s.popped + s.inHand, inHand := [], reader := Unwrapping(s.reader.left))
    case Unwrap =>
      s.(start := if s.start >= BUFSIZE then 0 else s.start,
         reader := Continue(if s.reader.left > 0 then s.reader.left - 1 else 0))
  }

  predicate IsRun(s: State, steps: seq<Step>)
    decreases |steps|
  {
    steps == [] || (Enabled(s, steps[0]) && IsRun(Next(s, steps[0]), steps[1..]))
  }

  function Run(s: State, steps: seq<Step>): State
    requires IsRun(s, steps)
    decreases |steps|
  {
    if steps == [] then s else Run(Next(s, steps[0]), steps[1..])
  }

  // What holds whatever the two threads do.

  /** The slot of the k-th byte of the stream. */
  function Slot(k: nat): nat {
    k % BUFSIZE
  }

  /** An index that may not have been wrapped yet. */
  function Wrapped(i: int): int {
    if i == BUFSIZE then 0 else i
  }

  ghost predicate Shape(s: State) {
    && |s.buffer| == BUFSIZE
    && 0 <= s.start <= BUFSIZE && 0 <= s.end <= BUFSIZE
    && (s.start == BUFSIZE ==> s.reader.Unwrapping?)
    && (s.end == BUFSIZE ==> s.writer.Wrapping?)
    && Wrapped(s.start) == Slot(|s.popped|)
    && Wrapped(s.end) == Slot(|s.pushed|)
    && (s.reader.Advancing? <==> |s.inHand| == 1)
    && (!s.reader.Advancing? <==> s.inHand == [])
    && (s.reader.Loading? || s.reader.Advancing? || s.reader.Unwrapping? ==> s.reader.left > 0)
  }

  lemma NextShape(s: State, step: Step)
    requires Shape(s) && Enabled(s, step)
    ensures Shape(Next(s, step))
  {
  }

  /** The reader has emptied the last slot before the writer wrapped past it. */
  predicate InWindow(s: State) {
    s.start == 0 && s.end == BUFSIZE
  }

  /** Exactly when get_buffer_size tells the truth, in every state where the reader can call it. */
  lemma SizeExactIff(s: State)
    requires Shape(s) && s.start < BUFSIZE && |s.popped| <= |s.pushed|
    ensures BufferSize(s.start, s.end) == Backlog(s) <==> if InWindow(s) then Backlog(s) == BUFSIZE else Backlog(s) < BUFSIZE
  {
    BacklogInTurns(|s.pushed|, |s.popped|);
  }

  lemma BacklogInTurns(pushed: nat, popped: nat)
    requires popped <= pushed
    ensures var apart := Slot(pushed) - Slot(popped);
            && (pushed - popped < BUFSIZE ==> pushed - popped == if apart < 0 then apart + BUFSIZE else apart)
            && (pushed - popped == BUFSIZE ==> apart == 0)
  {
  }

  // What holds if the writer is paced.

  /** A push starts only when at least two slots are free; a size is never loaded in the window. */
  predicate Paced(s: State, step: Step) {
    && (step.BeginPush? ==> Backlog(s) <= BUFSIZE - 2)
    && (step.Compare? || step.Reload? ==> !InWindow(s))
  }

  predicate IsPacedRun(s: State, steps: seq<Step>)
    requires IsRun(s, steps)
    decreases |steps|
  {
    steps == [] || (Paced(s, steps[0]) && IsPacedRun(Next(s, steps[0]), steps[1..]))
  }

  /** Bytes the reader is still committed to take without looking at the size again. */
  function Committed(r: Reader): int {
    match r
    case Loading(left) => left
    case Advancing(left) => left
    case Unwrapping(left) => left - 1
    case _ => 0
  }

  ghost predicate Safe(s: State) {
    && Shape(s)
    && s.popped <= s.pushed
    && Backlog(s) < BUFSIZE
    && (s.writer.Storing? || s.writer.Incrementing? ==> Backlog(s) < BUFSIZE - 1)
    && (s.writer.Incrementing? ==> s.buffer[s.end] == s.writer.dat)
    && (forall k :: |s.popped| <= k < |s.pushed| ==> s.buffer[Slot(k)] == s.pushed[k])
    && Committed(s.reader) <= Backlog(s)
    && (s.reader.Advancing? ==> s.inHand == [s.pushed[|s.popped|]])
  }

  lemma StoreSafe(s: State)
    requires Safe(s) && Enabled(s, Store)
    ensures Safe(Next(s, Store))
  {
    var s' := Next(s, Store);
    assert s.end == Slot(|s.pushed|);
    forall k | |s.popped| <= k < |s.pushed| ensures s'.buffer[Slot(k)] == s.pushed[k] {
    }
  }

  lemma IncrementSafe(s: State)
    requires Safe(s) && Enabled(s, Increment)
    ensures Safe(Next(s, Increment))
  {
    assert s.end == Slot(|s.pushed|);
  }

  lemma LoadSafe(s: State)
    requires Safe(s) && Enabled(s, Load)
    ensures Safe(Next(s, Load))
  {
    assert s.start == Slot(|s.popped|);
  }

  lemma NextSafe(s: State, step: Step)
    requires Safe(s) && Enabled(s, step) && Paced(s, step)
    ensures Safe(Next(s, step))
  {
    match step
    case Store => StoreSafe(s);
    case Increment => IncrementSafe(s);
    case Load => LoadSafe(s);
    case Compare => SizeExactIff(s);
    case Reload => SizeExactIff(s);
    case _ => NextShape(s, step);
  }

  lemma {:induction false} RunSafe(s: State, steps: seq<Step>)
    requires Safe(s) && IsRun(s, steps) && IsPacedRun(s, steps)
    ensures Safe(Run(s, steps))
    decreases |steps|
  {
    if steps != [] {
      NextSafe(s, steps[0]);
      RunSafe(Next(s, steps[0]), steps[1..]);
    }
  }

  /**
   Over every paced interleaving the reader gets the pushed bytes in order, none twice and none
   missing, and whenever it may look the size is the backlog - except in the window.
   */
  lemma PacedRunsDeliverInOrder(steps: seq<Step>)
    requires IsRun(Init(), steps) && IsPacedRun(Init(), steps)
    ensures var s := Run(Init(), steps);
            && s.popped <= s.pushed
            && (s.start < BUFSIZE ==> (BufferSize(s.start, s.end) == Backlog(s) <==> !InWindow(s)))
  {
    RunSafe(Init(), steps);
    var s := Run(Init(), steps);
    if s.start < BUFSIZE {
      SizeExactIff(s);
    }
  }

  // Neither half of the pacing can be dropped.

  /** A 256th byte makes the ring look empty. */
  lemma OverfilledLooksEmpty(s: State, dat: byte)
    requires Safe(s) && s.writer.Between? && s.start < BUFSIZE && Backlog(s) == BUFSIZE - 1
    ensures var steps := [BeginPush(dat), Store, Increment, Wrap];
            && IsRun(s, steps)
            && var r := Run(s, steps);
               Backlog(r) == BUFSIZE && BufferSize(r.start, r.end) == 0
  {
    var steps := Extend(s, [], BeginPush(dat));
    steps := Extend(s, steps, Store);
    steps := Extend(s, steps, Increment);
    steps := Extend(s, steps, Wrap);
    assert steps == [BeginPush(dat), Store, Increment, Wrap];
    BacklogInTurns(|s.pushed|, |s.popped|);
  }

  lemma Extend(s: State, steps: seq<Step>, step: Step) returns (more: seq<Step>)
    requires IsRun(s, steps) && Enabled(Run(s, steps), step)
    ensures more == steps + [step] && IsRun(s, more) && Run(s, more) == Next(Run(s, steps), step)
    ensures IsPacedRun(s, steps) && Paced(Run(s, steps), step) ==> IsPacedRun(s, more)
  {
    more := steps + [step];
    ExtendRun(s, steps, step);
  }

  lemma {:induction false} ExtendRun(s: State, steps: seq<Step>, step: Step)
    requires IsRun(s, steps) && Enabled(Run(s, steps), step)
    ensures IsRun(s, steps + [step]) && Run(s, steps + [step]) == Next(Run(s, steps), step)
    ensures IsPacedRun(s, steps) && Paced(Run(s, steps), step) ==> IsPacedRun(s, steps + [step])
    decreases |steps|
  {
    if steps == [] {
      assert [step][1..] == [];
    } else {
      ExtendRun(Next(s, steps[0]), steps[1..], step);
      assert (steps + [step])[1..] == steps[1..] + [step];
    }
  }

  /** Both threads idle, the ring empty, both indices at k. */
  ghost predicate EmptyAt(s: State, k: nat) {
    && s.writer.Between? && s.reader.Outside? && s.start == s.end == k < BUFSIZE
    && |s.buffer| == BUFSIZE && s.popped == s.pushed && s.inHand == []
  }

  /** Pushing one byte, all but the wrap, and reading it. */
  lemma PushAndRead(s: State, before: seq<Step>, k: nat) returns (steps: seq<Step>)
    requires IsRun(s, before) && IsPacedRun(s, before) && EmptyAt(Run(s, before), k)
    ensures IsRun(s, steps) && IsPacedRun(s, steps)
    ensures var b, r := Run(s, before), Run(s, steps);
            && |r.buffer| == BUFSIZE && r.popped == r.pushed && r.inHand == []
            && r.writer.Wrapping? && r.reader.Outside? && r.end == k + 1 && r.start == Wrapped(k + 1)
  {
    steps := Extend(s, before, BeginPush(0));
    steps := Extend(s, steps, Store);
    steps := Extend(s, steps, Increment);
    steps := Extend(s, steps, BeginRead(1));
    steps := Extend(s, steps, Compare);
    steps := Extend(s, steps, Reload);
    steps := Extend(s, steps, Load);
    steps := Extend(s, steps, Advance);
    steps := Extend(s, steps, Unwrap);
  }

  lemma {:induction false} ReachEmptyAt(k: nat) returns (steps: seq<Step>)
    requires k < BUFSIZE
    ensures IsRun(Init(), steps) && IsPacedRun(Init(), steps) && EmptyAt(Run(Init(), steps), k)
  {
    if k == 0 {
      steps := [];
    } else {
      var before := ReachEmptyAt(k - 1);
      steps := PushAndRead(Init(), before, k - 1);
      steps := Extend(Init(), steps, Wrap);
    }
  }

  /**
   A paced run reaches the window with nothing left to read, and there the size is 256: a read begun
   now delivers bytes that were never sent.
   */
  lemma WindowIsReachable(n: byte)
    requires n > 0
    ensures exists steps ::
      && IsRun(Init(), steps) && IsPacedRun(Init(), steps)
      && var s := Run(Init(), steps);
         && s.reader.Outside? && InWindow(s) && Backlog(s) == 0 && BufferSize(s.start, s.end) == BUFSIZE
         && Enabled(s, BeginRead(n)) && Next(Next(s, BeginRead(n)), Compare).reader == Loading(n)
  {
    var before := ReachEmptyAt(BUFSIZE - 1);
    var steps := PushAndRead(Init(), before, BUFSIZE - 1);
  }

  /** After a size loaded in the window, a reader that goes on at once gives back a byte that was never sent. */
  lemma WindowLoadMisleads(s: State, step: Step)
    requires Safe(s) && InWindow(s) && Enabled(s, step)
    requires step.Reload? || (step.Compare? && s.reader.size > 0)
    ensures var s1 := Next(s, step);
            && Enabled(s1, Load) && Enabled(Next(s1, Load), Advance)
            && var s2 := Next(Next(s1, Load), Advance);
               !(s2.popped <= s2.pushed)
  {
    BacklogInTurns(|s.pushed|, |s.popped|);
  }

  /** Whatever paced steps follow, the reader stays within what was pushed. */
  ghost predicate KeepsOrder(s: State) {
    forall steps :: IsRun(s, steps) && IsPacedRun(s, steps) ==> Run(s, steps).popped <= Run(s, steps).pushed
  }

  /** A load of the size endangers the order of the bytes exactly if it happens in the window and its result is used. */
  lemma SizeLoadKeepsOrderIff(s: State, step: Step)
    requires Safe(s) && Enabled(s, step) && (step.Compare? || step.Reload?)
    ensures KeepsOrder(Next(s, step)) <==> !(InWindow(s) && (step.Reload? || s.reader.size > 0))
  {
    var s1 := Next(s, step);
    if InWindow(s) && (step.Reload? || s.reader.size > 0) {
      WindowLoadMisleads(s, step);
      var first := Extend(s1, [], Load);
      var both := Extend(s1, first, Advance);
      assert !(Run(s1, both).popped <= Run(s1, both).pushed);
    } else {
      if !InWindow(s) {
        NextSafe(s, step);
      }
      forall steps | IsRun(s1, steps) && IsPacedRun(s1, steps) ensures Run(s1, steps).popped <= Run(s1, steps).pushed {
        RunSafe(s1, steps);
      }
    }
  }

  lemma {:induction false} ReachBacklog(k: nat) returns (steps: seq<Step>)
    requires k < BUFSIZE
    ensures IsRun(Init(), steps) && IsPacedRun(Init(), steps)
    ensures var s := Run(Init(), steps);
            && s.writer.Between? && s.reader.Outside? && s.start == 0 && s.end == k && |s.buffer| == BUFSIZE
            && |s.pushed| == k && s.popped == []
  {
    if k == 0 {
      steps := [];
    } else {
      steps := ReachBacklog(k - 1);
      steps := Extend(Init(), steps, BeginPush(0));
      steps := Extend(Init(), steps, Store);
      steps := Extend(Init(), steps, Increment);
      steps := Extend(Init(), steps, Wrap);
    }
  }

  /** A paced run reaches a backlog of 255, from where one more push makes everything invisible. */
  lemma OverfillIsReachable(dat: byte)
    ensures exists steps ::
      && IsRun(Init(), steps) && IsPacedRun(Init(), steps)
      && var s := Run(Init(), steps);
         && Backlog(s) == BUFSIZE - 1
         && var push := [BeginPush(dat), Store, Increment, Wrap];
            && IsRun(s, push)
            && Backlog(Run(s, push)) == BUFSIZE && BufferSize(Run(s, push).start, Run(s, push).end) == 0
  {
    var steps := ReachBacklog(BUFSIZE - 1);
    RunSafe(Init(), steps);
    OverfilledLooksEmpty(Run(Init(), steps), dat);
  }

  // How much one read delivers.

  predicate IsWriterStep(step: Step) {
    step.BeginPush? || step.Store? || step.Increment? || step.Wrap?
  }

  lemma {:induction false} WriterRunKeepsReader(s: State, steps: seq<Step>)
    requires IsRun(s, steps) && forall i :: 0 <= i < |steps| ==> IsWriterStep(steps[i])
    ensures Run(s, steps).reader == s.reader && Run(s, steps).start == s.start && Run(s, steps).popped == s.popped
    decreases |steps|
  {
    if steps != [] {
      WriterRunKeepsReader(Next(s, steps[0]), steps[1..]);
    }
  }

  function Increments(steps: seq<Step>): nat {
    if steps == [] then 0 else (if steps[0].Increment? then 1 else 0) + Increments(steps[1..])
  }

  lemma {:induction false} WriterRunGrowsBacklog(s: State, steps: seq<Step>)
    requires IsRun(s, steps) && forall i :: 0 <= i < |steps| ==> IsWriterStep(steps[i])
    ensures Backlog(Run(s, steps)) == Backlog(s) + Increments(steps)
    decreases |steps|
  {
    if steps != [] {
      WriterRunGrowsBacklog(Next(s, steps[0]), steps[1..]);
    }
  }

  /** Both threads go on, and the read in progress, if any, returns before another begins. */
  ghost predicate Finishes(s: State, steps: seq<Step>) {
    && IsRun(s, steps) && IsPacedRun(s, steps) && Run(s, steps).reader.Outside?
    && forall i :: 0 <= i < |steps| ==> !steps[i].BeginRead?
  }

  /** Once both sizes are loaded, what a read still delivers is fixed. */
  lemma {:induction false} FinishedReadDelivers(s: State, steps: seq<Step>)
    requires Safe(s) && Finishes(s, steps) && !s.reader.Comparing? && !s.reader.Reloading?
    ensures |Run(s, steps).popped| == |s.popped| + Committed(s.reader)
    decreases |steps|
  {
    if steps != [] {
      NextSafe(s, steps[0]);
      FinishedReadDelivers(Next(s, steps[0]), steps[1..]);
    }
  }

  /** A read(n) that finds more than n bytes delivers n. */
  lemma ReadOfPlentyDelivers(s: State, n: byte, rest: seq<Step>)
    requires Safe(s) && s.reader == Comparing(n) && !InWindow(s) && Backlog(s) > n
    requires Finishes(Next(s, Compare), rest)
    ensures |Run(Next(s, Compare), rest).popped| == |s.popped| + n
  {
    SizeExactIff(s);
    NextSafe(s, Compare);
    FinishedReadDelivers(Next(s, Compare), rest);
  }

  /**
   A read(n) that finds no more than n bytes loads the size again, after whatever the writer did in
   between; it delivers what was there and what was added until then. That is at most n bytes exactly
   when the bytes added between the two loads still fit.
   */
  lemma ReadDeliversAtMostSizeIff(s: State, n: byte, between: seq<Step>, rest: seq<Step>)
    requires Safe(s) && s.reader == Comparing(n) && !InWindow(s) && Backlog(s) <= n
    requires var s1 := Next(s, Compare);
             && IsRun(s1, between) && IsPacedRun(s1, between)
             && (forall i :: 0 <= i < |between| ==> IsWriterStep(between[i]))
    requires var s2 := Run(Next(s, Compare), between);
             Enabled(s2, Reload) && !InWindow(s2) && Finishes(Next(s2, Reload), rest)
    ensures var delivered := |Run(Next(Run(Next(s, Compare), between), Reload), rest).popped| - |s.popped|;
            && delivered == Backlog(s) + Increments(between)
            && (delivered <= n <==> Backlog(s) + Increments(between) <= n)
  {
    var s1 := Next(s, Compare);
    var s2 := Run(s1, between);
    SizeExactIff(s);
    NextSafe(s, Compare);
    RunSafe(s1, between);
    WriterRunKeepsReader(s1, between);
    WriterRunGrowsBacklog(s1, between);
    SizeExactIff(s2);
    NextSafe(s2, Reload);
    FinishedReadDelivers(Next(s2, Reload), rest);
  }

  /** A paced run in which the one read, of one byte, delivers two: the second arrived between the loads. */
  lemma ReadOverrunIsReachable(a: byte, b: byte)
    ensures var steps := [BeginPush(a), Store, Increment, Wrap, BeginRead(1), Compare,
                          BeginPush(b), Store, Increment, Reload, Load, Advance, Unwrap, Load, Advance, Unwrap];
            && IsRun(Init(), steps) && IsPacedRun(Init(), steps)
            && Run(Init(), steps).reader.Outside? && Run(Init(), steps).popped == [a, b]
  {
    hide Run, IsRun, IsPacedRun;
    var steps := FirstByteSeen(a);
    steps := SecondByteSeen(a, b, steps);
    steps := OneByteRead(Init(), steps);
    steps := OneByteRead(Init(), steps);
    assert steps == [BeginPush(a), Store, Increment, Wrap, BeginRead(1), Compare,
                     BeginPush(b), Store, Increment, Reload, Load, Advance, Unwrap, Load, Advance, Unwrap];
  }

  lemma OneByteRead(s: State, before: seq<Step>) returns (steps: seq<Step>)
    requires IsRun(s, before) && IsPacedRun(s, before)
    requires var r := Run(s, before);
             r.reader.Loading? && r.reader.left > 0 && r.inHand == [] && 0 <= r.start < BUFSIZE - 1 && |r.buffer| == BUFSIZE
    ensures steps == before + [Load, Advance, Unwrap]
    ensures IsRun(s, steps) && IsPacedRun(s, steps)
    ensures var r := Run(s, before);
            Run(s, steps) == r.(start := r.start + 1, popped := r.popped + [r.buffer[r.start]],
                                reader := Continue(r.reader.left - 1))
  {
    steps := Extend(s, before, Load);
    steps := Extend(s, steps, Advance);
    steps := Extend(s, steps, Unwrap);
  }

  lemma FirstByteSeen(a: byte) returns (steps: seq<Step>)
    ensures steps == [BeginPush(a), Store, Increment, Wrap, BeginRead(1), Compare]
    ensures IsRun(Init(), steps) && IsPacedRun(Init(), steps)
    ensures Run(Init(), steps) == Init().(buffer := Init().buffer[0 := a], end := 1, pushed := [a], reader := Reloading(1))
  {
    steps := Extend(Init(), [], BeginPush(a));
    steps := Extend(Init(), steps, Store);
    steps := Extend(Init(), steps, Increment);
    steps := Extend(Init(), steps, Wrap);
    steps := Extend(Init(), steps, BeginRead(1));
    steps := Extend(Init(), steps, Compare);
  }

  lemma SecondByteSeen(a: byte, b: byte, before: seq<Step>) returns (steps: seq<Step>)
    requires IsRun(Init(), before) && IsPacedRun(Init(), before)
    requires Run(Init(), before) == Init().(buffer := Init().buffer[0 := a], end := 1, pushed := [a], reader := Reloading(1))
    ensures steps == before + [BeginPush(b), Store, Increment, Reload]
    ensures IsRun(Init(), steps) && IsPacedRun(Init(), steps)
    ensures Run(Init(), steps)
         == Init().(buffer := Init().buffer[0 := a][1 := b], end := 2, pushed := [a, b], reader := Loading(2), writer := Wrapping)
  {
    steps := Extend(Init(), before, BeginPush(b));
    steps := Extend(Init(), steps, Store);
    steps := Extend(Init(), steps, Increment);
    steps := Extend(Init(), steps, Reload);
  }
}
