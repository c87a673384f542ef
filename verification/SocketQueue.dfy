/** The queue of accepted sockets between the master thread and the worker threads of the
    embedded HTTP server (src/mongoose.cc, consume_socket and produce_socket).

    The ring is given twice: as the class SocketRing, whose methods are the code that runs
    between taking and releasing the mutex, and as the value Ring, on which the methods are
    specified.  The protocol around it (one mutex, two condition variables, any number of
    workers, one producer) is a step relation with one step per program point.  It describes
    the server before stop_flag is set. */
module SocketQueue {

  type Socket = int

  /** The slot a counter points at: the counter modulo the array size, MGSQLEN = 20. */
  function Slot(counter: nat): nat { counter % 20 }

  // ---------------------------------------------------------------- the ring as a value

  datatype Ring = Ring(queue: seq<Socket>, head: int, tail: int)

  predicate RingOk(r: Ring) {
    && |r.queue| == 20
    && 0 <= r.tail <= 20
    && r.tail <= r.head <= r.tail + 20
  }

  /** The slots the counters tail .. head-1 point at. */
  function Window(queue: seq<Socket>, tail: nat, head: nat): seq<Socket>
    requires |queue| == 20 && tail <= head
    decreases head - tail
  {
    if tail == head then [] else [queue[Slot(tail)]] + Window(queue, tail + 1, head)
  }

  /** The queued sockets, oldest first. */
  function Contents(r: Ring): seq<Socket>
    requires RingOk(r)
  {
    Window(r.queue, r.tail, r.head)
  }

  function PutRing(r: Ring, sp: Socket): Ring
    requires |r.queue| == 20 && 0 <= r.head
  {
    Ring(r.queue[Slot(r.head) := sp], r.head + 1, r.tail)
  }

  /** The loop that rebases both counters once the tail has passed the array size. */
  function Rebase(head: int, tail: int): (int, int)
    decreases tail
  {
    if tail > 20 then Rebase(head - 20, tail - 20) else (head, tail)
  }

  function TakeRing(r: Ring): (Ring, Socket)
    requires |r.queue| == 20 && 0 <= r.tail
  {
    var (head, tail) := Rebase(r.head, r.tail + 1);
    (Ring(r.queue, head, tail), r.queue[Slot(r.tail)])
  }

  lemma {:induction false} WindowAfterPut(queue: seq<Socket>, tail: nat, head: nat, sp: Socket)
    requires |queue| == 20 && tail <= head < tail + 20
    ensures Window(queue[Slot(head) := sp], tail, head + 1) == Window(queue, tail, head) + [sp]
    decreases head - tail
  {
    var after := queue[Slot(head) := sp];
    if tail == head {
      assert Window(after, tail + 1, head + 1) == [];
    } else {
      WindowAfterPut(queue, tail + 1, head, sp);
      assert Slot(tail) != Slot(head);
    }
  }

  lemma {:induction false} WindowRebased(queue: seq<Socket>, tail: nat, head: nat)
    requires |queue| == 20 && tail <= head
    ensures Window(queue, tail + 20, head + 20) == Window(queue, tail, head)
    decreases head - tail
  {
    if tail < head {
      WindowRebased(queue, tail + 1, head);
    }
  }

  lemma PutIsEnqueue(r: Ring, sp: Socket)
    requires RingOk(r) && r.head - r.tail < 20
    ensures RingOk(PutRing(r, sp)) && Contents(PutRing(r, sp)) == Contents(r) + [sp]
  {
    WindowAfterPut(r.queue, r.tail, r.head, sp);
  }

  lemma TakeIsDequeue(r: Ring)
    requires RingOk(r) && r.head > r.tail
    ensures RingOk(TakeRing(r).0) && TakeRing(r).0.head - TakeRing(r).0.tail == r.head - r.tail - 1
    ensures Contents(r) == [TakeRing(r).1] + Contents(TakeRing(r).0)
  {
    if r.tail == 20 {
      assert Rebase(r.head - 20, 1) == (r.head - 20, 1);
      WindowRebased(r.queue, 1, r.head - 20);
    }
  }

  // ------------------------------------------------- the code inside the critical section

  class SocketRing {
    var queue: array<Socket>
    var head: int
    var tail: int

    ghost function Value(): Ring
      reads this, queue
    {
      Ring(queue[..], head, tail)
    }

    ghost predicate Valid()
      reads this, queue
    {
      RingOk(Value())
    }

    constructor ()
      ensures Valid() && fresh(queue) && Contents(Value()) == []
    {
      queue := new Socket[20](_ => 0);
      head, tail := 0, 0;
    }

    method Put(sp: Socket) returns (queued: bool)
      requires Valid()
      modifies this`head, queue
      ensures Valid()
      ensures queued <==> old(head) - tail < 20
      ensures Value() == if queued then PutRing(old(Value()), sp) else old(Value())
      ensures Contents(Value()) == old(Contents(Value())) + if queued then [sp] else []
    {
      queued := head - tail < queue.Length;
      if queued {
        PutIsEnqueue(Value(), sp);
        queue[Slot(head)] := sp;
        head := head + 1;
        assert Value() == PutRing(old(Value()), sp);
      }
    }

    method Take() returns (taken: bool, sp: Socket)
      requires Valid()
      modifies this`head, this`tail
      ensures Valid()
      ensures taken <==> old(head) > old(tail)
      ensures taken ==> Value() == TakeRing(old(Value())).0 && sp == TakeRing(old(Value())).1
      ensures taken ==> old(Contents(Value())) == [sp] + Contents(Value())
      ensures !taken ==> Value() == old(Value())
    {
      taken, sp := head > tail, 0;
      if taken {
        TakeIsDequeue(Value());
        sp := queue[Slot(tail)];
        tail := tail + 1;
        while tail > queue.Length
          invariant 0 <= tail
          invariant Rebase(head, tail) == Rebase(old(head), old(tail) + 1)
        {
          tail := tail - queue.Length;
          head := head - queue.Length;
        }
      }
    }
  }

  // ------------------------------------------------------------------------- the protocol

  /** Where a worker is inside consume_socket; Busy is anywhere outside it. */
  datatype WorkerPc = Busy | Testing | Asleep | Woken | Taking | Signalling | Unlocking {
    predicate HoldsMutex() { Testing? || Taking? || Signalling? || Unlocking? }
  }

  /** Where the master thread is inside produce_socket, with the socket it brings. */
  datatype ProducerPc =
    | Accepting
    | PEntering(sp: Socket)
    | PTesting(sp: Socket)
    | PAsleep(sp: Socket)
    | PWoken(sp: Socket)
    | PPutting(sp: Socket)
    | PSignalling
    | PUnlocking
  {
    predicate HoldsMutex() { PTesting? || PPutting? || PSignalling? || PUnlocking? }

    predicate HasSocket() { PEntering? || PTesting? || PAsleep? || PWoken? || PPutting? }

    /** The socket brought by the current call and not yet in the ring. */
    function Pending(): seq<Socket> { if HasSocket() then [sp] else [] }
  }

  datatype Owner = Nobody | Worker(id: nat) | Producer

  /** produced and consumed are histories: every socket ever offered, and every socket ever
      handed to a worker, in order. */
  datatype State = State(
    workers: seq<WorkerPc>,
    producer: ProducerPc,
    mutex: Owner,
    ring: Ring,
    produced: seq<Socket>,
    consumed: seq<Socket>)
  {
    function Queued(): int { ring.head - ring.tail }

    /** How many workers are at a program point. */
    function Workers(pc: WorkerPc): nat { multiset(workers)[pc] }

    /** Workers that are certain to look at the queue again before they can sleep. */
    function Awake(): nat { Workers(Woken) + Workers(Testing) + Workers(Taking) }
  }

  datatype Step =
    | Lock(i: nat) | Test(i: nat) | TakeSocket(i: nat) | SignalEmpty(i: nat) | Unlock(i: nat)
    | Reacquire(i: nat) | SpuriousWake(i: nat)
    | Offer(sp: Socket) | PLock | PTest | PutSocket | SignalFull(i: nat) | SignalFullNobody | PUnlock
    | PReacquire | PSpuriousWake
  {
    /** A step that no thread inside the protocol is bound to take. */
    predicate FromOutside() { Offer? || SpuriousWake? || PSpuriousWake? }
  }

  ghost predicate Init(s: State) {
    && (forall i :: 0 <= i < |s.workers| ==> s.workers[i] == Busy)
    && s.producer == Accepting
    && s.mutex == Nobody
    && |s.ring.queue| == 20 && s.ring.head == s.ring.tail == 0
    && s.produced == s.consumed == []
  }

  predicate At(s: State, i: nat, pc: WorkerPc) {
    i < |s.workers| && s.workers[i] == pc
  }

  predicate Enabled(s: State, step: Step) {
    match step
    case Lock(i) => At(s, i, Busy) && s.mutex == Nobody
    case Test(i) => At(s, i, Testing)
    case TakeSocket(i) => At(s, i, Taking) && |s.ring.queue| == 20 && 0 <= s.ring.tail
    case SignalEmpty(i) => At(s, i, Signalling)
    case Unlock(i) => At(s, i, Unlocking)
    case Reacquire(i) => At(s, i, Woken) && s.mutex == Nobody
    case SpuriousWake(i) => At(s, i, Asleep)
    case Offer(_) => s.producer == Accepting
    case PLock => s.producer.PEntering? && s.mutex == Nobody
    case PTest => s.producer.PTesting?
    case PutSocket => s.producer.PPutting? && |s.ring.queue| == 20 && 0 <= s.ring.head
    case SignalFull(i) => s.producer.PSignalling? && At(s, i, Asleep)
    case SignalFullNobody => s.producer.PSignalling? && Asleep !in s.workers
    case PUnlock => s.producer.PUnlocking?
    case PReacquire => s.producer.PWoken? && s.mutex == Nobody
    case PSpuriousWake => s.producer.PAsleep?
  }

  /** pthread_cond_wait releases the mutex and sleeps in one step; pthread_cond_signal wakes one
      sleeper if there is one. */
  function Apply(s: State, step: Step): State
    requires Enabled(s, step)
  {
    match step
    case Lock(i) => s.(workers := s.workers[i := Testing], mutex := Worker(i))
    case Test(i) =>
      if s.ring.head == s.ring.tail
      then s.(workers := s.workers[i := Asleep], mutex := Nobody)
      else s.(workers := s.workers[i := Taking])
    case TakeSocket(i) =>
      if s.ring.head > s.ring.tail
      then var (ring, sp) := TakeRing(s.ring);
        s.(workers := s.workers[i := Signalling], ring := ring, consumed := s.consumed + [sp])
      else s.(workers := s.workers[i := Signalling])
    case SignalEmpty(i) =>
      s.(workers := s.workers[i := Unlocking],
         producer := if s.producer.PAsleep? then PWoken(s.producer.sp) else s.producer)
    case Unlock(i) => s.(workers := s.workers[i := Busy], mutex := Nobody)
    case Reacquire(i) => s.(workers := s.workers[i := Testing], mutex := Worker(i))
    case SpuriousWake(i) => s.(workers := s.workers[i := Woken])
    case Offer(sp) => s.(producer := PEntering(sp), produced := s.produced + [sp])
    case PLock => s.(producer := PTesting(s.producer.sp), mutex := Producer)
    case PTest =>
      if s.ring.head - s.ring.tail >= 20
      then s.(producer := PAsleep(s.producer.sp), mutex := Nobody)
      else s.(producer := PPutting(s.producer.sp))
    case PutSocket =>
      if s.ring.head - s.ring.tail < 20
      then s.(producer := PSignalling, ring := PutRing(s.ring, s.producer.sp))
      else s.(producer := PSignalling)
    case SignalFull(i) => s.(producer := PUnlocking, workers := s.workers[i := Woken])
    case SignalFullNobody => s.(producer := PUnlocking)
    case PUnlock => s.(producer := Accepting, mutex := Nobody)
    case PReacquire => s.(producer := PTesting(s.producer.sp), mutex := Producer)
    case PSpuriousWake => s.(producer := PWoken(s.producer.sp))
  }

  ghost predicate Next(s: State, t: State) {
    exists step :: Enabled(s, step) && t == Apply(s, step)
  }

  ghost predicate NextAt(run: seq<State>, k: nat)
    requires 0 < k < |run|
  {
    Next(run[k - 1], run[k])
  }

  /** A run of any length: every interleaving of the threads, spurious wakeups included. */
  ghost predicate IsRun(run: seq<State>) {
    && |run| > 0 && Init(run[0])
    && forall k :: 0 < k < |run| ==> NextAt(run, k)
  }

  // ------------------------------------------------------------------------ the invariant

  ghost predicate MutualExclusion(s: State) {
    && (forall i :: 0 <= i < |s.workers| ==> (s.workers[i].HoldsMutex() <==> s.mutex == Worker(i)))
    && (s.producer.HoldsMutex() <==> s.mutex == Producer)
    && (s.mutex.Worker? ==> s.mutex.id < |s.workers|)
  }

  /** If a worker sleeps unsignalled, every queued socket has an awake worker coming for it; the
      one being signalled right now is still unaccounted for. */
  ghost predicate WakeupsCoverQueue(s: State) {
    s.Workers(Asleep) > 0 ==> s.Queued() <= s.Awake() + (if s.producer.PSignalling? then 1 else 0)
  }

  ghost predicate ProducerSleepsOnFull(s: State) {
    s.producer.PAsleep? ==> s.Queued() == 20 || s.Workers(Signalling) > 0
  }

  ghost predicate RingHoldsTheRest(s: State) {
    && RingOk(s.ring)
    && s.produced == s.consumed + Contents(s.ring) + s.producer.Pending()
  }

  /** What a thread that holds the mutex has found out and not yet acted on. */
  ghost predicate TestsStillHold(s: State) {
    && (s.producer.PPutting? ==> s.Queued() < 20)
    && (forall i :: 0 <= i < |s.workers| && s.workers[i] == Taking ==> s.Queued() > 0)
  }

  ghost predicate Inv(s: State) {
    && MutualExclusion(s) && TestsStillHold(s) && RingHoldsTheRest(s)
    && WakeupsCoverQueue(s) && ProducerSleepsOnFull(s)
  }

  lemma InitImpliesInv(s: State)
    requires Init(s)
    ensures Inv(s)
  {
    forall pc: WorkerPc | pc in multiset(s.workers) ensures pc == Busy {}
  }

  lemma StepKeepsMutualExclusion(s: State, step: Step)
    requires MutualExclusion(s) && Enabled(s, step)
    ensures MutualExclusion(Apply(s, step))
  {
  }

  /** Only the owner of the mutex is at a program point that holds it. */
  lemma HolderIsAlone(s: State, pc: WorkerPc)
    requires MutualExclusion(s) && pc.HoldsMutex()
    ensures s.Workers(pc) > 0 ==> s.mutex.Worker? && s.workers[s.mutex.id] == pc
  {
    if pc in multiset(s.workers) {
      var k :| 0 <= k < |s.workers| && s.workers[k] == pc;
    }
  }

  lemma StepKeepsTests(s: State, step: Step)
    requires MutualExclusion(s) && RingOk(s.ring) && TestsStillHold(s) && Enabled(s, step)
    ensures TestsStillHold(Apply(s, step))
  {
  }

  lemma StepKeepsRing(s: State, step: Step)
    requires TestsStillHold(s) && RingHoldsTheRest(s) && Enabled(s, step)
    ensures RingHoldsTheRest(Apply(s, step))
  {
    if step.TakeSocket? {
      TakeIsDequeue(s.ring);
    } else if step.PutSocket? {
      PutIsEnqueue(s.ring, s.producer.sp);
    } else {
      assert Apply(s, step).ring == s.ring;
    }
  }

  /** A worker moving from one program point to another changes two of the counts. */
  lemma MoveWorker(s: State, i: nat, pc: WorkerPc, t: State)
    requires i < |s.workers| && t.workers == s.workers[i := pc]
    ensures forall x :: (
      t.Workers(x) == s.Workers(x) - (if x == s.workers[i] then 1 else 0) + (if x == pc then 1 else 0))
  {
  }

  lemma WorkerStepKeepsCover(s: State, step: Step)
    requires step.Lock? || step.Unlock? || step.Reacquire? || step.SpuriousWake? || step.SignalEmpty?
    requires WakeupsCoverQueue(s) && Enabled(s, step)
    ensures WakeupsCoverQueue(Apply(s, step))
  {
    var t := Apply(s, step);
    MoveWorker(s, step.i, t.workers[step.i], t);
  }

  lemma TestKeepsCover(s: State, i: nat)
    requires WakeupsCoverQueue(s) && Enabled(s, Test(i))
    ensures WakeupsCoverQueue(Apply(s, Test(i)))
  {
    var t := Apply(s, Test(i));
    MoveWorker(s, i, t.workers[i], t);
  }

  lemma TakeKeepsCover(s: State, i: nat)
    requires RingOk(s.ring) && TestsStillHold(s) && WakeupsCoverQueue(s) && Enabled(s, TakeSocket(i))
    ensures WakeupsCoverQueue(Apply(s, TakeSocket(i)))
  {
    var t := Apply(s, TakeSocket(i));
    TakeIsDequeue(s.ring);
    MoveWorker(s, i, Signalling, t);
  }

  lemma ProducerStepKeepsCover(s: State, step: Step)
    requires step.Offer? || step.PLock? || step.PTest? || step.PutSocket? || step.SignalFull?
             || step.SignalFullNobody? || step.PUnlock? || step.PReacquire? || step.PSpuriousWake?
    requires WakeupsCoverQueue(s) && Enabled(s, step)
    ensures WakeupsCoverQueue(Apply(s, step))
  {
    if step.SignalFull? {
      MoveWorker(s, step.i, Woken, Apply(s, step));
    }
  }

  lemma StepKeepsCover(s: State, step: Step)
    requires RingOk(s.ring) && TestsStillHold(s) && WakeupsCoverQueue(s) && Enabled(s, step)
    ensures WakeupsCoverQueue(Apply(s, step))
  {
    if step.Lock? || step.Unlock? || step.Reacquire? || step.SpuriousWake? || step.SignalEmpty? {
      WorkerStepKeepsCover(s, step);
    } else if step.Test? {
      TestKeepsCover(s, step.i);
    } else if step.TakeSocket? {
      TakeKeepsCover(s, step.i);
    } else {
      ProducerStepKeepsCover(s, step);
    }
  }

  lemma StepKeepsProducer(s: State, step: Step)
    requires MutualExclusion(s) && RingOk(s.ring) && ProducerSleepsOnFull(s) && Enabled(s, step)
    ensures ProducerSleepsOnFull(Apply(s, step))
  {
    HolderIsAlone(s, Signalling);
  }

  lemma StepKeepsInv(s: State, step: Step)
    requires Inv(s) && Enabled(s, step)
    ensures Inv(Apply(s, step))
  {
    StepKeepsMutualExclusion(s, step);
    StepKeepsTests(s, step);
    StepKeepsRing(s, step);
    StepKeepsCover(s, step);
    StepKeepsProducer(s, step);
  }

  lemma {:induction false} RunKeepsInv(run: seq<State>, k: nat)
    requires IsRun(run) && k < |run|
    ensures Inv(run[k])
  {
    if k == 0 {
      InitImpliesInv(run[0]);
    } else {
      RunKeepsInv(run, k - 1);
      assert NextAt(run, k);
      var step :| Enabled(run[k - 1], step) && run[k] == Apply(run[k - 1], step);
      StepKeepsInv(run[k - 1], step);
    }
  }

  // ------------------------------------------------------------------------- the theorems

  /** The ring is a bounded FIFO: what was handed out is a prefix of what was offered, the rest
      is queued in order (plus the one the producer still carries), and the counters stay small. */
  lemma SocketsAreFifo(run: seq<State>, k: nat)
    requires IsRun(run) && k < |run|
    ensures var s := run[k];
      && s.consumed <= s.produced
      && RingOk(s.ring)
      && s.produced[|s.consumed|..] == Contents(s.ring) + s.producer.Pending()
      && 0 <= s.ring.tail <= 20 && s.ring.tail <= s.ring.head <= s.ring.tail + 20
  {
    RunKeepsInv(run, k);
    var s := run[k];
    assert s.produced == s.consumed + (Contents(s.ring) + s.producer.Pending());
  }

  /** Handed-out sockets are never taken back: the history only grows along a run. */
  lemma {:induction false} ConsumedOnlyGrows(run: seq<State>, j: nat, k: nat)
    requires IsRun(run) && j <= k < |run|
    ensures run[j].consumed <= run[k].consumed && run[j].produced <= run[k].produced
    decreases k - j
  {
    if j < k {
      ConsumedOnlyGrows(run, j, k - 1);
      assert NextAt(run, k);
    }
  }

  /** No lost wakeup: whenever the mutex is free, a worker that sleeps unsignalled means there
      are at least as many signalled workers as queued sockets, and a producer that sleeps
      unsignalled means the queue is full. */
  lemma NoLostWakeup(run: seq<State>, k: nat)
    requires IsRun(run) && k < |run| && run[k].mutex == Nobody
    ensures var s := run[k];
      && (s.Workers(Asleep) > 0 ==> s.Queued() <= s.Workers(Woken))
      && (s.producer.PAsleep? ==> s.Queued() == 20)
  {
    RunKeepsInv(run, k);
    var s := run[k];
    HolderIsAlone(s, Testing);
    HolderIsAlone(s, Taking);
    HolderIsAlone(s, Signalling);
  }

  /** The threads are never all asleep with a socket waiting. */
  lemma NeverAllAsleepWithWork(run: seq<State>, k: nat)
    requires IsRun(run) && k < |run| && |run[k].workers| > 0
    requires forall i :: 0 <= i < |run[k].workers| ==> run[k].workers[i] == Asleep
    ensures !run[k].producer.PAsleep?
    ensures !run[k].producer.PSignalling? ==> run[k].Queued() == 0
  {
    RunKeepsInv(run, k);
    var s := run[k];
    assert s.workers[0] == Asleep && Asleep in multiset(s.workers);
    forall pc: WorkerPc | pc in multiset(s.workers) ensures pc == Asleep {}
  }

  lemma HolderCanStep(s: State)
    requires MutualExclusion(s) && RingOk(s.ring) && s.mutex != Nobody
    ensures exists step :: Enabled(s, step) && !step.FromOutside() && !step.Lock?
  {
    if s.mutex == Producer {
      if Asleep in s.workers {
        var i :| 0 <= i < |s.workers| && s.workers[i] == Asleep;
        assert Enabled(s, PTest) || Enabled(s, PutSocket) || Enabled(s, SignalFull(i)) || Enabled(s, PUnlock);
      } else {
        assert Enabled(s, PTest) || Enabled(s, PutSocket) || Enabled(s, SignalFullNobody) || Enabled(s, PUnlock);
      }
    } else {
      var i := s.mutex.id;
      assert Enabled(s, Test(i)) || Enabled(s, TakeSocket(i)) || Enabled(s, SignalEmpty(i)) || Enabled(s, Unlock(i));
    }
  }

  /** No deadlock: while a socket is queued or carried by the producer, some thread can take a
      step that needs neither a new connection nor a spurious wakeup. */
  lemma NoDeadlock(run: seq<State>, k: nat)
    requires IsRun(run) && k < |run| && |run[k].workers| > 0
    requires run[k].Queued() > 0 || run[k].producer.HasSocket()
    ensures exists step :: Enabled(run[k], step) && !step.FromOutside()
  {
    RunKeepsInv(run, k);
    var s := run[k];
    if s.mutex != Nobody {
      HolderCanStep(s);
    } else if i :| 0 <= i < |s.workers| && s.workers[i] == Busy {
      assert Enabled(s, Lock(i));
    } else if i :| 0 <= i < |s.workers| && s.workers[i] == Woken {
      assert Enabled(s, Reacquire(i));
    } else {
      NeverAllAsleepWithWork(run, k);
      assert Enabled(s, PLock) || Enabled(s, PReacquire);
    }
  }

  /** How far a thread inside the protocol is from being asleep or outside it; a thread that can
      still wake another one carries that thread's distance as well. */
  function WorkerRank(pc: WorkerPc): nat {
    match pc
    case Busy => 0
    case Asleep => 0
    case Unlocking => 1
    case Signalling => 4
    case Taking => 5
    case Testing => 6
    case Woken => 7
  }

  function ProducerRank(pc: ProducerPc): nat {
    match pc
    case Accepting => 0
    case PUnlocking => 1
    case PSignalling => 9
    case PPutting(_) => 10
    case PAsleep(_) => 11
    case PTesting(_) => 12
    case _ => 13
  }

  function WorkersDistance(ws: seq<WorkerPc>): nat {
    if ws == [] then 0 else WorkerRank(ws[0]) + WorkersDistance(ws[1..])
  }

  function Distance(s: State): nat { WorkersDistance(s.workers) + ProducerRank(s.producer) }

  lemma {:induction false} MoveChangesDistance(ws: seq<WorkerPc>, i: nat, pc: WorkerPc)
    requires i < |ws|
    ensures WorkersDistance(ws[i := pc]) == WorkersDistance(ws) - WorkerRank(ws[i]) + WorkerRank(pc)
  {
    if i == 0 {
      assert ws[0 := pc][1..] == ws[1..];
    } else {
      MoveChangesDistance(ws[1..], i - 1, pc);
      assert ws[i := pc][1..] == ws[1..][i - 1 := pc];
    }
  }

  /** Every step inside the protocol brings the threads closer to rest, so between two outside
      events (a connection, a spurious wakeup, a worker coming back) only finitely many happen. */
  lemma InternalStepsRunOut(s: State, step: Step)
    requires Enabled(s, step) && !step.FromOutside() && !step.Lock?
    ensures Distance(Apply(s, step)) < Distance(s)
  {
    var t := Apply(s, step);
    if step.Test? || step.TakeSocket? || step.SignalEmpty? || step.Unlock? || step.Reacquire? {
      MoveChangesDistance(s.workers, step.i, t.workers[step.i]);
    } else if step.SignalFull? {
      MoveChangesDistance(s.workers, step.i, Woken);
    }
  }

  /** Where those steps end: a reachable state in which no thread inside the protocol can move.
      Then a socket is still queued only if every worker is busy with another connection, and
      the producer still carries one only if, besides, the queue is full. */
  lemma RestMeansServed(run: seq<State>, k: nat)
    requires IsRun(run) && k < |run|
    requires !exists step :: Enabled(run[k], step) && !step.FromOutside() && !step.Lock?
    ensures var s := run[k];
      && (s.Queued() > 0 ==> forall i :: 0 <= i < |s.workers| ==> s.workers[i] == Busy)
      && (s.producer == Accepting || (s.producer.PAsleep? && s.Queued() == 20))
  {
    RunKeepsInv(run, k);
    var s := run[k];
    if s.mutex != Nobody {
      HolderCanStep(s);
    }
    assert !Enabled(s, PLock) && !Enabled(s, PReacquire);
    forall i | 0 <= i < |s.workers| ensures s.workers[i] == Busy || s.workers[i] == Asleep {
      assert !Enabled(s, Reacquire(i));
    }
    NoLostWakeup(run, k);
    if i :| 0 <= i < |s.workers| && s.workers[i] == Asleep {
      assert Asleep in multiset(s.workers);
      assert Woken !in multiset(s.workers);
    }
  }
}
