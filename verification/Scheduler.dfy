/** The scheduling protocol: any number of workers, queues and senders, one step for each region of code
    that runs under a lock or touches only a worker's own variables. */
module Scheduler {
  import opened Forms
  import opened Rings

  /** Where a queue is: with nobody, with the thread that launches its context, in the global list, or
      in a worker's hands. The code has no such field; the invariant ties it to what the code has. */
  datatype Place = Resting | Launching | Listed | HeldBy(worker: nat)

  /** `pushed` and `handled` record, in order, the messages pushed and those whose dispatch has ended. */
  datatype Queue = Queue(ring: Ring, inGlobal: bool, alive: bool, place: Place,
                         pushed: seq<Message>, handled: seq<Message>)

  /** The counters of the loop in `context_message_dispatch`: `i`, `n`, and the length read into `n`.
      `from` records how many messages of the queue had been handled when the call began on it. */
  datatype Batch = Batch(i: nat, n: nat, len: nat, from: nat)

  /** Where a worker is in its loop. `Idle` is between calls with no queue, or about to return the next
      one; `Ready` is about to look up the context; `Orphan` goes on without one, which only the written
      form does; `Swapping` is between the last pop and push. */
  datatype Phase =
    | Idle
    | Ready(q: nat)
    | Orphan(q: nat)
    | Popping(q: nat, batch: Batch)
    | Measuring(q: nat, m: Message, from: nat)
    | Handling(q: nat, m: Message, batch: Batch)
    | Finishing(q: nat, batch: Batch)
    | Swapping(q: nat, nextq: nat)
  {
    function Holds(): set<nat> {
      match this
      case Idle => {}
      case Ready(q) => {q}
      case Orphan(q) => {q}
      case Popping(q, _) => {q}
      case Measuring(q, _, _) => {q}
      case Handling(q, _, _) => {q}
      case Finishing(q, _) => {q}
      case Swapping(q, nq) => {q, nq}
    }
    /** The message of queue `o` that is popped and not yet handled. */
    function InFlight(o: nat): seq<Message> {
      match this
      case Measuring(q, m, _) => if q == o then [m] else []
      case Handling(q, m, _) => if q == o then [m] else []
      case _ => []
    }
  }

  datatype Worker = Worker(weight: int, phase: Phase)

  /** `crashed`: a null context was used. */
  datatype State = State(queues: map<nat, Queue>, global: seq<nat>, workers: map<nat, Worker>, crashed: bool) {
    function With(q: nat, x: Queue): State { this.(queues := queues[q := x]) }
    function In(w: nat, p: Phase): State
      requires w in workers
    {
      this.(workers := workers[w := workers[w].(phase := p)])
    }
  }

  datatype Step =
    | Create(q: nat)                  // context_t::create, up to the push
    | Launch(q: nat)                  // the push that ends it
    | Send(q: nat, m: Message)        // mq_push, with the push nested in it
    | Retire(q: nat)                  // handle_retire of the queue's context
    | Fetch(w: nat)                   // global pop with no queue in hand
    | Begin(w: nat)                   // handle_grab
    | Pop(w: nat)                     // mq_pop
    | PopOrphan(w: nat)               // mq_pop with no context
    | Measure(w: nat)                 // length(), then the shift
    | EndDispatch(w: nat)             // the handler returns
    | FetchNext(w: nat)               // global pop with the queue still in hand
    | Requeue(w: nat)                 // global push of the old queue

  function Shr(n: nat, k: nat): (r: nat)
    ensures r <= n
  {
    if k == 0 then n else Shr(n / 2, k - 1)
  }

  /** How many messages one call handles: `len` is the length read after the first pop. */
  function Budget(weight: int, len: nat): nat {
    if weight < 0 then 1
    else if Shr(len, weight) == 0 then 1
    else Shr(len, weight)
  }

  predicate Enabled(s: State, step: Step) {
    !s.crashed && match step
    case Create(q) => q !in s.queues
    case Launch(q) => q in s.queues && s.queues[q].place.Launching?
    case Send(q, _) => q in s.queues
    case Retire(q) => q in s.queues
    case Fetch(w) => w in s.workers && s.workers[w].phase.Idle?
    case Begin(w) => w in s.workers && s.workers[w].phase.Ready? && s.workers[w].phase.q in s.queues
    case Pop(w) => w in s.workers && s.workers[w].phase.Popping? && s.workers[w].phase.q in s.queues
    case PopOrphan(w) => w in s.workers && s.workers[w].phase.Orphan? && s.workers[w].phase.q in s.queues
    case Measure(w) => w in s.workers && s.workers[w].phase.Measuring? && s.workers[w].phase.q in s.queues
    case EndDispatch(w) => w in s.workers && s.workers[w].phase.Handling? && s.workers[w].phase.q in s.queues
    case FetchNext(w) => w in s.workers && s.workers[w].phase.Finishing?
    case Requeue(w) => w in s.workers && s.workers[w].phase.Swapping? && s.workers[w].phase.q in s.queues
  }

  /** The step that takes a queue from the head of the global list, if there is one. */
  function TakeHead(s: State, w: nat): State
    requires s.global != []
  {
    var q := s.global[0];
    var s' := s.(global := s.global[1..]);
    if q in s.queues then s'.With(q, s.queues[q].(place := HeldBy(w))) else s'
  }

  function DoSend(form: Form, s: State, q: nat, m: Message): State
    requires q in s.queues && s.queues[q].ring.Valid()
  {
    var x := s.queues[q];
    var x' := x.(ring := Push(form, x.ring, m), pushed := x.pushed + [m]);
    if x.inGlobal then s.With(q, x')
    else s.With(q, x'.(inGlobal := true, place := Listed)).(global := s.global + [q])
  }

  function DoPop(s: State, w: nat): State
    requires Enabled(s, Pop(w)) && s.queues[s.workers[w].phase.q].ring.Valid()
  {
    var Worker(weight, Popping(q, b)) := s.workers[w];
    var x := s.queues[q];
    if x.ring.head == x.ring.tail then
      s.In(w, Idle).With(q, x.(inGlobal := false, place := Resting))
    else
      var (m, r) := Rings.Pop(x.ring);
      s.In(w, if b.i == 0 && weight >= 0 then Measuring(q, m, b.from) else Handling(q, m, b)).With(q, x.(ring := r))
  }

  /** Without a context the queue is released, which lists it. Repaired, the call then gives it up; as
      written, it goes on to pop from it. */
  function DoBegin(form: Form, s: State, w: nat): State
    requires Enabled(s, Begin(w))
  {
    var q := s.workers[w].phase.q;
    var x := s.queues[q];
    if x.alive then s.In(w, Popping(q, Batch(0, 1, 0, |x.handled|)))
    else s.In(w, if form.Written? then Orphan(q) else Idle).With(q, x.(place := Listed)).(global := s.global + [q])
  }

  /** A message popped without a context is dispatched through a null pointer. */
  function DoPopOrphan(s: State, w: nat): State
    requires Enabled(s, PopOrphan(w)) && s.queues[s.workers[w].phase.q].ring.Valid()
  {
    var q := s.workers[w].phase.q;
    var x := s.queues[q];
    if x.ring.head == x.ring.tail then s.In(w, Idle).With(q, x.(inGlobal := false))
    else s.With(q, x.(ring := Rings.Pop(x.ring).1)).(crashed := true)
  }

  ghost predicate RingsValid(s: State) {
    forall q <- s.queues :: s.queues[q].ring.Valid()
  }

  function Apply(form: Form, s: State, step: Step): State
    requires Enabled(s, step) && RingsValid(s)
  {
    match step
    case Create(q) => s.With(q, Queue(Empty(), true, true, Launching, [], []))
    case Launch(q) => s.With(q, s.queues[q].(place := Listed)).(global := s.global + [q])
    case Send(q, m) => DoSend(form, s, q, m)
    case Retire(q) => s.With(q, s.queues[q].(alive := false))
    case Fetch(w) => if s.global == [] then s else TakeHead(s, w).In(w, Ready(s.global[0]))
    case Begin(w) => DoBegin(form, s, w)
    case Pop(w) => DoPop(s, w)
    case PopOrphan(w) => DoPopOrphan(s, w)
    case Measure(w) =>
      var Worker(weight, Measuring(q, m, from)) := s.workers[w];
      var len := |s.queues[q].ring.Contents()|;
      s.In(w, Handling(q, m, Batch(0, if weight < 0 then 1 else Shr(len, weight), len, from)))
    case EndDispatch(w) =>
      var Handling(q, m, b) := s.workers[w].phase;
      var b' := b.(i := b.i + 1);
      s.In(w, if b'.i < b'.n then Popping(q, b') else Finishing(q, b'))
       .With(q, s.queues[q].(handled := s.queues[q].handled + [m]))
    case FetchNext(w) =>
      var q := s.workers[w].phase.q;
      if s.global == [] then s.In(w, Ready(q)) else TakeHead(s, w).In(w, Swapping(q, s.global[0]))
    case Requeue(w) =>
      var Swapping(q, nq) := s.workers[w].phase;
      s.In(w, Ready(nq)).With(q, s.queues[q].(place := Listed)).(global := s.global + [q])
  }
}

/** What every step keeps. */
module SchedulerInvariant {
  import opened Forms
  import opened Rings
  import opened Scheduler

  ghost predicate QueueOk(s: State, q: nat)
    requires q in s.queues
  {
    var x := s.queues[q];
    && x.ring.Valid()
    && (x.inGlobal <==> !x.place.Resting?)
    && (x.place.Resting? ==> x.ring.Contents() == [])
    && (x.place.Listed? ==> q in s.global)
    && (x.place.HeldBy? ==> x.place.worker in s.workers && q in s.workers[x.place.worker].phase.Holds())
  }

  /** Where a worker's loop stands on the queue in hand: it has handled `i` messages since it began, and
      what is left of its budget is waiting. */
  ghost predicate LoopOk(weight: int, b: Batch, x: Queue, least: nat) {
    && |x.handled| == b.from + b.i
    && if weight < 0 then b.i == 0 && b.n == 1
       else b.n == Shr(b.len, weight) && (b.i == 0 || b.i < b.n) && |x.ring.Contents()| + b.i + least >= b.n
  }

  ghost predicate PhaseOk(queues: map<nat, Queue>, weight: int, p: Phase)
    requires forall q <- p.Holds() :: q in queues
  {
    match p
    case Idle => true
    case Ready(_) => true
    case Orphan(_) => false
    case Popping(q, b) =>
      if b.i == 0 then b.n == 1 && |queues[q].handled| == b.from else 0 <= weight && LoopOk(weight, b, queues[q], 0)
    case Measuring(q, _, from) => 0 <= weight && |queues[q].handled| == from
    case Handling(q, _, b) => LoopOk(weight, b, queues[q], 1)
    case Finishing(q, b) => b.i == Budget(weight, b.len) && |queues[q].handled| == b.from + b.i
    case Swapping(q, nq) => q != nq
  }

  /** The queues a worker holds are its own, and its loop will not run dry. */
  ghost predicate WorkerOk(s: State, w: nat)
    requires w in s.workers
  {
    var Worker(weight, p) := s.workers[w];
    && (forall q <- p.Holds() :: q in s.queues && s.queues[q].place == HeldBy(w))
    && PhaseOk(s.queues, weight, p)
  }

  ghost predicate ListOk(s: State) {
    && (forall q <- s.global :: q in s.queues && s.queues[q].place.Listed?)
    && (forall i, j :: 0 <= i < j < |s.global| ==> s.global[i] != s.global[j])
  }

  ghost predicate Inv(s: State) {
    && !s.crashed
    && (forall q <- s.queues :: QueueOk(s, q))
    && (forall w <- s.workers :: WorkerOk(s, w))
    && ListOk(s)
  }

  /** A worker begins on a queue whose context is gone. */
  predicate BeginsOnDead(s: State, step: Step) {
    && step.Begin? && step.w in s.workers && s.workers[step.w].phase.Ready?
    && s.workers[step.w].phase.q in s.queues && !s.queues[s.workers[step.w].phase.q].alive
  }

  /** A step of worker `w` on queue `q`, which no other worker holds, that gives up no other queue. */
  ghost predicate Local(s: State, s': State, w: nat, q: nat) {
    && w in s.workers && q in s.queues
    && (s.queues[q].place.HeldBy? ==> s.queues[q].place.worker == w)
    && w in s'.workers && s'.workers == s.workers[w := s'.workers[w]]
    && q in s'.queues && s'.queues == s.queues[q := s'.queues[q]]
    && (forall o <- s.workers[w].phase.Holds() :: o != q ==> o in s'.workers[w].phase.Holds())
    && (forall o <- s.global :: o != q ==> o in s'.global)
  }

  /** What such a step does not touch stays as it should be. */
  lemma LocalKeeps(s: State, s': State, w: nat, q: nat)
    requires Inv(s) && Local(s, s', w, q)
    requires !s'.crashed && QueueOk(s', q) && WorkerOk(s', w) && ListOk(s')
    ensures Inv(s')
  {
    forall o <- s'.queues ensures QueueOk(s', o) {
      if o != q { assert QueueOk(s, o); }
    }
    forall v <- s'.workers ensures WorkerOk(s', v) {
      if v != w { LocalKeepsWorker(s, s', w, q, v); }
    }
  }

  lemma LocalKeepsWorker(s: State, s': State, w: nat, q: nat, v: nat)
    requires Inv(s) && Local(s, s', w, q) && v in s.workers && v != w
    ensures v in s'.workers && WorkerOk(s', v)
  {
    assert WorkerOk(s, v);
    assert s'.workers[v] == s.workers[v];
    forall o <- s.workers[v].phase.Holds() ensures o in s'.queues && s'.queues[o] == s.queues[o] {
      assert s.queues[o].place == HeldBy(v);
    }
  }

  lemma SendKeeps(form: Form, s: State, q: nat, m: Message)
    requires Inv(s) && q in s.queues
    ensures Inv(DoSend(form, s, q, m))
  {
    var x, s' := s.queues[q], DoSend(form, s, q, m);
    assert QueueOk(s, q);
    PushKeepsValid(form, x.ring, m);
    PushKeepsLength(form, x.ring, m);
    forall o <- s'.queues ensures QueueOk(s', o) { assert QueueOk(s, o); }
    forall w <- s'.workers ensures WorkerOk(s', w) { assert WorkerOk(s, w); }
  }

  lemma PushKeepsLength(form: Form, r: Ring, m: Message)
    requires r.Valid()
    ensures |Push(form, r, m).Contents()| == |r.Contents()| + 1
  {
    PushAppends(form, r, m);
  }

  lemma PopKeeps(s: State, w: nat)
    requires Inv(s) && Enabled(s, Step.Pop(w)) && QueueOk(s, s.workers[w].phase.q)
    ensures Inv(DoPop(s, w))
  {
    var q := s.workers[w].phase.q;
    assert WorkerOk(s, w);
    if s.queues[q].ring.head == s.queues[q].ring.tail {
      PopEmptyKeeps(s, w);
    } else {
      PopFullKeeps(s, w);
    }
  }

  lemma PopEmptyKeeps(s: State, w: nat)
    requires Inv(s) && Enabled(s, Step.Pop(w)) && WorkerOk(s, w) && QueueOk(s, s.workers[w].phase.q)
    requires var r := s.queues[s.workers[w].phase.q].ring; r.head == r.tail
    ensures Inv(DoPop(s, w))
  {
    var q, s' := s.workers[w].phase.q, DoPop(s, w);
    LengthIsLength(s.queues[q].ring);
    LocalKeeps(s, s', w, q);
  }

  lemma PopFullKeeps(s: State, w: nat)
    requires Inv(s) && Enabled(s, Step.Pop(w)) && WorkerOk(s, w) && QueueOk(s, s.workers[w].phase.q)
    requires var r := s.queues[s.workers[w].phase.q].ring; r.head != r.tail
    ensures Inv(DoPop(s, w))
  {
    var q, s' := s.workers[w].phase.q, DoPop(s, w);
    PopTakesFirst(s.queues[q].ring);
    LocalKeeps(s, s', w, q);
  }

  /** Taking the head of the global list into the hands of a worker, which goes on in phase `p`. */
  lemma TakeKeeps(s: State, w: nat, p: Phase)
    requires Inv(s) && w in s.workers && s.global != []
    requires if s.workers[w].phase.Finishing?
             then p == Swapping(s.workers[w].phase.q, s.global[0])
             else s.workers[w].phase.Idle? && p == Ready(s.global[0])
    ensures Inv(TakeHead(s, w).In(w, p))
  {
    var q, s' := s.global[0], TakeHead(s, w).In(w, p);
    assert WorkerOk(s, w) && q in s.global && QueueOk(s, q);
    forall o <- s.global ensures o == q || o in s'.global {
      assert s.global == [q] + s'.global;
    }
    LocalKeeps(s, s', w, q);
  }

  lemma FetchKeeps(form: Form, s: State, step: Step)
    requires Inv(s) && Enabled(s, step) && (step.Fetch? || step.FetchNext?)
    ensures Inv(Apply(form, s, step))
  {
    var s' := Apply(form, s, step);
    if s.global != [] {
      TakeKeeps(s, step.w, if step.Fetch? then Ready(s.global[0]) else Swapping(s.workers[step.w].phase.q, s.global[0]));
    } else if step.FetchNext? {
      var q := s.workers[step.w].phase.q;
      assert WorkerOk(s, step.w) && QueueOk(s, q);
          LocalKeeps(s, s', step.w, q);
    }
  }

  /** The steps of launchers and of whoever retires a context. */
  lemma OutsideKeeps(form: Form, s: State, step: Step)
    requires Inv(s) && Enabled(s, step) && (step.Create? || step.Launch? || step.Retire?)
    ensures Inv(Apply(form, s, step))
  {
    var s' := Apply(form, s, step);
    if !step.Create? { assert QueueOk(s, step.q); }
    forall o <- s'.queues ensures QueueOk(s', o) {
      if o in s.queues { assert QueueOk(s, o); }
    }
    forall v <- s'.workers ensures WorkerOk(s', v) {
      OutsideKeepsWorker(form, s, step, v);
    }
  }

  lemma OutsideKeepsWorker(form: Form, s: State, step: Step, v: nat)
    requires Inv(s) && Enabled(s, step) && (step.Create? || step.Launch? || step.Retire?) && v in s.workers
    ensures v in Apply(form, s, step).workers && WorkerOk(Apply(form, s, step), v)
  {
    assert WorkerOk(s, v);
  }

  /** Beginning on a queue with a context, or repaired on any. */
  lemma BeginKeeps(form: Form, s: State, w: nat)
    requires Inv(s) && Enabled(s, Begin(w)) && (form.Repaired? || !BeginsOnDead(s, Begin(w)))
    ensures Inv(Apply(form, s, Begin(w)))
  {
    var q, s' := s.workers[w].phase.q, Apply(form, s, Begin(w));
    assert WorkerOk(s, w) && QueueOk(s, q);
    if !s.queues[q].alive { assert s'.global[|s.global|] == q; }
    LocalKeeps(s, s', w, q);
  }

  lemma MeasureKeeps(form: Form, s: State, w: nat)
    requires Inv(s) && Enabled(s, Measure(w))
    ensures Inv(Apply(form, s, Measure(w)))
  {
    var q, s' := s.workers[w].phase.q, Apply(form, s, Measure(w));
    assert WorkerOk(s, w) && QueueOk(s, q);
    LocalKeeps(s, s', w, q);
  }

  lemma EndKeeps(form: Form, s: State, w: nat)
    requires Inv(s) && Enabled(s, EndDispatch(w))
    ensures Inv(Apply(form, s, EndDispatch(w)))
  {
    var q, s' := s.workers[w].phase.q, Apply(form, s, EndDispatch(w));
    assert WorkerOk(s, w) && QueueOk(s, q);
    LocalKeeps(s, s', w, q);
  }

  lemma RequeueKeeps(form: Form, s: State, w: nat)
    requires Inv(s) && Enabled(s, Requeue(w))
    ensures Inv(Apply(form, s, Requeue(w)))
  {
    var q, nq, s' := s.workers[w].phase.q, s.workers[w].phase.nextq, Apply(form, s, Requeue(w));
    assert WorkerOk(s, w) && QueueOk(s, q);
    assert s'.global[|s.global|] == q;
    LocalKeeps(s, s', w, q);
  }

  /** As written, beginning on a queue whose context is gone lists it while the worker still holds it. */
  lemma DeadBeginBreaks(s: State, step: Step)
    requires Inv(s) && Enabled(s, step) && BeginsOnDead(s, step)
    ensures !Inv(Apply(Written, s, step))
    ensures var s', q := Apply(Written, s, step), s.workers[step.w].phase.q;
            step.w in s'.workers && q in s'.global && q in s'.workers[step.w].phase.Holds()
  {
    var s', q := Apply(Written, s, step), s.workers[step.w].phase.q;
    assert s'.global[|s.global|] == q;
    assert !WorkerOk(s', step.w);
  }

  /** Repaired, every step keeps the invariant. As written, a step keeps it exactly when it does not begin
      on a queue whose context is gone. */
  lemma StepKeepsExact(form: Form, s: State, step: Step)
    requires Inv(s) && Enabled(s, step)
    ensures Inv(Apply(form, s, step)) <==> form.Repaired? || !BeginsOnDead(s, step)
  {
    match step
    case Send(q, m) => SendKeeps(form, s, q, m);
    case Pop(w) => PopKeeps(s, w);
    case PopOrphan(w) => NoOrphan(s, w);
    case Fetch(_) => FetchKeeps(form, s, step);
    case FetchNext(_) => FetchKeeps(form, s, step);
    case Requeue(w) => RequeueKeeps(form, s, w);
    case Measure(w) => MeasureKeeps(form, s, w);
    case EndDispatch(w) => EndKeeps(form, s, w);
    case Begin(w) =>
      if form.Written? && BeginsOnDead(s, step) { DeadBeginBreaks(s, step); } else { BeginKeeps(form, s, w); }
    case _ => OutsideKeeps(form, s, step);
  }

  lemma NoOrphan(s: State, w: nat)
    requires Inv(s) && w in s.workers
    ensures !s.workers[w].phase.Orphan?
  {
    assert WorkerOk(s, w);
  }
}

/** What holds in every reachable state. */
module SchedulerTheorems {
  import opened Forms
  import opened Rings
  import RingRuns
  import opened Scheduler
  import opened SchedulerInvariant

  /** A run: workers of any number and weights, with nothing launched yet, and then any steps in any
      order. */
  datatype Trace = Init(weights: map<nat, int>) | After(past: Trace, step: Step)

  function Begun(weights: map<nat, int>): State {
    State(map[], [], map w | w in weights :: Worker(weights[w], Idle), false)
  }

  /** Every step could be taken. */
  ghost predicate Legal(form: Form, t: Trace)
    decreases t, 0
  {
    t.After? ==> Legal(form, t.past) && Enabled(Reached(form, t.past), t.step)
  }

  ghost function Reached(form: Form, t: Trace): (s: State)
    requires Legal(form, t)
    ensures RingsValid(s)
    decreases t, 1
  {
    match t
    case Init(weights) => Begun(weights)
    case After(past, step) =>
      RingsStayValid(form, Reached(form, past), step);
      Apply(form, Reached(form, past), step)
  }

  lemma RingsStayValid(form: Form, s: State, step: Step)
    requires RingsValid(s) && Enabled(s, step)
    ensures RingsValid(Apply(form, s, step))
  {
    match step
    case Send(q, m) => PushKeepsValid(form, s.queues[q].ring, m);
    case Pop(w) => PopStaysValid(form, s, step, s.workers[w].phase.q);
    case PopOrphan(w) => PopStaysValid(form, s, step, s.workers[w].phase.q);
    case _ => OthersStayValid(form, s, step);
  }

  lemma PopStaysValid(form: Form, s: State, step: Step, q: nat)
    requires RingsValid(s) && Enabled(s, step) && (step.Pop? || step.PopOrphan?) && q == s.workers[step.w].phase.q
    ensures RingsValid(Apply(form, s, step))
  {
    var ring := s.queues[q].ring;
    if ring.head != ring.tail { PopTakesFirst(ring); }
  }

  lemma OthersStayValid(form: Form, s: State, step: Step)
    requires RingsValid(s) && Enabled(s, step) && !step.Send? && !step.Pop? && !step.PopOrphan?
    ensures RingsValid(Apply(form, s, step))
  {}

  /** Queues come from `Create` and from nothing else. */
  lemma OnlyCreateAdds(form: Form, s: State, step: Step, q: nat)
    requires RingsValid(s) && Enabled(s, step)
    ensures q in Apply(form, s, step).queues <==> q in s.queues || step == Create(q)
  {}

  /** No worker began on a queue whose context was gone. */
  ghost predicate NeverBeginsOnDead(form: Form, t: Trace)
    requires Legal(form, t)
  {
    t.After? ==> NeverBeginsOnDead(form, t.past) && !BeginsOnDead(Reached(form, t.past), t.step)
  }

  /** A run, with any steps if repaired; as written, one in which no worker begins on such a queue. */
  ghost predicate Good(form: Form, t: Trace) {
    Legal(form, t) && (form.Repaired? || NeverBeginsOnDead(form, t))
  }

  /** The invariant holds in every reachable state: repaired, of every run; as written, of the runs in
      which no worker begins on a queue whose context is gone. */
  lemma {:induction false} ReachedKeepsInv(form: Form, t: Trace)
    requires Good(form, t)
    ensures Inv(Reached(form, t))
  {
    if t.After? {
      ReachedKeepsInv(form, t.past);
      StepKeepsExact(form, Reached(form, t.past), t.step);
    }
  }

  /** Actor exclusion: no queue is in two workers' hands, none is listed or launching while in a
      worker's hands, and none is listed twice. So no two dispatches of one context overlap. */
  ghost predicate Exclusive(s: State) {
    && (forall v, w, q | v in s.workers && w in s.workers ::
          q in s.workers[v].phase.Holds() && q in s.workers[w].phase.Holds() ==> v == w)
    && (forall w, q | w in s.workers && q in s.workers[w].phase.Holds() ::
          q in s.queues && q !in s.global && !s.queues[q].place.Launching?)
    && (forall q <- s.global :: q in s.queues && !s.queues[q].place.Launching?)
    && (forall i, j | 0 <= i < j < |s.global| :: s.global[i] != s.global[j])
  }

  lemma InvExcludes(s: State)
    requires Inv(s)
    ensures Exclusive(s)
  {
    forall w, q | w in s.workers && q in s.workers[w].phase.Holds()
      ensures q in s.queues && s.queues[q].place == HeldBy(w)
    {
      assert WorkerOk(s, w);
    }
  }

  lemma ActorExclusion(form: Form, t: Trace)
    requires Good(form, t)
    ensures Exclusive(Reached(form, t))
  {
    ReachedKeepsInv(form, t);
    InvExcludes(Reached(form, t));
  }

  /** Exclusion held all along. */
  ghost predicate AlwaysExclusive(form: Form, t: Trace)
    requires Legal(form, t)
  {
    Exclusive(Reached(form, t)) && (t.After? ==> AlwaysExclusive(form, t.past))
  }

  /** Repaired, exclusion holds throughout every run. As written, it holds throughout a run exactly when
      no worker in it begins on a queue whose context is gone. */
  lemma {:induction false} ExclusionExact(form: Form, t: Trace)
    requires Legal(form, t)
    ensures AlwaysExclusive(form, t) <==> form.Repaired? || NeverBeginsOnDead(form, t)
  {
    if t.After? { ExclusionExact(form, t.past); }
    if form.Repaired? || NeverBeginsOnDead(form, t) {
      ActorExclusion(form, t);
    } else if NeverBeginsOnDead(form, t.past) {
      ReachedKeepsInv(form, t.past);
      DeadBeginBreaks(Reached(form, t.past), t.step);
    }
  }

  /** Context 5 is created, launched and retired, and worker 0 takes its queue. */
  function RetiredFirst(): Trace {
    After(After(After(After(Init(map[0 := -1]), Create(5)), Launch(5)), Retire(5)), Fetch(0))
  }

  /** It happens: as written, when this worker goes on, its queue is listed and in its hands at once. */
  lemma WrittenLosesExclusion()
    ensures Legal(Written, After(RetiredFirst(), Begin(0)))
    ensures BeginsOnDead(Reached(Written, RetiredFirst()), Begin(0))
    ensures !Exclusive(Reached(Written, After(RetiredFirst(), Begin(0))))
  {
    var t := RetiredFirst();
    assert Legal(Written, t.past.past.past);
    assert Legal(Written, t.past);
    assert Legal(Written, t) && NeverBeginsOnDead(Written, t);
    ReachedKeepsInv(Written, t);
    DeadBeginBreaks(Reached(Written, t), Begin(0));
  }

  /** No stranded message: a queue with `in_global` false is empty and owned by nobody, and a queue with
      messages is listed, launching, or in a worker's hands. */
  lemma NoStrandedMessage(form: Form, t: Trace, q: nat)
    requires Good(form, t) && q in Reached(form, t).queues
    ensures var s := Reached(form, t);
      var x := s.queues[q];
      && (!x.inGlobal ==>
            && x.ring.Contents() == [] && q !in s.global && !x.place.Launching?
            && forall w | w in s.workers :: q !in s.workers[w].phase.Holds())
      && (x.ring.Contents() != [] ==>
            || q in s.global || x.place.Launching?
            || exists w :: w in s.workers && q in s.workers[w].phase.Holds())
  {
    ReachedKeepsInv(form, t);
    var s := Reached(form, t);
    assert QueueOk(s, q);
    forall w | w in s.workers && q in s.workers[w].phase.Holds()
      ensures s.queues[q].place == HeldBy(w)
    {
      assert WorkerOk(s, w);
    }
  }

  /** The budget: when a call is done with its loop it has handled exactly `Budget` messages of the queue
      since it began, whatever was sent meanwhile, and after the first message the queue in hand is never
      found empty. */
  lemma ExactBudget(form: Form, t: Trace, w: nat)
    requires Good(form, t) && w in Reached(form, t).workers
    ensures var s := Reached(form, t);
      match s.workers[w].phase
      case Finishing(q, b) => q in s.queues && |s.queues[q].handled| == b.from + Budget(s.workers[w].weight, b.len)
      case Popping(q, b) => b.i > 0 ==> q in s.queues && s.queues[q].ring.Contents() != []
      case _ => true
  {
    ReachedKeepsInv(form, t);
    assert WorkerOk(Reached(form, t), w);
  }

  // ----- Order: each queue of the scheduler is a run of its ring -----

  /** The message of `q` that its worker has popped and not yet handled. */
  function InFlight(s: State, q: nat): seq<Message>
    requires q in s.queues
  {
    var p := s.queues[q].place;
    if p.HeldBy? && p.worker in s.workers then s.workers[p.worker].phase.InFlight(q) else []
  }

  /** The ring of a queue and all that was popped from it: handled, and being handled. */
  function UseOf(s: State, q: nat): RingRuns.Use
    requires q in s.queues
  {
    RingRuns.Use(s.queues[q].ring, s.queues[q].handled + InFlight(s, q))
  }

  /** What became of the messages of a queue, in order: handled, being handled, still waiting. */
  function Account(s: State, q: nat): seq<Message>
    requires q in s.queues
  {
    s.queues[q].handled + InFlight(s, q) + s.queues[q].ring.Contents()
  }

  /** A pop from `q` by the worker that holds it. */
  predicate PopsFrom(s: State, step: Step, q: nat) {
    && step.Pop? && step.w in s.workers && s.workers[step.w].phase.Popping? && s.workers[step.w].phase.q == q
  }

  /** What a run did to the ring of one queue. */
  ghost function OpsOf(form: Form, t: Trace, q: nat): RingRuns.Ops
    requires Legal(form, t)
  {
    if t.Init? || t.step == Create(q) then RingRuns.None
    else if t.step.Send? && t.step.q == q then RingRuns.Then(OpsOf(form, t.past, q), RingRuns.Put(t.step.m))
    else if PopsFrom(Reached(form, t.past), t.step, q) then RingRuns.Then(OpsOf(form, t.past, q), RingRuns.Take)
    else OpsOf(form, t.past, q)
  }

  lemma SendIsPut(form: Form, s: State, o: nat, m: Message, q: nat)
    requires Inv(s) && o in s.queues && q in s.queues
    requires s.queues[q].ring.Valid()
    ensures var s' := DoSend(form, s, o, m);
      && q in s'.queues
      && s'.queues[q].pushed == s.queues[q].pushed + (if o == q then [m] else [])
      && UseOf(s', q) == if o == q then RingRuns.Do(form, UseOf(s, q), RingRuns.Put(m)) else UseOf(s, q)
  {
    assert QueueOk(s, q);
    assert InFlight(DoSend(form, s, o, m), q) == InFlight(s, q);
  }

  ghost predicate SameUse(s: State, s': State, q: nat)
    requires q in s.queues
  {
    q in s'.queues && s'.queues[q].pushed == s.queues[q].pushed && UseOf(s', q) == UseOf(s, q)
  }

  /** A pop by the worker that holds the queue takes the first message out of the ring. */
  lemma PopIsTake(form: Form, s: State, w: nat, q: nat)
    requires Inv(s) && Enabled(s, Step.Pop(w)) && q == s.workers[w].phase.q && s.queues[q].ring.Valid()
    ensures var s' := DoPop(s, w);
      && q in s'.queues && s'.queues[q].pushed == s.queues[q].pushed
      && UseOf(s', q) == RingRuns.Do(form, UseOf(s, q), RingRuns.Take)
  {
    var x, s' := s.queues[q], DoPop(s, w);
    assert WorkerOk(s, w);
    assert InFlight(s, q) == [];
    if x.ring.head != x.ring.tail {
      assert InFlight(s', q) == [Rings.Pop(x.ring).0];
      assert x.handled + [] + [Rings.Pop(x.ring).0] == x.handled + [Rings.Pop(x.ring).0];
    }
  }

  lemma OtherPop(s: State, w: nat, q: nat)
    requires Inv(s) && Enabled(s, Step.Pop(w)) && q in s.queues && q != s.workers[w].phase.q
    requires s.queues[s.workers[w].phase.q].ring.Valid()
    ensures SameUse(s, DoPop(s, w), q)
  {
    assert WorkerOk(s, w) && QueueOk(s, q);
    assert DoPop(s, w).queues[q] == s.queues[q] && InFlight(DoPop(s, w), q) == InFlight(s, q);
  }

  /** The steps of launchers and of whoever retires touch no message. */
  lemma OutsideUse(form: Form, s: State, step: Step, q: nat)
    requires Inv(s) && Enabled(s, step) && q in s.queues
    requires step.Create? || step.Launch? || step.Retire?
    ensures SameUse(s, Apply(form, s, step), q)
  {
    assert QueueOk(s, q);
    assert InFlight(Apply(form, s, step), q) == InFlight(s, q);
  }

  /** Nor do those that take a queue from the global list. */
  lemma FetchUse(form: Form, s: State, step: Step, q: nat)
    requires Inv(s) && Enabled(s, step) && q in s.queues
    requires step.Fetch? || step.FetchNext?
    ensures SameUse(s, Apply(form, s, step), q)
  {
    var s' := Apply(form, s, step);
    assert QueueOk(s, q) && WorkerOk(s, step.w);
    assert s'.queues[q] == s.queues[q].(place := s'.queues[q].place);
    assert InFlight(s', q) == [] == InFlight(s, q) || s'.queues[q] == s.queues[q];
  }

  lemma RequeueUse(form: Form, s: State, w: nat, q: nat)
    requires Inv(s) && Enabled(s, Requeue(w)) && q in s.queues
    ensures SameUse(s, Apply(form, s, Requeue(w)), q)
  {
    assert QueueOk(s, q) && WorkerOk(s, w);
  }

  /** Nor do those inside a call. */
  lemma InsideUse(form: Form, s: State, step: Step, q: nat)
    requires Inv(s) && Enabled(s, step) && q in s.queues && (form.Repaired? || !BeginsOnDead(s, step))
    requires step.Begin? || step.Measure?
    ensures SameUse(s, Apply(form, s, step), q)
  {
    var s' := Apply(form, s, step);
    assert QueueOk(s, q) && WorkerOk(s, step.w);
    assert s'.queues[q].handled == s.queues[q].handled && InFlight(s', q) == InFlight(s, q);
  }

  /** The end of a dispatch only moves its message to the handled ones. */
  lemma EndUse(form: Form, s: State, w: nat, q: nat)
    requires Inv(s) && Enabled(s, EndDispatch(w)) && q in s.queues
    ensures SameUse(s, Apply(form, s, EndDispatch(w)), q)
  {
    var s', x := Apply(form, s, EndDispatch(w)), s.queues[q];
    assert QueueOk(s, q) && WorkerOk(s, w);
    if s.workers[w].phase.q == q {
      var m := s.workers[w].phase.m;
      assert InFlight(s, q) == [m] && InFlight(s', q) == [];
      assert x.handled + [m] == (x.handled + [m]) + [];
    } else {
      assert s'.queues[q] == x && InFlight(s', q) == InFlight(s, q);
    }
  }

  /** Every step but a send to `q` and a pop from it leaves it as it is. */
  lemma StepUse(form: Form, s: State, step: Step, q: nat)
    requires Inv(s) && Enabled(s, step) && q in s.queues && (form.Repaired? || !BeginsOnDead(s, step))
    requires !(step.Send? && step.q == q) && !PopsFrom(s, step, q)
    ensures SameUse(s, Apply(form, s, step), q)
  {
    match step
    case Send(o, m) =>
      assert QueueOk(s, q);
      SendIsPut(form, s, o, m, q);
    case Pop(w) =>
      assert WorkerOk(s, w) && QueueOk(s, s.workers[w].phase.q);
      OtherPop(s, w, q);
    case PopOrphan(w) => NoOrphan(s, w);
    case Begin(_) => InsideUse(form, s, step, q);
    case Measure(_) => InsideUse(form, s, step, q);
    case EndDispatch(w) => EndUse(form, s, w, q);
    case Fetch(_) => FetchUse(form, s, step, q);
    case FetchNext(_) => FetchUse(form, s, step, q);
    case Requeue(w) => RequeueUse(form, s, w, q);
    case _ => OutsideUse(form, s, step, q);
  }

  /** In every interleaving of any number of workers, queues and senders, each queue's ring goes through a
      run of single pushes and pops, in the order the locks were taken. */
  lemma {:induction false} TraceIsOps(form: Form, t: Trace, q: nat)
    requires Good(form, t) && q in Reached(form, t).queues
    ensures UseOf(Reached(form, t), q) == RingRuns.Run(form, OpsOf(form, t, q))
    ensures Reached(form, t).queues[q].pushed == RingRuns.PutAll(OpsOf(form, t, q))
  {
    if t.After? && t.step != Create(q) {
      var s, step := Reached(form, t.past), t.step;
      ReachedKeepsInv(form, t.past);
      OnlyCreateAdds(form, s, step, q);
      TraceIsOps(form, t.past, q);
      StepIsOp(form, s, step, q, OpsOf(form, t.past, q), OpsOf(form, t, q));
    }
  }

  lemma StepIsOp(form: Form, s: State, step: Step, q: nat, before: RingRuns.Ops, after: RingRuns.Ops)
    requires Inv(s) && Enabled(s, step) && q in s.queues && (form.Repaired? || !BeginsOnDead(s, step))
    requires UseOf(s, q) == RingRuns.Run(form, before) && s.queues[q].pushed == RingRuns.PutAll(before)
    requires after == if step.Send? && step.q == q then RingRuns.Then(before, RingRuns.Put(step.m))
                      else if PopsFrom(s, step, q) then RingRuns.Then(before, RingRuns.Take)
                      else before
    ensures RingsValid(s)
    ensures var s' := Apply(form, s, step);
      && q in s'.queues && s'.queues[q].pushed == RingRuns.PutAll(after)
      && UseOf(s', q) == RingRuns.Run(form, after)
  {
    assert forall o <- s.queues :: QueueOk(s, o);
    if step.Send? && step.q == q {
      SendIsPut(form, s, q, step.m, q);
    } else if PopsFrom(s, step, q) {
      PopIsTake(form, s, step.w, q);
    } else {
      StepUse(form, s, step, q);
    }
  }

  /** End-to-end order: in every interleaving the messages of each queue are handled in the order they were
      pushed, without loss or repetition, across workers, requeues and growth: what is handled, being
      handled and waiting is, in this order, what was pushed. */
  lemma EndToEndOrder(t: Trace, q: nat)
    requires Legal(Repaired, t) && q in Reached(Repaired, t).queues
    ensures Account(Reached(Repaired, t), q) == Reached(Repaired, t).queues[q].pushed
    ensures Reached(Repaired, t).queues[q].handled <= Reached(Repaired, t).queues[q].pushed
  {
    TraceIsOps(Repaired, t, q);
    RingRuns.RepairedIsFifo(OpsOf(Repaired, t, q));
  }

  /** No send to `q` grew its ring while the head was not 0. */
  ghost predicate NeverTurns(t: Trace, q: nat)
    requires Legal(Written, t)
  {
    t.After? ==>
      && NeverTurns(t.past, q)
      && (t.step.Send? && t.step.q == q && q in Reached(Written, t.past).queues ==>
            var r := Reached(Written, t.past).queues[q].ring; r.Grows() ==> r.head == 0)
  }

  lemma {:induction false} NothingBeforeCreate(t: Trace, q: nat)
    requires Legal(Written, t) && q !in Reached(Written, t).queues
    ensures NeverTurns(t, q)
  {
    if t.After? {
      OnlyCreateAdds(Written, Reached(Written, t.past), t.step, q);
      NothingBeforeCreate(t.past, q);
    }
  }

  lemma {:induction false} TurnsAreGrowths(t: Trace, q: nat)
    requires Good(Written, t) && q in Reached(Written, t).queues
    ensures NeverTurns(t, q) <==> RingRuns.GrowsAtZero(Written, OpsOf(Written, t, q))
  {
    if t.After? {
      if t.step == Create(q) {
        NothingBeforeCreate(t.past, q);
      } else {
        OnlyCreateAdds(Written, Reached(Written, t.past), t.step, q);
        TurnsAreGrowths(t.past, q);
        TraceIsOps(Written, t.past, q);
      }
    }
  }

  /** As written, the messages of a queue, if distinct, are handled in the order they were pushed exactly
      when no send to that queue grew its ring while the head was not 0. */
  lemma WrittenOrderExact(t: Trace, q: nat)
    requires Good(Written, t) && q in Reached(Written, t).queues
    requires Distinct(Reached(Written, t).queues[q].pushed)
    ensures Account(Reached(Written, t), q) == Reached(Written, t).queues[q].pushed <==> NeverTurns(t, q)
  {
    TraceIsOps(Written, t, q);
    TurnsAreGrowths(t, q);
    RingRuns.WrittenFifoExact(OpsOf(Written, t, q));
  }

  lemma AccountLength(form: Form, t: Trace, q: nat)
    requires Good(form, t) && q in Reached(form, t).queues
    ensures var s, x := Reached(form, t), Reached(form, t).queues[q];
      |x.handled| + |InFlight(s, q)| + |x.ring.Contents()| == |x.pushed|
  {
    NothingLost(form, t, q);
    SameSize(Account(Reached(form, t), q), Reached(form, t).queues[q].pushed);
  }

  lemma SameSize(a: seq<Message>, b: seq<Message>)
    requires multiset(a) == multiset(b)
    ensures |a| == |b|
  {
    assert |multiset(a)| == |a| && |multiset(b)| == |b|;
  }

  /** One send: as written, a queue in order, with distinct messages waiting, stays so exactly when the send
      does not grow its ring with a nonzero head. */
  lemma SendOrderExact(s: State, q: nat, m: Message)
    requires Inv(s) && q in s.queues && s.queues[q].ring.Valid() && Account(s, q) == s.queues[q].pushed
    requires Distinct(s.queues[q].ring.Contents() + [m])
    ensures var s', r := DoSend(Written, s, q, m), s.queues[q].ring;
      q in s'.queues && (Account(s', q) == s'.queues[q].pushed <==> !r.Grows() || r.head == 0)
  {
    var x := s.queues[q];
    SendIsPut(Written, s, q, m, q);
    WrittenPushExact(x.ring, m);
    SameFront(x.handled + InFlight(s, q), Push(Written, x.ring, m).Contents(), x.ring.Contents() + [m]);
    assert x.pushed + [m] == x.handled + InFlight(s, q) + (x.ring.Contents() + [m]);
  }

  lemma SameFront(front: seq<Message>, a: seq<Message>, b: seq<Message>)
    ensures front + a == front + b <==> a == b
  {
    assert (front + a)[|front|..] == a && (front + b)[|front|..] == b;
  }

  /** In every interleaving, as written or repaired, each message pushed is handled, being handled or
      waiting exactly once. */
  lemma NothingLost(form: Form, t: Trace, q: nat)
    requires Good(form, t) && q in Reached(form, t).queues
    ensures multiset(Account(Reached(form, t), q)) == multiset(Reached(form, t).queues[q].pushed)
  {
    TraceIsOps(form, t, q);
    RingRuns.MessagesConserved(form, OpsOf(form, t, q));
  }
}
