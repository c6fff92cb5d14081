/** No message waits for good: from every reachable state the workers alone can handle all of a queue. */
module Progress {
  import opened Forms
  import opened Rings
  import opened Scheduler
  import opened SchedulerInvariant
  import opened SchedulerTheorems

  /** The step a worker takes next. */
  function NextStep(w: nat, p: Phase): Step {
    match p
    case Idle => Fetch(w)
    case Ready(_) => Begin(w)
    case Orphan(_) => PopOrphan(w)
    case Popping(_, _) => Pop(w)
    case Measuring(_, _, _) => Measure(w)
    case Handling(_, _, _) => EndDispatch(w)
    case Finishing(_, _) => FetchNext(w)
    case Swapping(_, _) => Requeue(w)
  }

  function Len(s: State, q: nat): nat {
    if q in s.queues then |s.queues[q].ring.Contents()| else 0
  }

  /** A bound on the steps a worker needs, if nobody sends, before it next pops the global list. */
  function Work(s: State, p: Phase): nat {
    match p
    case Idle => 0
    case Ready(o) => 4 * Len(s, o) + 10
    case Orphan(_) => 0
    case Popping(o, _) => 4 * Len(s, o) + 9
    case Measuring(o, _, _) => 4 * Len(s, o) + 12
    case Handling(o, _, _) => 4 * Len(s, o) + 11
    case Finishing(_, _) => 8
    case Swapping(_, o) => 4 * Len(s, o) + 11
  }

  /** Where `q` is in the list. */
  function Index(list: seq<nat>, q: nat): nat {
    if list == [] || list[0] == q then 0 else 1 + Index(list[1..], q)
  }

  lemma {:induction false} IndexStays(list: seq<nat>, q: nat, more: seq<nat>)
    requires q in list
    ensures Index(list + more, q) == Index(list, q)
  {
    if list[0] != q {
      assert (list + more)[1..] == list[1..] + more;
      IndexStays(list[1..], q, more);
    }
  }

  /** A queue has a message that is not yet handled. */
  predicate Pending(s: State, q: nat) {
    q in s.queues && (InFlight(s, q) != [] || s.queues[q].ring.Contents() != [])
  }

  /** Its worker is past the loop with it: the queue will be listed or begun anew. */
  predicate PastLoop(p: Phase, q: nat) {
    (p.Finishing? && p.q == q) || (p.Swapping? && p.q == q)
  }

  /** How far a queue is from being handled: launching, past a loop, listed, or at hand. */
  function Stage(s: State, q: nat): nat
    requires q in s.queues
  {
    match s.queues[q].place
    case Launching => 3
    case HeldBy(v) => if v in s.workers && PastLoop(s.workers[v].phase, q) then 2 else 0
    case Listed => 1
    case Resting => 0
  }

  function Left(p: Phase, q: nat): nat {
    match p
    case Swapping(o, _) => if o == q then 0 else 4
    case Ready(_) => 3
    case Popping(_, _) => 2
    case Measuring(_, _, _) => 1
    case Finishing(_, _) => 1
    case _ => 0
  }

  /** How many queues are ahead in the list. */
  function Ahead(s: State, q: nat): nat
    requires q in s.queues
  {
    if s.queues[q].place.Listed? then Index(s.global, q) else 0
  }

  /** What is left to do within a stage: by worker `w` if the queue is listed, else by its own. */
  function Rest(s: State, q: nat, w: nat): nat
    requires q in s.queues
  {
    match s.queues[q].place
    case Listed => if w in s.workers then Work(s, s.workers[w].phase) else 0
    case HeldBy(v) => if v in s.workers then Left(s.workers[v].phase, q) else 0
    case _ => 0
  }

  /** The state got nearer to handling a message of `q`. */
  ghost predicate Nearer(s: State, s': State, q: nat, w: nat) {
    && q in s.queues && Pending(s', q)
    && (Stage(s', q) < Stage(s, q)
        || (Stage(s', q) == Stage(s, q) && Ahead(s', q) < Ahead(s, q))
        || (Stage(s', q) == Stage(s, q) && Ahead(s', q) == Ahead(s, q) && Rest(s', q, w) < Rest(s, q, w)))
  }

  ghost predicate Untouched(s: State, s': State, q: nat) {
    && q in s.queues && q in s'.queues
    && s'.queues[q].handled == s.queues[q].handled && s'.queues[q].pushed == s.queues[q].pushed
    && s'.queues[q].alive == s.queues[q].alive
  }

  ghost predicate Handled(s: State, s': State, q: nat) {
    && q in s.queues && q in s'.queues
    && |s'.queues[q].handled| == |s.queues[q].handled| + 1 && s'.queues[q].pushed == s.queues[q].pushed
    && s'.queues[q].alive == s.queues[q].alive
  }

  /** What a step is to bring: a message of `q` handled, or nearer to it. */
  ghost predicate Advances(s: State, s': State, q: nat, w: nat) {
    Handled(s, s', q) || (Untouched(s, s', q) && Nearer(s, s', q, w))
  }

  // ----- The worker that has the queue -----

  lemma HeldStep(form: Form, s: State, q: nat, v: nat, w: nat)
    requires Inv(s) && RingsValid(s) && Pending(s, q) && s.queues[q].alive && s.queues[q].place == HeldBy(v)
    requires v in s.workers && !s.workers[v].phase.Swapping? && !s.workers[v].phase.Finishing?
    requires !s.workers[v].phase.Popping?
    ensures Enabled(s, NextStep(v, s.workers[v].phase))
    ensures Advances(s, Apply(form, s, NextStep(v, s.workers[v].phase)), q, w)
  {
    assert QueueOk(s, q) && WorkerOk(s, v);
  }

  lemma HeldPopping(form: Form, s: State, q: nat, v: nat, w: nat)
    requires Inv(s) && RingsValid(s) && Pending(s, q) && s.queues[q].place == HeldBy(v)
    requires v in s.workers && s.workers[v].phase.Popping?
    ensures Enabled(s, Step.Pop(v)) && Advances(s, Apply(form, s, Step.Pop(v)), q, w)
  {
    assert QueueOk(s, q) && WorkerOk(s, v);
    var ring := s.queues[q].ring;
    LengthIsLength(ring);
    PopTakesFirst(ring);
  }

  lemma HeldFinishing(form: Form, s: State, q: nat, v: nat, w: nat)
    requires Inv(s) && RingsValid(s) && Pending(s, q) && s.queues[q].place == HeldBy(v)
    requires v in s.workers && s.workers[v].phase.Finishing?
    ensures Enabled(s, FetchNext(v)) && Advances(s, Apply(form, s, FetchNext(v)), q, w)
  {
    assert QueueOk(s, q) && WorkerOk(s, v);
    if s.global != [] { assert s.queues[s.global[0]].place.Listed?; }
  }

  lemma HeldSwapping(form: Form, s: State, q: nat, v: nat, w: nat)
    requires Inv(s) && RingsValid(s) && Pending(s, q) && s.queues[q].place == HeldBy(v)
    requires v in s.workers && s.workers[v].phase.Swapping?
    ensures Enabled(s, Requeue(v)) && Advances(s, Apply(form, s, Requeue(v)), q, w)
  {
    assert QueueOk(s, q) && WorkerOk(s, v);
  }

  // ----- A worker on its way to the queue -----

  lemma TakesFirst(form: Form, s: State, q: nat, w: nat)
    requires Inv(s) && RingsValid(s) && Pending(s, q) && s.queues[q].place.Listed?
    requires w in s.workers && (s.workers[w].phase.Idle? || s.workers[w].phase.Finishing?)
    ensures Enabled(s, NextStep(w, s.workers[w].phase))
    ensures Advances(s, Apply(form, s, NextStep(w, s.workers[w].phase)), q, w)
  {
    assert QueueOk(s, q) && WorkerOk(s, w);
    assert q in s.global && s.queues[s.global[0]].place.Listed?;
  }

  /** The steps of worker `w` that change nothing of the list but its end. */
  lemma WorksOn(form: Form, s: State, q: nat, w: nat)
    requires Inv(s) && RingsValid(s) && Pending(s, q) && s.queues[q].place.Listed?
    requires w in s.workers && !s.workers[w].phase.Idle? && !s.workers[w].phase.Finishing?
    requires form.Repaired? || !BeginsOnDead(s, NextStep(w, s.workers[w].phase))
    ensures Enabled(s, NextStep(w, s.workers[w].phase))
    ensures Advances(s, Apply(form, s, NextStep(w, s.workers[w].phase)), q, w)
  {
    assert WorkerOk(s, w);
    match s.workers[w].phase
    case Ready(_) => BeginsOther(form, s, q, w);
    case Popping(_, _) => PopsOther(form, s, q, w);
    case Swapping(_, _) => PutsBackOther(form, s, q, w);
    case _ => InsideOther(form, s, q, w);
  }

  lemma BeginsOther(form: Form, s: State, q: nat, w: nat)
    requires Inv(s) && RingsValid(s) && Pending(s, q) && s.queues[q].place.Listed?
    requires w in s.workers && s.workers[w].phase.Ready? && (form.Repaired? || !BeginsOnDead(s, Begin(w)))
    ensures Enabled(s, Begin(w)) && Advances(s, Apply(form, s, Begin(w)), q, w)
  {
    assert QueueOk(s, q) && WorkerOk(s, w);
    IndexStays(s.global, q, [s.workers[w].phase.q]);
  }

  lemma PopsOther(form: Form, s: State, q: nat, w: nat)
    requires Inv(s) && RingsValid(s) && Pending(s, q) && s.queues[q].place.Listed?
    requires w in s.workers && s.workers[w].phase.Popping?
    ensures Enabled(s, Step.Pop(w)) && Advances(s, Apply(form, s, Step.Pop(w)), q, w)
  {
    assert QueueOk(s, q) && WorkerOk(s, w);
    var ring := s.queues[s.workers[w].phase.q].ring;
    LengthIsLength(ring);
    if ring.head != ring.tail { PopTakesFirst(ring); }
  }

  lemma PutsBackOther(form: Form, s: State, q: nat, w: nat)
    requires Inv(s) && RingsValid(s) && Pending(s, q) && s.queues[q].place.Listed?
    requires w in s.workers && s.workers[w].phase.Swapping?
    ensures Enabled(s, Requeue(w)) && Advances(s, Apply(form, s, Requeue(w)), q, w)
  {
    assert QueueOk(s, q) && WorkerOk(s, w);
    IndexStays(s.global, q, [s.workers[w].phase.q]);
  }

  lemma InsideOther(form: Form, s: State, q: nat, w: nat)
    requires Inv(s) && RingsValid(s) && Pending(s, q) && s.queues[q].place.Listed?
    requires w in s.workers && (s.workers[w].phase.Measuring? || s.workers[w].phase.Handling?)
    ensures Enabled(s, NextStep(w, s.workers[w].phase))
    ensures Advances(s, Apply(form, s, NextStep(w, s.workers[w].phase)), q, w)
  {
    assert QueueOk(s, q) && WorkerOk(s, w);
  }

  lemma Launches(form: Form, s: State, q: nat, w: nat)
    requires Inv(s) && RingsValid(s) && Pending(s, q) && s.queues[q].place.Launching?
    ensures Enabled(s, Launch(q)) && Advances(s, Apply(form, s, Launch(q)), q, w)
  {
    assert QueueOk(s, q);
  }

  /** The step to take next for queue `q`, if worker `w` is to serve it when it is listed. */
  function ServingStep(s: State, q: nat, w: nat): Step
    requires q in s.queues && w in s.workers
  {
    match s.queues[q].place
    case Launching => Launch(q)
    case HeldBy(v) => if v in s.workers then NextStep(v, s.workers[v].phase) else NextStep(w, s.workers[w].phase)
    case _ => NextStep(w, s.workers[w].phase)
  }

  lemma ServingAdvances(form: Form, s: State, q: nat, w: nat)
    requires Inv(s) && RingsValid(s) && Pending(s, q) && w in s.workers && s.queues[q].alive
    requires form.Repaired? || forall o <- s.queues :: s.queues[o].alive
    ensures var step := ServingStep(s, q, w);
      && Enabled(s, step) && (form.Repaired? || !BeginsOnDead(s, step))
      && Advances(s, Apply(form, s, step), q, w)
  {
    assert QueueOk(s, q);
    match s.queues[q].place
    case Launching => Launches(form, s, q, w);
    case HeldBy(v) =>
      if s.workers[v].phase.Finishing? { HeldFinishing(form, s, q, v, w); }
      else if s.workers[v].phase.Swapping? { HeldSwapping(form, s, q, v, w); }
      else if s.workers[v].phase.Popping? { HeldPopping(form, s, q, v, w); }
      else { HeldStep(form, s, q, v, w); }
    case Listed =>
      if s.workers[w].phase.Idle? || s.workers[w].phase.Finishing? { TakesFirst(form, s, q, w); }
      else { WorksOn(form, s, q, w); }
    case Resting =>
  }

  // ----- Runs -----

  /** `t` goes on from `start` with steps of workers and launchers only. */
  ghost predicate Serves(t: Trace, start: Trace) {
    t == start || (t.After? && Serves(t.past, start) && Serving(t.step))
  }

  predicate Serving(step: Step) { !step.Create? && !step.Send? && !step.Retire? }

  lemma {:induction false} ServesOn(a: Trace, b: Trace, c: Trace)
    requires Serves(b, a) && Serves(c, b)
    ensures Serves(c, a)
  {
    if c != b { ServesOn(a, b, c.past); }
  }

  ghost predicate NeverRetired(t: Trace, q: nat) {
    t.After? ==> NeverRetired(t.past, q) && t.step != Retire(q)
  }

  lemma OnlyRetireEnds(form: Form, s: State, step: Step, q: nat)
    requires RingsValid(s) && Enabled(s, step) && q in Apply(form, s, step).queues && step != Retire(q)
    ensures q in s.queues ==> Apply(form, s, step).queues[q].alive == s.queues[q].alive
    ensures q !in s.queues ==> Apply(form, s, step).queues[q].alive
  {}

  lemma {:induction false} AliveUntilRetired(form: Form, t: Trace, q: nat)
    requires Legal(form, t) && NeverRetired(t, q) && q in Reached(form, t).queues
    ensures Reached(form, t).queues[q].alive
  {
    if t.After? {
      var s := Reached(form, t.past);
      if q in s.queues { AliveUntilRetired(form, t.past, q); }
      OnlyRetireEnds(form, s, t.step, q);
    }
  }

  /** The context of `q` has not been retired; as written, none has. */
  ghost predicate MayServe(form: Form, t: Trace, q: nat) {
    NeverRetired(t, q) && (form.Written? ==> forall o :: NeverRetired(t, o))
  }

  lemma WorkersStay(form: Form, s: State, step: Step, w: nat)
    requires RingsValid(s) && Enabled(s, step) && w in s.workers
    ensures w in Apply(form, s, step).workers
  {}

  lemma ServingKind(s: State, q: nat, w: nat)
    requires q in s.queues && w in s.workers
    ensures Serving(ServingStep(s, q, w))
  {}

  /** One step of service. */
  lemma TakeStep(form: Form, t: Trace, q: nat, w: nat) returns (t': Trace)
    requires Good(form, t) && MayServe(form, t, q) && w in Reached(form, t).workers && Pending(Reached(form, t), q)
    ensures Good(form, t') && MayServe(form, t', q) && w in Reached(form, t').workers
    ensures Serves(t', t) && Advances(Reached(form, t), Reached(form, t'), q, w)
  {
    var s := Reached(form, t);
    ReachedKeepsInv(form, t);
    AliveUntilRetired(form, t, q);
    forall o | form.Written? && o in s.queues ensures s.queues[o].alive { AliveUntilRetired(form, t, o); }
    ServingAdvances(form, s, q, w);
    ServingKind(s, q, w);
    var step := ServingStep(s, q, w);
    WorkersStay(form, s, step, w);
    t' := After(t, step);
    assert Serves(t'.past, t);
  }

  /** From every reachable state, one more message of `q` can be handled by the workers alone. */
  lemma {:induction false} HandleOne(form: Form, t: Trace, q: nat, w: nat) returns (t': Trace)
    requires Good(form, t) && MayServe(form, t, q) && w in Reached(form, t).workers && Pending(Reached(form, t), q)
    ensures Good(form, t') && MayServe(form, t', q) && w in Reached(form, t').workers
    ensures Serves(t', t) && Handled(Reached(form, t), Reached(form, t'), q)
    decreases Stage(Reached(form, t), q), Ahead(Reached(form, t), q), Rest(Reached(form, t), q, w)
  {
    t' := TakeStep(form, t, q, w);
    if !Handled(Reached(form, t), Reached(form, t'), q) {
      var next := HandleOne(form, t', q, w);
      ServesOn(t, t', next);
      t' := next;
    }
  }

  lemma PendingExact(form: Form, t: Trace, q: nat)
    requires Good(form, t) && q in Reached(form, t).queues
    ensures var x := Reached(form, t).queues[q];
      |x.handled| <= |x.pushed| && (Pending(Reached(form, t), q) <==> |x.handled| < |x.pushed|)
  {
    AccountLength(form, t, q);
  }

  /** No message waits for good. From every reachable state with a worker, if the context of a queue has
      not been retired (as written, if none has), the workers alone can go on until every message pushed to
      the queue is handled. */
  lemma {:induction false} AllCanBeHandled(form: Form, t: Trace, q: nat, w: nat) returns (t': Trace)
    requires Good(form, t) && MayServe(form, t, q)
    requires w in Reached(form, t).workers && q in Reached(form, t).queues
    ensures Good(form, t') && Serves(t', t) && q in Reached(form, t').queues
    ensures Reached(form, t').queues[q].pushed == Reached(form, t).queues[q].pushed
    ensures |Reached(form, t').queues[q].handled| == |Reached(form, t').queues[q].pushed|
    decreases |Reached(form, t).queues[q].pushed| - |Reached(form, t).queues[q].handled|
  {
    t' := t;
    PendingExact(form, t, q);
    if Pending(Reached(form, t), q) {
      var next := HandleOne(form, t, q, w);
      PendingExact(form, next, q);
      t' := AllCanBeHandled(form, next, q, w);
      ServesOn(t, next, t');
    }
  }
}
