/** How many messages one call handles, counted from outside the call. */
module DispatchBudget {
  import opened Doubling
  import opened Forms
  import opened Rings
  import opened Scheduler
  import opened SchedulerInvariant
  import opened SchedulerTheorems

  /** Shifting right by `k` divides by 2^k. */
  lemma {:induction false} ShrIsDivision(n: nat, k: nat)
    ensures Shr(n, k) * Twice(1, k) <= n < (Shr(n, k) + 1) * Twice(1, k)
  {
    if k > 0 {
      ShrIsDivision(n / 2, k - 1);
      TwiceAsMuch(Shr(n / 2, k - 1), Twice(1, k - 1), n);
    }
  }

  lemma TwiceAsMuch(r: nat, unit: nat, n: nat)
    requires r * unit <= n / 2 < (r + 1) * unit
    ensures r * (2 * unit) <= n < (r + 1) * (2 * unit)
  {
    assert r * (2 * unit) == 2 * (r * unit);
    assert (r + 1) * (2 * unit) == 2 * ((r + 1) * unit);
  }

  /** How many messages of the queue in hand had been handled when worker `w` last began on one. */
  ghost function HandledBefore(form: Form, t: Trace, w: nat): nat
    requires Legal(form, t)
  {
    if t.Init? then 0
    else if t.step == Begin(w) then
      var s := Reached(form, t.past);
      |s.queues[s.workers[w].phase.q].handled|
    else HandledBefore(form, t.past, w)
  }

  /** How many messages were waiting when worker `w` last read the length: those pushed by then, less
      those handled, less the one in hand. */
  ghost function LeftWaiting(form: Form, t: Trace, w: nat): int
    requires Legal(form, t)
  {
    if t.Init? then 0
    else if t.step == Measure(w) then
      var s := Reached(form, t.past);
      var x := s.queues[s.workers[w].phase.q];
      |x.pushed| - |x.handled| - 1
    else LeftWaiting(form, t.past, w)
  }

  /** What a worker in the middle of a call has recorded. */
  ghost predicate Recorded(x: Worker, waiting: int, before: nat) {
    match x.phase
    case Popping(_, b) => b.from == before && (b.i > 0 ==> b.len == waiting)
    case Measuring(_, _, from) => from == before
    case Handling(_, _, b) => b.from == before && (x.weight >= 0 ==> b.len == waiting)
    case Finishing(_, b) => b.from == before && (x.weight >= 0 ==> b.len == waiting)
    case _ => true
  }

  lemma LengthRead(form: Form, t: Trace, w: nat)
    requires Good(form, t) && Enabled(Reached(form, t), Measure(w))
    ensures var s := Reached(form, t);
      var x := s.queues[s.workers[w].phase.q];
      |x.ring.Contents()| == |x.pushed| - |x.handled| - 1
  {
    var s := Reached(form, t);
    var q := s.workers[w].phase.q;
    ReachedKeepsInv(form, t);
    assert WorkerOk(s, w);
    AccountLength(form, t, q);
  }

  /** The step of another worker, or of nobody's, leaves worker `w` where it is. */
  predicate StepOf(step: Step, w: nat) {
    match step
    case Create(_) => false
    case Launch(_) => false
    case Send(_, _) => false
    case Retire(_) => false
    case Fetch(v) => v == w
    case Begin(v) => v == w
    case Pop(v) => v == w
    case PopOrphan(v) => v == w
    case Measure(v) => v == w
    case EndDispatch(v) => v == w
    case FetchNext(v) => v == w
    case Requeue(v) => v == w
  }

  lemma OthersStay(form: Form, s: State, step: Step, w: nat)
    requires RingsValid(s) && Enabled(s, step) && w in s.workers && !StepOf(step, w)
    ensures w in Apply(form, s, step).workers && Apply(form, s, step).workers[w] == s.workers[w]
  {}

  lemma OwnStep(form: Form, s: State, step: Step, w: nat, waiting: int, before: nat, waiting': int, before': nat)
    requires Inv(s) && RingsValid(s) && Enabled(s, step) && w in s.workers && StepOf(step, w)
    requires form.Repaired? || !BeginsOnDead(s, step)
    requires Recorded(s.workers[w], waiting, before)
    requires step.Begin? ==> before' == |s.queues[s.workers[w].phase.q].handled|
    requires !step.Begin? ==> before' == before
    requires step.Measure? ==> waiting' == |s.queues[s.workers[w].phase.q].ring.Contents()|
    requires !step.Measure? ==> waiting' == waiting
    ensures w in Apply(form, s, step).workers
    ensures Recorded(Apply(form, s, step).workers[w], waiting', before')
  {
    assert WorkerOk(s, w);
  }

  lemma OnlyStart(form: Form, s: State, step: Step, w: nat)
    requires RingsValid(s) && Enabled(s, step)
    ensures w in Apply(form, s, step).workers <==> w in s.workers
  {}

  lemma {:induction false} RecordsHold(form: Form, t: Trace, w: nat)
    requires Good(form, t) && w in Reached(form, t).workers
    ensures Recorded(Reached(form, t).workers[w], LeftWaiting(form, t, w), HandledBefore(form, t, w))
  {
    if t.After? {
      var s := Reached(form, t.past);
      OnlyStart(form, s, t.step, w);
      RecordsHold(form, t.past, w);
      ReachedKeepsInv(form, t.past);
      if StepOf(t.step, w) {
        if t.step.Measure? { LengthRead(form, t.past, w); }
        OwnStep(form, s, t.step, w, LeftWaiting(form, t.past, w), HandledBefore(form, t.past, w),
                LeftWaiting(form, t, w), HandledBefore(form, t, w));
      } else {
        OthersStay(form, s, t.step, w);
      }
    }
  }

  /** `n` is max(1, l / 2^k). */
  ghost predicate IsBudget(n: int, l: int, k: nat) {
    if l < Twice(1, k) then n == 1 else n * Twice(1, k) <= l < (n + 1) * Twice(1, k)
  }

  /** When a call leaves its loop, the messages of its queue handled since it began are exactly one if its
      weight is negative, and otherwise max(1, L / 2^weight), where L is what was waiting when the first
      message had been popped; whatever was sent meanwhile. */
  lemma CallHandlesBudget(form: Form, t: Trace, w: nat)
    requires Good(form, t) && w in Reached(form, t).workers && Reached(form, t).workers[w].phase.Finishing?
    ensures var s := Reached(form, t);
      var q, weight := s.workers[w].phase.q, s.workers[w].weight;
      && q in s.queues
      && var n := |s.queues[q].handled| - HandledBefore(form, t, w);
      if weight < 0 then n == 1 else IsBudget(n, LeftWaiting(form, t, w), weight)
  {
    var s := Reached(form, t);
    var b, weight := s.workers[w].phase.batch, s.workers[w].weight;
    ReachedKeepsInv(form, t);
    assert WorkerOk(s, w);
    RecordsHold(form, t, w);
    if weight >= 0 { BudgetDivides(weight, b.len); }
  }

  lemma BudgetDivides(weight: nat, len: nat)
    ensures IsBudget(Budget(weight, len), len, weight)
  {
    ShrIsDivision(len, weight);
    BelowUnit(Shr(len, weight), Twice(1, weight), len);
  }

  lemma BelowUnit(r: nat, unit: nat, len: nat)
    requires r * unit <= len < (r + 1) * unit
    ensures r == 0 <==> len < unit
  {
    if r > 0 { Multiple(r, unit); }
  }

  lemma Multiple(r: nat, unit: nat)
    requires r > 0
    ensures unit <= r * unit
  {}
}

/** The global list is served in order. */
module ListOrder {
  import opened Forms
  import opened Rings
  import opened Scheduler
  import opened SchedulerInvariant
  import opened SchedulerTheorems

  /** The queue that a step lists: one that is launched, one that rested and is sent a message, one that
      its worker puts back, and, repaired, one whose context is gone. */
  function Lists(s: State, step: Step): seq<nat> {
    match step
    case Launch(q) => [q]
    case Send(q, _) => if q in s.queues && s.queues[q].place.Resting? then [q] else []
    case Requeue(w) => if w in s.workers && s.workers[w].phase.Swapping? then [s.workers[w].phase.q] else []
    case Begin(w) => if BeginsOnDead(s, step) then [s.workers[w].phase.q] else []
    case _ => []
  }

  /** The queues listed in a run, in order. */
  ghost function Listed(form: Form, t: Trace): seq<nat>
    requires Legal(form, t)
  {
    if t.Init? then [] else Listed(form, t.past) + Lists(Reached(form, t.past), t.step)
  }

  /** The queue that worker `w` has after a step and did not have before. */
  function NewIn(s: State, s': State, w: nat): seq<nat> {
    if w !in s.workers || w !in s'.workers then []
    else match s'.workers[w].phase {
      case Ready(q) => if q in s.workers[w].phase.Holds() then [] else [q]
      case Swapping(_, q) => if q in s.workers[w].phase.Holds() then [] else [q]
      case _ => []
    }
  }

  /** The queue that a pop of the global list gives its worker. */
  function Takes(s: State, s': State, step: Step): seq<nat> {
    match step
    case Fetch(w) => NewIn(s, s', w)
    case FetchNext(w) => NewIn(s, s', w)
    case _ => []
  }

  /** The queues taken in a run, in order. */
  ghost function Taken(form: Form, t: Trace): seq<nat>
    requires Legal(form, t)
  {
    if t.Init? then [] else Taken(form, t.past) + Takes(Reached(form, t.past), Reached(form, t), t.step)
  }

  lemma StepServes(form: Form, s: State, step: Step)
    requires Inv(s) && RingsValid(s) && Enabled(s, step) && (form.Repaired? || !BeginsOnDead(s, step))
    ensures var s' := Apply(form, s, step);
      && Takes(s, s', step) + s'.global == s.global + Lists(s, step)
      && (step.Fetch? || step.FetchNext? ==> |Takes(s, s', step)| == if s.global == [] then 0 else 1)
  {
    match step
    case Send(q, m) => SendServes(form, s, q, m);
    case Fetch(w) => FetchServes(form, s, step, w);
    case FetchNext(w) => FetchServes(form, s, step, w);
    case _ => OthersServe(form, s, step);
  }

  lemma SendServes(form: Form, s: State, q: nat, m: Message)
    requires Inv(s) && RingsValid(s) && q in s.queues
    ensures DoSend(form, s, q, m).global == s.global + Lists(s, Send(q, m))
  {
    assert QueueOk(s, q);
  }

  lemma OthersServe(form: Form, s: State, step: Step)
    requires Inv(s) && RingsValid(s) && Enabled(s, step) && (form.Repaired? || !BeginsOnDead(s, step))
    requires !step.Send? && !step.Fetch? && !step.FetchNext?
    ensures Apply(form, s, step).global == s.global + Lists(s, step)
  {}

  lemma FetchServes(form: Form, s: State, step: Step, w: nat)
    requires Inv(s) && RingsValid(s) && Enabled(s, step) && (step == Fetch(w) || step == FetchNext(w))
    ensures var s' := Apply(form, s, step);
      NewIn(s, s', w) + s'.global == s.global && |NewIn(s, s', w)| == if s.global == [] then 0 else 1
  {
    assert WorkerOk(s, w);
    if s.global != [] { assert s.queues[s.global[0]].place.Listed?; }
  }

  lemma Joined(taken: seq<nat>, global: seq<nat>, takes: seq<nat>, global': seq<nat>, lists: seq<nat>)
    requires takes + global' == global + lists
    ensures taken + takes + global' == taken + global + lists
  {
    assert taken + takes + global' == taken + (takes + global');
    assert taken + global + lists == taken + (global + lists);
  }

  /** In every run the queues taken, followed by those in the list, are those listed, in the order in which
      they were listed: none is overtaken, lost or taken twice. */
  lemma {:induction false} ServedInOrder(form: Form, t: Trace)
    requires Good(form, t)
    ensures Taken(form, t) + Reached(form, t).global == Listed(form, t)
  {
    if t.After? {
      var s, s' := Reached(form, t.past), Reached(form, t);
      ServedInOrder(form, t.past);
      ReachedKeepsInv(form, t.past);
      StepServes(form, s, t.step);
      Joined(Taken(form, t.past), s.global, Takes(s, s', t.step), s'.global, Lists(s, t.step));
    }
  }

  /** A pop of the global list takes a queue whenever more have been listed than taken. */
  lemma PopTakesOne(form: Form, t: Trace)
    requires t.After? && Good(form, t) && (t.step.Fetch? || t.step.FetchNext?)
    ensures |Taken(form, t)| ==
            |Taken(form, t.past)| + if |Listed(form, t.past)| > |Taken(form, t.past)| then 1 else 0
  {
    ServedInOrder(form, t.past);
    ReachedKeepsInv(form, t.past);
    StepServes(form, Reached(form, t.past), t.step);
  }

  /** `t` goes on from `start`. */
  ghost predicate Extends(t: Trace, start: Trace) {
    t == start || (t.After? && Extends(t.past, start))
  }

  lemma {:induction false} OnlyMore(form: Form, t: Trace, start: Trace)
    requires Good(form, t) && Extends(t, start)
    ensures Good(form, start)
    ensures Taken(form, start) <= Taken(form, t) && Listed(form, start) <= Listed(form, t)
  {
    if t != start { OnlyMore(form, t.past, start); }
  }

  lemma ServedPrefix(form: Form, start: Trace, t: Trace)
    requires Good(form, t) && Extends(t, start)
    ensures Good(form, start)
    ensures Taken(form, start) + Reached(form, start).global <= Taken(form, t) + Reached(form, t).global
  {
    OnlyMore(form, t, start);
    ServedInOrder(form, start);
    ServedInOrder(form, t);
  }

  /** The queue at position `k` of a list, when `taken` had been taken, is the one taken after exactly `k`
      others. */
  predicate InTurn(taken: seq<nat>, global: seq<nat>, later: seq<nat>, k: nat) {
    k < |global| && |taken| + k < |later| ==> later[|taken| + k] == global[k]
  }

  lemma PrefixInTurn(taken: seq<nat>, global: seq<nat>, later: seq<nat>, rest: seq<nat>, k: nat)
    requires taken + global <= later + rest
    ensures InTurn(taken, global, later, k)
  {
    if k < |global| && |taken| + k < |later| {
      assert (taken + global)[|taken| + k] == (later + rest)[|taken| + k];
    }
  }

  /** So a queue is taken after exactly those ahead of it in the list, however the run goes on. */
  lemma TakenAfterThoseAhead(form: Form, start: Trace, t: Trace, k: nat)
    requires Good(form, t) && Extends(t, start)
    ensures Good(form, start) && InTurn(Taken(form, start), Reached(form, start).global, Taken(form, t), k)
  {
    ServedPrefix(form, start, t);
    PrefixInTurn(Taken(form, start), Reached(form, start).global, Taken(form, t), Reached(form, t).global, k);
  }
}

/** What the written form does with a queue whose context is gone. */
module RetiredContext {
  import opened Forms
  import opened Rings
  import opened Scheduler
  import opened SchedulerInvariant
  import opened SchedulerTheorems

  /** A run in which worker `w` begins on such a queue, and then pops from it. */
  function BeginAndPop(t: Trace, w: nat): Trace { After(After(t, Begin(w)), PopOrphan(w)) }

  lemma FirstStep(t: Trace, w: nat)
    requires Good(Written, t) && Enabled(Reached(Written, t), Begin(w)) && BeginsOnDead(Reached(Written, t), Begin(w))
    ensures Legal(Written, After(t, Begin(w)))
    ensures Reached(Written, After(t, Begin(w))) == DoBegin(Written, Reached(Written, t), w)
    ensures Enabled(Reached(Written, After(t, Begin(w))), PopOrphan(w))
    ensures InFlight(Reached(Written, t), Reached(Written, t).workers[w].phase.q) == []
  {
    ReachedKeepsInv(Written, t);
    assert WorkerOk(Reached(Written, t), w);
  }

  lemma BothSteps(t: Trace, w: nat)
    requires Good(Written, t) && Enabled(Reached(Written, t), Begin(w)) && BeginsOnDead(Reached(Written, t), Begin(w))
    ensures Legal(Written, BeginAndPop(t, w))
    ensures var s := Reached(Written, t);
      var q := s.workers[w].phase.q;
      var x, s' := s.queues[q], Reached(Written, BeginAndPop(t, w));
      && InFlight(s, q) == []
      && s'.crashed == (x.ring.Contents() != [])
      && s'.global == s.global + [q] && q in s'.queues
      && s'.queues[q] == if x.ring.Contents() == [] then x.(place := Listed, inGlobal := false)
                         else x.(place := Listed, ring := Rings.Pop(x.ring).1)
  {
    FirstStep(t, w);
    var s1 := Reached(Written, After(t, Begin(w)));
    LengthIsLength(s1.queues[s1.workers[w].phase.q].ring);
    assert Reached(Written, BeginAndPop(t, w)) == DoPopOrphan(s1, w);
  }

  /** If a message waits there it is lost, and with it the process: nothing can happen any more. */
  lemma MessageAndProcessLost(t: Trace, w: nat)
    requires Good(Written, t) && Enabled(Reached(Written, t), Begin(w)) && BeginsOnDead(Reached(Written, t), Begin(w))
    requires Reached(Written, t).queues[Reached(Written, t).workers[w].phase.q].ring.Contents() != []
    ensures Legal(Written, BeginAndPop(t, w))
    ensures var s', q := Reached(Written, BeginAndPop(t, w)), Reached(Written, t).workers[w].phase.q;
      && (forall step :: !Enabled(s', step))
      && q in s'.queues && |Account(s', q)| == |s'.queues[q].pushed| - 1
  {
    var s := Reached(Written, t);
    var q := s.workers[w].phase.q;
    BothSteps(t, w);
    AccountLength(Written, t, q);
    LengthIsLength(s.queues[q].ring);
    PopTakesFirst(s.queues[q].ring);
  }

  /** If none waits, the queue is in the list with `in_global` false, so the next send lists it again. */
  lemma ListedTwice(t: Trace, w: nat, m: Message)
    requires Good(Written, t) && Enabled(Reached(Written, t), Begin(w)) && BeginsOnDead(Reached(Written, t), Begin(w))
    requires Reached(Written, t).queues[Reached(Written, t).workers[w].phase.q].ring.Contents() == []
    ensures var q := Reached(Written, t).workers[w].phase.q;
      var t' := After(BeginAndPop(t, w), Send(q, m));
      && Legal(Written, t')
      && Reached(Written, t').global == Reached(Written, t).global + [q] + [q]
  {
    BothSteps(t, w);
  }
}
