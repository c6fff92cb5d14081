/** Runs of the timer, and the plain account of them that needs no wheel. */
module TimerRuns {
  import opened Forms
  import opened TimingWheel
  import opened WheelArithmetic

  /** `Add`: a call of `timer_add` while no tick runs. `Tick`: a call of `timer_update`, with the
      requests that arrive while it runs. */
  datatype Event = Add(request: Request) | Tick(arrivals: seq<Request>) {
    function Requests(): seq<Request> { if Add? then [request] else arrivals }
  }

  datatype History = Start | After(past: History, event: Event) {
    /** Every request that reached the timer was a positive 32-bit timeout. */
    ghost predicate Valid() { After? ==> AllValid(event.Requests()) && past.Valid() }
    /** This history goes on from `h`. */
    ghost predicate Extends(h: History) { this == h || (After? && past.Extends(h)) }
  }

  /** A request with the absolute tick it is due at; ticks here are counted without wrapping. */
  datatype Timer = Timer(deadline: nat, handle: nat, session: int)

  function Ticks(h: History): nat {
    if h.Start? then 0 else Ticks(h.past) + if h.event.Tick? then 1 else 0
  }

  /** The timer a request makes when the counter stands at `now`. */
  function TimerOf(r: Request, now: nat): Timer
    requires r.Valid()
  {
    Timer(now + r.timeout, r.handle, r.session)
  }

  function TimersAt(rs: seq<Request>, now: nat): (ts: seq<Timer>)
    requires AllValid(rs)
    ensures forall i :: 0 <= i < |ts| ==> now < ts[i].deadline < now + HALF
  {
    if rs == [] then [] else [TimerOf(rs[0], now)] + TimersAt(rs[1..], now)
  }

  /** Every timer ever added, in the order of adding. */
  function Added(h: History): seq<Timer>
    requires h.Valid()
  {
    if h.Start? then [] else Added(h.past) + TimersAt(h.event.Requests(), Ticks(h))
  }

  /** The timers due at a tick, in their order. */
  function Due(ts: seq<Timer>, tick: nat): seq<Timer> {
    if ts == [] then []
    else if ts[0].deadline == tick then [ts[0]] + Due(ts[1..], tick)
    else Due(ts[1..], tick)
  }

  /** The timers due after a tick, in their order. */
  function Waiting(ts: seq<Timer>, tick: nat): seq<Timer> {
    if ts == [] then []
    else if ts[0].deadline > tick then [ts[0]] + Waiting(ts[1..], tick)
    else Waiting(ts[1..], tick)
  }

  /** What wheel nodes keep of timers: the deadlines modulo 2^32. */
  function Encode(ts: seq<Timer>): seq<Node> {
    if ts == [] then []
    else [Node(Wrap(ts[0].deadline), ts[0].handle, ts[0].session)] + Encode(ts[1..])
  }

  /** What a run of the wheel leaves: the wheel and, tick by tick, the nodes dispatched. */
  datatype Outcome = Ran(wheel: Wheel, fired: seq<seq<Node>>) | Faulted(slot: Slot)

  function Step(form: Form, o: Outcome, e: Event): (r: Outcome)
    requires o.Ran? ==> o.wheel.Shaped()
    requires AllValid(e.Requests())
    ensures r.Ran? ==> r.wheel.Shaped()
  {
    if o.Faulted? then o
    else match e {
      case Add(r) =>
        assert r == e.Requests()[0];
        o.(wheel := TimerAdd(o.wheel, r))
      case Tick(rs) =>
        match TimerUpdate(form, o.wheel, rs)
        case Fault(s) => Faulted(s)
        case Ticked(w, fired) => Ran(w, o.fired + [fired])
    }
  }

  function Run(form: Form, h: History): (o: Outcome)
    requires h.Valid()
    ensures o.Ran? ==> o.wheel.Shaped()
  {
    if h.Start? then Ran(Fresh(), []) else Step(form, Run(form, h.past), h.event)
  }
}

/** The wheel against a plain list of nodes in the order they were added. */
module WheelInvariant {
  import opened Forms
  import opened TimingWheel
  import opened WheelArithmetic

  /** The nodes with a given deadline, in their order. */
  function Expiring(ns: seq<Node>, e: nat): seq<Node> {
    if ns == [] then []
    else if ns[0].expire == e then [ns[0]] + Expiring(ns[1..], e)
    else Expiring(ns[1..], e)
  }

  /** The nodes with any other deadline, in their order. */
  function Others(ns: seq<Node>, e: nat): seq<Node> {
    if ns == [] then []
    else if ns[0].expire != e then [ns[0]] + Others(ns[1..], e)
    else Others(ns[1..], e)
  }

  ghost predicate InTime(n: Node, time: nat, least: nat)
    requires time < TICKS
  {
    n.expire < TICKS && least <= Ahead(n.expire, time) < HALF
  }

  ghost predicate Home(w: Wheel, least: nat, s: Slot, n: Node)
    requires w.Shaped()
  {
    s.Valid() && n in w.At(s) ==> InTime(n, w.time, least) && Place(n.expire, w.time) == s
  }

  /** Every node is ahead of time, and in the one list computed for it. */
  ghost predicate InPlace(w: Wheel, least: nat)
    requires w.Shaped()
  {
    forall s: Slot, n: Node :: Home(w, least, s, n)
  }

  /** The nodes with one deadline stand in their list in the order of `plain`. */
  ghost predicate Agrees(w: Wheel, plain: seq<Node>, e: nat)
    requires w.Shaped()
  {
    Expiring(w.At(Place(e, w.time)), e) == Expiring(plain, e)
  }

  /** The placement invariant. `least` is 1 between ticks, and 0 between a shift and the dispatch
      after it. */
  ghost predicate Represents(w: Wheel, plain: seq<Node>, least: nat) {
    w.Shaped() && InPlace(w, least) && forall e | 0 <= e < TICKS :: Agrees(w, plain, e)
  }

  lemma {:induction false} ExpiringConcat(a: seq<Node>, b: seq<Node>, e: nat)
    ensures Expiring(a + b, e) == Expiring(a, e) + Expiring(b, e)
  {
    if a == [] {
      assert a + b == b;
    } else {
      assert (a + b)[1..] == a[1..] + b;
      ExpiringConcat(a[1..], b, e);
    }
  }

  lemma {:induction false} ExpiringAll(ns: seq<Node>, e: nat)
    requires forall i :: 0 <= i < |ns| ==> ns[i].expire == e
    ensures Expiring(ns, e) == ns
  {
    if ns != [] { ExpiringAll(ns[1..], e); }
  }

  lemma {:induction false} ExpiringNone(ns: seq<Node>, e: nat)
    requires forall i :: 0 <= i < |ns| ==> ns[i].expire != e
    ensures Expiring(ns, e) == []
  {
    if ns != [] { ExpiringNone(ns[1..], e); }
  }

  lemma {:induction false} ExpiringOthers(ns: seq<Node>, d: nat, e: nat)
    ensures Expiring(Others(ns, d), e) == if e == d then [] else Expiring(ns, e)
  {
    if ns != [] {
      ExpiringOthers(ns[1..], d, e);
      ExpiringConcat(if ns[0].expire != d then [ns[0]] else [], Others(ns[1..], d), e);
    }
  }

  lemma AddNodeAppends(w: Wheel, n: Node, e: nat)
    requires w.Shaped()
    ensures var s := Place(e, w.time);
            Expiring(AddNode(w, n).At(s), e) == Expiring(w.At(s), e) + if n.expire == e then [n] else []
  {
    var s := Place(e, w.time);
    if Place(n.expire, w.time) == s { ExpiringConcat(w.At(s), [n], e); }
  }

  /** Relinking puts each node in its own list and appends, for each deadline, in order. */
  lemma {:induction false} RelinkAppends(w: Wheel, ns: seq<Node>, e: nat)
    requires w.Shaped()
    ensures var s := Place(e, w.time);
            Expiring(Relink(w, ns).At(s), e) == Expiring(w.At(s), e) + Expiring(ns, e)
    decreases ns
  {
    if ns != [] {
      var s, w' := Place(e, w.time), AddNode(w, ns[0]);
      var first := if ns[0].expire == e then [ns[0]] else [];
      assert Expiring(w'.At(s), e) == Expiring(w.At(s), e) + first by { AddNodeAppends(w, ns[0], e); }
      RelinkAppends(w', ns[1..], e);
      assert Expiring(ns, e) == first + Expiring(ns[1..], e);
      Assoc(Expiring(w.At(s), e), first, Expiring(ns[1..], e));
      assert Relink(w, ns) == Relink(w', ns[1..]);
    }
  }

  lemma Assoc(a: seq<Node>, b: seq<Node>, c: seq<Node>)
    ensures (a + b) + c == a + (b + c)
  {}

  lemma {:induction false} RelinkMembers(w: Wheel, ns: seq<Node>, s: Slot, n: Node)
    requires w.Shaped() && s.Valid() && n in Relink(w, ns).At(s)
    ensures n in w.At(s) || (n in ns && Place(n.expire, w.time) == s)
    decreases ns
  {
    if ns != [] { RelinkMembers(AddNode(w, ns[0]), ns[1..], s, n); }
  }

  /** Adding keeps the invariant. */
  lemma AddKeeps(w: Wheel, plain: seq<Node>, ns: seq<Node>)
    requires Represents(w, plain, 1)
    requires forall n <- ns :: InTime(n, w.time, 1)
    ensures Represents(Relink(w, ns), plain + ns, 1)
  {
    forall s: Slot, n: Node ensures Home(Relink(w, ns), 1, s, n) {
      assert Home(w, 1, s, n);
      if s.Valid() && n in Relink(w, ns).At(s) { RelinkMembers(w, ns, s, n); }
    }
    forall e | 0 <= e < TICKS ensures Agrees(Relink(w, ns), plain + ns, e) {
      assert Agrees(w, plain, e);
      RelinkAppends(w, ns, e);
      ExpiringConcat(plain, ns, e);
    }
  }

  /** The list to be drained holds nothing before the shift: the first pass of a tick finds nothing. */
  lemma CurrentEmpty(w: Wheel, plain: seq<Node>)
    requires Represents(w, plain, 1)
    ensures w.At(w.Current()) == []
  {
    if w.At(w.Current()) != [] {
      var n := w.At(w.Current())[0];
      assert Home(w, 1, w.Current(), n);
      NearIsCurrent(n.expire, w.time);
    }
  }

  lemma AheadAfterTick(e: nat, t: nat)
    requires e < TICKS && t < TICKS && 0 < Ahead(e, t) < HALF
    ensures Ahead(e, Wrap(t + 1)) == Ahead(e, t) - 1
  {
    if t == TICKS - 1 { assert Ahead(e, t) == e + 1; }
    else if e > t { assert Ahead(e, t) == e - t; }
    else { assert Ahead(e, t) == e - t + TICKS; }
  }

  /** A shift up to relinking: time moves on to `ct`, and one list is taken away whole. */
  ghost predicate Taken(w: Wheel, w': Wheel, moved: seq<Node>) {
    && w.Shaped()
    && w'.time == Wrap(w.time + 1)
    && match ShiftMove(Repaired, w'.time)
       case Nothing => w'.lists == w.lists && moved == []
       case List(m) => m.Valid() && w'.lists == w.lists[m := []] && moved == w.At(m)
  }

  lemma OnlyInItsList(w: Wheel, e: nat, s: Slot)
    requires w.Shaped() && InPlace(w, 1) && s.Valid()
    requires s != Place(e, w.time) || !(0 < Ahead(e, w.time) < HALF)
    ensures Expiring(w.At(s), e) == []
  {
    forall i | 0 <= i < |w.At(s)| ensures w.At(s)[i].expire != e {
      assert Home(w, 1, s, w.At(s)[i]);
    }
    ExpiringNone(w.At(s), e);
  }

  lemma StillInTime(n: Node, time: nat, ct: nat)
    requires time < TICKS && InTime(n, time, 1) && ct == Wrap(time + 1)
    ensures InTime(n, ct, 0)
  {
    AheadAfterTick(n.expire, time);
  }

  lemma TakenInPlace(w: Wheel, w': Wheel, moved: seq<Node>, s: Slot, n: Node)
    requires Taken(w, w', moved) && InPlace(w, 1) && s.Valid() && n in w.At(s)
    ensures InTime(n, w'.time, 0)
    ensures ShiftMove(Repaired, w'.time) != List(s) ==> Place(n.expire, w'.time) == s
  {
    assert Home(w, 1, s, n);
    StillInTime(n, w.time, w'.time);
    StaysUnlessMoved(n.expire, w.time, w'.time, s);
  }

  lemma StaysUnlessMoved(e: nat, time: nat, ct: nat, s: Slot)
    requires e < TICKS && time < TICKS && 0 < Ahead(e, time) < HALF && ct == Wrap(time + 1) && Place(e, time) == s
    ensures ShiftMove(Repaired, ct) != List(s) ==> Place(e, ct) == s
  {
    ShiftMovesWhatMustMove(e, time);
  }

  lemma TakenAgrees(w: Wheel, w': Wheel, moved: seq<Node>, e: nat)
    requires Taken(w, w', moved) && InPlace(w, 1) && e < TICKS
    ensures Expiring(w'.At(Place(e, w'.time)), e) + Expiring(moved, e) == Expiring(w.At(Place(e, w.time)), e)
  {
    if 0 < Ahead(e, w.time) < HALF {
      TakenAgreesAhead(w, w', moved, e);
    } else {
      OnlyInItsList(w, e, Place(e, w.time));
      OnlyInItsList(w, e, Place(e, w'.time));
      if ShiftMove(Repaired, w'.time).List? { OnlyInItsList(w, e, ShiftMove(Repaired, w'.time).from); }
    }
  }

  lemma TakenAgreesAhead(w: Wheel, w': Wheel, moved: seq<Node>, e: nat)
    requires Taken(w, w', moved) && InPlace(w, 1) && e < TICKS && 0 < Ahead(e, w.time) < HALF
    ensures Expiring(w'.At(Place(e, w'.time)), e) + Expiring(moved, e) == Expiring(w.At(Place(e, w.time)), e)
  {
    var m := ShiftMove(Repaired, w'.time);
    ShiftMovesWhatMustMove(e, w.time);
    if m == List(Place(e, w.time)) {
      OnlyInItsList(w, e, Place(e, w'.time));
    } else if m.List? {
      OnlyInItsList(w, e, m.from);
    }
  }

  lemma RelinkTakenInPlace(w: Wheel, w': Wheel, moved: seq<Node>)
    requires Taken(w, w', moved) && InPlace(w, 1) && w'.Shaped()
    ensures InPlace(Relink(w', moved), 0)
  {
    forall s: Slot, n: Node ensures Home(Relink(w', moved), 0, s, n) {
      if s.Valid() && n in Relink(w', moved).At(s) {
        RelinkMembers(w', moved, s, n);
        var from := if n in w'.At(s) then s else ShiftMove(Repaired, w'.time).from;
        TakenInPlace(w, w', moved, from, n);
      }
    }
  }

  lemma TakenKeeps(w: Wheel, w': Wheel, moved: seq<Node>, plain: seq<Node>)
    requires Represents(w, plain, 1) && Taken(w, w', moved) && w'.Shaped()
    ensures Represents(Relink(w', moved), plain, 0)
  {
    RelinkTakenInPlace(w, w', moved);
    forall e | 0 <= e < TICKS ensures Agrees(Relink(w', moved), plain, e) {
      assert Agrees(w, plain, e);
      RelinkAppends(w', moved, e);
      TakenAgrees(w, w', moved, e);
    }
  }

  /** The shift takes one list, or none, and relinks it. */
  lemma ShiftTakes(w: Wheel) returns (w': Wheel, moved: seq<Node>)
    requires w.Shaped()
    ensures Taken(w, w', moved) && w'.Shaped()
    ensures TimerShift(Repaired, w) == Shifted(Relink(w', moved))
  {
    var ct := Wrap(w.time + 1);
    var m := ShiftMove(Repaired, ct);
    RepairedMoveInArray(ct);
    w' := if m.Nothing? then w.(time := ct) else w.(time := ct).Put(m.from, []);
    moved := if m.Nothing? then [] else w.At(m.from);
  }

  /** The shift keeps the invariant: the one list it takes apart holds all that must move. */
  lemma ShiftKeeps(w: Wheel, plain: seq<Node>)
    requires Represents(w, plain, 1)
    ensures var r := TimerShift(Repaired, w); r.Shifted? && Represents(r.wheel, plain, 0)
  {
    var w', moved := ShiftTakes(w);
    TakenKeeps(w, w', moved, plain);
  }

  /** After a shift, a node is in the list to be drained exactly when its deadline is now. */
  lemma DueNow(w: Wheel, s: Slot, n: Node)
    requires w.Shaped() && InPlace(w, 0) && s.Valid() && n in w.At(s)
    ensures s == w.Current() <==> n.expire == w.time
    ensures s != w.Current() ==> InTime(n, w.time, 1)
  {
    assert Home(w, 0, s, n);
    NearIsCurrent(n.expire, w.time);
  }

  lemma DrainLeavesInPlace(w: Wheel)
    requires w.Shaped() && InPlace(w, 0)
    ensures InPlace(w.Put(w.Current(), []), 1)
  {
    var w' := w.Put(w.Current(), []);
    forall s: Slot, n: Node ensures Home(w', 1, s, n) {
      assert Home(w, 0, s, n);
      if s.Valid() && n in w'.At(s) { DueNow(w, s, n); }
    }
  }

  /** The pass after the shift dispatches exactly the nodes whose deadline is now, in order. */
  lemma DrainFires(w: Wheel, plain: seq<Node>)
    requires Represents(w, plain, 0)
    ensures w.At(w.Current()) == Expiring(plain, w.time)
    ensures Represents(w.Put(w.Current(), []), Others(plain, w.time), 1)
  {
    var c, w' := w.Current(), w.Put(w.Current(), []);
    assert w.At(c) == Expiring(plain, w.time) by {
      NearIsCurrent(w.time, w.time);
      forall i | 0 <= i < |w.At(c)| ensures w.At(c)[i].expire == w.time { DueNow(w, c, w.At(c)[i]); }
      ExpiringAll(w.At(c), w.time);
      assert Agrees(w, plain, w.time);
    }
    DrainLeavesInPlace(w);
    forall e | 0 <= e < TICKS ensures Agrees(w', Others(plain, w.time), e) {
      assert Agrees(w, plain, e);
      ExpiringOthers(plain, w.time, e);
      NearIsCurrent(e, w.time);
    }
  }

  /** What one tick with the requests `arrivals` must do: dispatch exactly the nodes whose deadline is
      the new time, in the order they were added, and keep the others and the arrivals. */
  ghost predicate Fires(w: Wheel, plain: seq<Node>, arrivals: seq<Request>, r: TickResult)
    requires AllValid(arrivals)
  {
    && r.Ticked?
    && r.wheel.time == Wrap(w.time + 1)
    && r.fired == Expiring(plain, r.wheel.time)
    && Represents(r.wheel, Others(plain, r.wheel.time) + NodesOf(arrivals, r.wheel.time), 1)
  }

  lemma AfterShiftFires(w: Wheel, plain: seq<Node>, arrivals: seq<Request>)
    requires Represents(w, plain, 0) && AllValid(arrivals)
    ensures AfterShift(w, arrivals).fired == Expiring(plain, w.time)
    ensures Represents(AfterShift(w, arrivals).wheel, Others(plain, w.time) + NodesOf(arrivals, w.time), 1)
  {
    var drained := w.Put(w.Current(), []);
    DrainFires(w, plain);
    NodesInTime(arrivals, w.time);
    AddKeeps(drained, Others(plain, w.time), NodesOf(arrivals, w.time));
    assert w.At(w.Current()) == [] ==> drained == w;
  }

  lemma TickFires(w: Wheel, plain: seq<Node>, arrivals: seq<Request>)
    requires Represents(w, plain, 1) && AllValid(arrivals)
    ensures Fires(w, plain, arrivals, TimerUpdate(Repaired, w, arrivals))
  {
    CurrentEmpty(w, plain);
    ShiftKeeps(w, plain);
    var shifted := TimerShift(Repaired, w).wheel;
    AfterShiftFires(shifted, plain, arrivals);
    var after := AfterShift(shifted, arrivals);
    assert TimerExecute(w, arrivals) == Pass(w, [], false);
    assert TimerUpdate(Repaired, w, arrivals) == Ticked(after.wheel, [] + after.fired);
  }

  lemma {:induction false} NodesInTime(rs: seq<Request>, time: nat)
    requires AllValid(rs) && time < TICKS
    ensures forall n <- NodesOf(rs, time) :: InTime(n, time, 1)
  {
    if rs != [] {
      NodesInTime(rs[1..], time);
      var d := time + rs[0].timeout;
      assert Wrap(d) == if d < TICKS then d else d - TICKS;
    }
  }
}

/** Exact firing over whole runs. */
module TimerTheorems {
  import opened Forms
  import opened TimingWheel
  import opened WheelArithmetic
  import opened TimerRuns
  import opened WheelInvariant

  lemma {:induction false} DueConcat(a: seq<Timer>, b: seq<Timer>, tick: nat)
    ensures Due(a + b, tick) == Due(a, tick) + Due(b, tick)
  {
    if a == [] {
      assert a + b == b;
    } else {
      assert (a + b)[1..] == a[1..] + b;
      DueConcat(a[1..], b, tick);
    }
  }

  lemma {:induction false} WaitingConcat(a: seq<Timer>, b: seq<Timer>, tick: nat)
    ensures Waiting(a + b, tick) == Waiting(a, tick) + Waiting(b, tick)
  {
    if a == [] {
      assert a + b == b;
    } else {
      assert (a + b)[1..] == a[1..] + b;
      WaitingConcat(a[1..], b, tick);
    }
  }

  lemma {:induction false} AllWaiting(ts: seq<Timer>, tick: nat)
    requires forall i :: 0 <= i < |ts| ==> ts[i].deadline > tick
    ensures Waiting(ts, tick) == ts
  {
    if ts != [] { AllWaiting(ts[1..], tick); }
  }

  lemma {:induction false} NoneDue(ts: seq<Timer>, tick: nat)
    requires forall i :: 0 <= i < |ts| ==> ts[i].deadline != tick
    ensures Due(ts, tick) == []
  {
    if ts != [] { NoneDue(ts[1..], tick); }
  }

  lemma {:induction false} WaitingSplits(ts: seq<Timer>, t: nat)
    ensures Due(Waiting(ts, t), t + 1) == Due(ts, t + 1)
    ensures Waiting(Waiting(ts, t), t + 1) == Waiting(ts, t + 1)
  {
    if ts != [] {
      WaitingSplits(ts[1..], t);
      if ts[0].deadline > t { assert Waiting(ts, t)[1..] == Waiting(ts[1..], t); }
    }
  }

  /** Deadlines less than 2^32 apart are told apart by their remainders. */
  lemma {:induction false} EncodeSplits(ts: seq<Timer>, t: nat)
    requires forall i :: 0 <= i < |ts| ==> t < ts[i].deadline < t + TICKS
    ensures Expiring(Encode(ts), Wrap(t + 1)) == Encode(Due(ts, t + 1))
    ensures Others(Encode(ts), Wrap(t + 1)) == Encode(Waiting(ts, t + 1))
  {
    if ts != [] {
      EncodeSplits(ts[1..], t);
      SameRemainder(ts[0].deadline, t + 1);
    }
  }

  lemma {:induction false} SameRemainder(d: nat, t: nat)
    requires t <= d < t + TICKS
    ensures Wrap(d) == Wrap(t) <==> d == t
  {
    if t >= TICKS { SameRemainder(d - TICKS, t - TICKS); }
  }

  lemma {:induction false} WaitingInRange(ts: seq<Timer>, t: nat)
    requires forall i :: 0 <= i < |ts| ==> ts[i].deadline < t + HALF
    ensures forall i :: 0 <= i < |Waiting(ts, t)| ==> t < Waiting(ts, t)[i].deadline < t + HALF
  {
    if ts != [] { WaitingInRange(ts[1..], t); }
  }

  lemma {:induction false} EncodeConcat(a: seq<Timer>, b: seq<Timer>)
    ensures Encode(a + b) == Encode(a) + Encode(b)
  {
    if a == [] {
      assert a + b == b;
    } else {
      assert (a + b)[1..] == a[1..] + b;
      EncodeConcat(a[1..], b);
    }
  }

  /** A deadline computed in 32 bits is the remainder of the one computed without wrapping. */
  lemma {:induction false} NodesAreTimers(rs: seq<Request>, now: nat)
    requires AllValid(rs)
    ensures NodesOf(rs, Wrap(now)) == Encode(TimersAt(rs, now))
  {
    if rs != [] {
      NodesAreTimers(rs[1..], now);
      WrapSum(now, rs[0].timeout);
    }
  }

  lemma {:induction false} WrapSum(a: nat, b: nat)
    ensures Wrap(Wrap(a) + b) == Wrap(a + b)
  {
    if a >= TICKS { WrapSum(a - TICKS, b); }
  }

  /** Every deadline is less than 2^31 ticks ahead when it is added. */
  lemma {:induction false} DeadlinesInRange(h: History)
    requires h.Valid()
    ensures forall i :: 0 <= i < |Added(h)| ==> 0 < Added(h)[i].deadline < Ticks(h) + HALF
  {
    if h.After? { DeadlinesInRange(h.past); }
  }

  /** Tick `k` of a run dispatched exactly the timers due at `k`, in the order they were added. */
  ghost predicate FiredAsDue(o: Outcome, added: seq<Timer>, t: nat) {
    && o.Ran?
    && |o.fired| == t
    && (forall k :: 0 < k <= t ==> o.fired[k - 1] == Encode(Due(added, k)))
  }

  /** What is to be shown of a run with `t` ticks and the timers `added`: every tick dispatched what was
      due, and the wheel holds what is still to come. */
  ghost predicate Accounts(o: Outcome, added: seq<Timer>, t: nat) {
    && FiredAsDue(o, added, t)
    && o.wheel.time == Wrap(t)
    && Represents(o.wheel, Encode(Waiting(added, t)), 1)
  }

  lemma FreshAccounts()
    ensures Accounts(Ran(Fresh(), []), [], 0)
  {
    forall e | 0 <= e < TICKS ensures Agrees(Fresh(), [], e) {}
  }

  /** New timers are due in the future, so they change nothing that was dispatched. */
  lemma PastKept(added: seq<Timer>, late: seq<Timer>, t: nat)
    requires forall i :: 0 <= i < |late| ==> late[i].deadline > t
    ensures Waiting(added + late, t) == Waiting(added, t) + late
    ensures forall k :: 0 < k <= t ==> Due(added + late, k) == Due(added, k)
  {
    WaitingConcat(added, late, t);
    AllWaiting(late, t);
    forall k | 0 < k <= t ensures Due(added + late, k) == Due(added, k) {
      DueConcat(added, late, k);
      NoneDue(late, k);
    }
  }

  lemma ArrivalsWait(w: Wheel, waiting: seq<Timer>, rs: seq<Request>, t: nat)
    requires Represents(w, Encode(waiting), 1) && w.time == Wrap(t) && AllValid(rs)
    ensures forall n <- NodesOf(rs, w.time) :: InTime(n, w.time, 1)
    ensures Encode(waiting) + NodesOf(rs, w.time) == Encode(waiting + TimersAt(rs, t))
  {
    NodesInTime(rs, w.time);
    NodesAreTimers(rs, t);
    EncodeConcat(waiting, TimersAt(rs, t));
  }

  lemma AddAccounts(o: Outcome, added: seq<Timer>, t: nat, r: Request)
    requires Accounts(o, added, t) && r.Valid()
    ensures Accounts(o.(wheel := TimerAdd(o.wheel, r)), added + TimersAt([r], t), t)
  {
    var w, ns := o.wheel, NodesOf([r], o.wheel.time);
    PastKept(added, TimersAt([r], t), t);
    ArrivalsWait(w, Waiting(added, t), [r], t);
    AddKeeps(w, Encode(Waiting(added, t)), ns);
    assert ns == [NodeOf(r, w.time)];
    assert ns[1..] == [];
    assert Relink(w, ns) == Relink(AddNode(w, ns[0]), ns[1..]);
  }

  lemma NextTime(t: nat)
    requires t > 0
    ensures Wrap(Wrap(t - 1) + 1) == Wrap(t)
  {
    WrapSum(t - 1, 1);
  }

  /** The node lists of one tick, in terms of timers. */
  lemma TickEncodes(added: seq<Timer>, t: nat, rs: seq<Request>)
    requires AllValid(rs) && t > 0
    requires forall i :: 0 <= i < |added| ==> added[i].deadline < t - 1 + HALF
    ensures Expiring(Encode(Waiting(added, t - 1)), Wrap(t)) == Encode(Due(added, t))
    ensures Others(Encode(Waiting(added, t - 1)), Wrap(t)) + NodesOf(rs, Wrap(t)) ==
            Encode(Waiting(added, t) + TimersAt(rs, t))
  {
    WaitingSplits(added, t - 1);
    WaitingInRange(added, t - 1);
    EncodeSplits(Waiting(added, t - 1), t - 1);
    NodesAreTimers(rs, t);
    EncodeConcat(Waiting(added, t), TimersAt(rs, t));
  }

  lemma TickDispatches(w: Wheel, added: seq<Timer>, t: nat, rs: seq<Request>, r: TickResult)
    requires AllValid(rs) && t > 0 && w.time == Wrap(t - 1)
    requires forall i :: 0 <= i < |added| ==> added[i].deadline < t - 1 + HALF
    requires Fires(w, Encode(Waiting(added, t - 1)), rs, r)
    ensures r.wheel.time == Wrap(t)
    ensures r.fired == Encode(Due(added, t))
    ensures Represents(r.wheel, Encode(Waiting(added, t) + TimersAt(rs, t)), 1)
  {
    NextTime(t);
    TickEncodes(added, t, rs);
  }

  lemma TickAccounts(o: Outcome, added: seq<Timer>, t: nat, rs: seq<Request>)
    requires AllValid(rs) && t > 0 && Accounts(o, added, t - 1)
    requires forall i :: 0 <= i < |added| ==> added[i].deadline < t - 1 + HALF
    ensures var r := TimerUpdate(Repaired, o.wheel, rs);
            r.Ticked? && Accounts(Ran(r.wheel, o.fired + [r.fired]), added + TimersAt(rs, t), t)
  {
    TickFires(o.wheel, Encode(Waiting(added, t - 1)), rs);
    TickDispatches(o.wheel, added, t, rs, TimerUpdate(Repaired, o.wheel, rs));
    PastKept(added, TimersAt(rs, t), t);
  }

  /** Exact firing. However long the run, and however often the counter wraps, the dispatches of tick
      `k` are exactly the timers ever added whose deadline is `k`, each once, in the order they were
      added; the wheel then holds exactly the timers still to come. */
  lemma {:induction false} ExactFiring(h: History)
    requires h.Valid()
    ensures Accounts(Run(Repaired, h), Added(h), Ticks(h))
  {
    match h
    case Start => FreshAccounts();
    case After(past, e) =>
      ExactFiring(past);
      DeadlinesInRange(past);
      StepAccounts(Run(Repaired, past), Added(past), Ticks(past), e);
  }

  lemma StepAccounts(o: Outcome, added: seq<Timer>, t: nat, e: Event)
    requires Accounts(o, added, t) && AllValid(e.Requests())
    requires forall i :: 0 <= i < |added| ==> added[i].deadline < t + HALF
    ensures var t' := t + if e.Tick? then 1 else 0;
            Accounts(Step(Repaired, o, e), added + TimersAt(e.Requests(), t'), t')
  {
    match e
    case Add(r) =>
      assert e.Requests()[0] == r;
      AddAccounts(o, added, t, r);
    case Tick(rs) =>
      TickAccounts(o, added, t + 1, rs);
  }

  lemma {:induction false} AddedGrows(h: History, start: History)
    requires h.Valid() && h.Extends(start)
    ensures start.Valid() && Ticks(start) <= Ticks(h) && Added(start) <= Added(h)
  {
    if h != start { AddedGrows(h.past, start); }
  }

  /** The timers of some requests: those before the i-th, the i-th, and then the rest. */
  lemma {:induction false} TimersAround(rs: seq<Request>, i: nat, now: nat)
    requires AllValid(rs) && i < |rs|
    ensures TimersAt(rs[..i], now) + [TimerOf(rs[i], now)] <= TimersAt(rs, now)
  {
    if i > 0 {
      TimersAround(rs[1..], i - 1, now);
      assert rs[..i][1..] == rs[1..][..i - 1];
    }
  }

  /** The timers added before the i-th request of the event `e` that follows `past`. */
  function Before(past: History, e: Event, i: nat): seq<Timer>
    requires past.Valid() && AllValid(e.Requests()) && i <= |e.Requests()|
  {
    Added(past) + TimersAt(e.Requests()[..i], Ticks(After(past, e)))
  }

  lemma AddedAround(h: History, past: History, e: Event, i: nat)
    requires h.Valid() && h.Extends(After(past, e)) && i < |e.Requests()|
    ensures past.Valid() && AllValid(e.Requests())
    ensures Before(past, e, i) + [TimerOf(e.Requests()[i], Ticks(After(past, e)))] <= Added(h)
  {
    AddedGrows(h, After(past, e));
    TimersAround(e.Requests(), i, Ticks(After(past, e)));
  }

  lemma DueAround(added: seq<Timer>, before: seq<Timer>, timer: Timer)
    requires before + [timer] <= added
    ensures Encode(Due(added, timer.deadline)) ==
            Encode(Due(before, timer.deadline)) + Encode([timer]) + Encode(Due(added[|before| + 1..], timer.deadline))
  {
    var d, after := timer.deadline, added[|before| + 1..];
    assert added == before + [timer] + after;
    assert [timer][1..] == [];
    assert Due([timer], d) == [timer];
    DueConcat(before + [timer], after, d);
    DueConcat(before, [timer], d);
    EncodeConcat(Due(before, d) + [timer], Due(after, d));
    EncodeConcat(Due(before, d), [timer]);
  }

  /** `o` dispatched `timer`, in the tick it is due at, after the timers with its deadline among
      `before` and ahead of those added later. */
  ghost predicate FiredInOrder(o: Outcome, added: seq<Timer>, before: seq<Timer>, timer: Timer) {
    && before + [timer] <= added
    && o.Ran? && 0 < timer.deadline <= |o.fired|
    && o.fired[timer.deadline - 1] ==
       Encode(Due(before, timer.deadline)) + Encode([timer]) + Encode(Due(added[|before| + 1..], timer.deadline))
  }

  lemma FiresAmong(o: Outcome, added: seq<Timer>, t: nat, before: seq<Timer>, timer: Timer)
    requires FiredAsDue(o, added, t) && before + [timer] <= added && 0 < timer.deadline <= t
    ensures FiredInOrder(o, added, before, timer)
  {
    DueAround(added, before, timer);
  }

  /** One timer's fate, in every run: a timer added at tick T with timeout d, between ticks or while one
      runs, is dispatched in the tick that moves the counter to T + d, after the timers with that deadline
      added before it and ahead of those added after it. */
  lemma FiresInItsTick(h: History, past: History, e: Event, i: nat)
    requires h.Valid() && h.Extends(After(past, e)) && i < |e.Requests()|
    requires Ticks(After(past, e)) + e.Requests()[i].timeout <= Ticks(h)
    ensures past.Valid() && AllValid(e.Requests())
    ensures FiredInOrder(Run(Repaired, h), Added(h), Before(past, e, i),
                         TimerOf(e.Requests()[i], Ticks(After(past, e))))
  {
    AddedAround(h, past, e, i);
    ExactFiring(h);
    FiresAmong(Run(Repaired, h), Added(h), Ticks(h), Before(past, e, i),
               TimerOf(e.Requests()[i], Ticks(After(past, e))));
  }

  /** What holds of a wheel between ticks: every node is ahead of time and in the one list computed from
      its deadline and the time; the list to be drained is empty; index 0 is empty on levels 0 to 2, and
      on level 3 holds only deadlines past the next wrap. */
  ghost predicate Placed(w: Wheel) {
    && w.Shaped() && InPlace(w, 1)
    && w.At(w.Current()) == []
    && (forall l | 0 <= l < 3 :: w.At(Level(l, 0)) == [])
    && (forall n <- w.At(Level(3, 0)) :: n.expire < w.time)
  }

  lemma RepresentsPlaced(w: Wheel, plain: seq<Node>)
    requires Represents(w, plain, 1)
    ensures Placed(w)
  {
    CurrentEmpty(w, plain);
    forall l | 0 <= l < 3 ensures w.At(Level(l, 0)) == [] {
      if w.At(Level(l, 0)) != [] {
        var n := w.At(Level(l, 0))[0];
        assert Home(w, 1, Level(l, 0), n);
        IndexZero(n.expire, w.time);
      }
    }
    forall n | n in w.At(Level(3, 0)) ensures n.expire < w.time {
      assert Home(w, 1, Level(3, 0), n);
      IndexZero(n.expire, w.time);
    }
  }

  /** The placement invariant holds between ticks of every run. */
  lemma PlacementInvariant(h: History)
    requires h.Valid()
    ensures Run(Repaired, h).Ran? && Placed(Run(Repaired, h).wheel)
  {
    ExactFiring(h);
    RepresentsPlaced(Run(Repaired, h).wheel, Encode(Waiting(Added(h), Ticks(h))));
  }

  lemma IndexZero(e: nat, t: nat)
    requires e < TICKS && t < TICKS && 0 < Ahead(e, t) < HALF
    requires Place(e, t).Level? && Place(e, t).index == 0
    ensures Place(e, t).level == 3 && e < t
  {
    var de, dt := PlaceByDigits(e, t);
    AheadIsLater(e, t, de, dt);
  }

  /** The comment in `add_node` puts every wrapped deadline in `t_[3][0]`. Wrapped deadlines all go to
      level 3, but to index 0 exactly those below 2^26. */
  lemma WrappedDeadlines(e: nat, t: nat)
    requires e < t < TICKS && 0 < Ahead(e, t) < HALF
    ensures Place(e, t).Level? && Place(e, t).level == 3
    ensures Place(e, t).index == 0 <==> e < 0x400_0000
  {
    assert Ahead(e, t) == e - t + TICKS;
    assert e / 0x400_0000 < t / 0x400_0000;
  }

  /** How far from dispatch a node with deadline `d` is at tick `t`. */
  function RankAt(d: nat, t: nat): nat { Place(Wrap(d), Wrap(t)).Rank() }

  /** 1 if the shift to tick `b` relinks a node with deadline `d`, and otherwise 0. */
  function Relinked(d: nat, b: nat): nat
    requires b > 0
  {
    if ShiftMove(Repaired, Wrap(b)) == List(Place(Wrap(d), Wrap(b - 1))) then 1 else 0
  }

  /** The sum of `f` over `a + 1 .. b`. */
  function Sum(f: nat -> nat, a: nat, b: nat): nat
    requires a <= b
    decreases b
  {
    if a == b then 0 else Sum(f, a, b - 1) + f(b)
  }

  lemma {:induction false} SumBelowFall(f: nat -> nat, rank: nat -> nat, a: nat, b: nat)
    requires a <= b && forall k :: a < k <= b ==> rank(k) + f(k) <= rank(k - 1)
    ensures Sum(f, a, b) + rank(b) <= rank(a)
    decreases b
  {
    if a < b { SumBelowFall(f, rank, a, b - 1); }
  }

  function Ranks(d: nat): nat -> nat { t => RankAt(d, t) }

  function Relinkings(d: nat): nat -> nat { b => if b > 0 then Relinked(d, b) else 0 }

  /** How often a node with deadline `d` is relinked by the shifts to ticks `a + 1 .. b`. */
  function Relinks(d: nat, a: nat, b: nat): nat
    requires a <= b
  {
    Sum(Relinkings(d), a, b)
  }

  /** Every relinking takes a node to a strictly lower level and nothing raises it again, so a timer is
      relinked at most four times before it is dispatched. */
  lemma BoundedMigration(d: nat, a: nat, b: nat)
    requires a <= b <= d < a + HALF
    ensures Relinks(d, a, b) + RankAt(d, b) <= RankAt(d, a) <= 4
  {
    RanksFall(d, a, b);
    SumBelowFall(Relinkings(d), Ranks(d), a, b);
  }

  lemma RanksFall(d: nat, a: nat, b: nat)
    requires a <= b <= d < a + HALF
    ensures forall k :: a < k <= b ==> Ranks(d)(k) + Relinkings(d)(k) <= Ranks(d)(k - 1)
  {
    forall k | a < k <= b ensures Ranks(d)(k) + Relinkings(d)(k) <= Ranks(d)(k - 1) { MigrationStep(d, k); }
  }

  lemma MigrationStep(d: nat, b: nat)
    requires 0 < b <= d < b - 1 + HALF
    ensures Ranks(d)(b) + Relinkings(d)(b) <= Ranks(d)(b - 1)
  {
    NextTime(b);
    AheadUnwrapped(d, b - 1);
    RankFalls(Wrap(d), Wrap(b - 1), Wrap(b));
  }

  lemma RankFalls(e: nat, t: nat, ct: nat)
    requires e < TICKS && t < TICKS && 0 < Ahead(e, t) < HALF && ct == Wrap(t + 1)
    ensures var from, to := Place(e, t), Place(e, ct);
            to.Rank() + (if ShiftMove(Repaired, ct) == List(from) then 1 else 0) <= from.Rank()
  {
    ShiftMovesWhatMustMove(e, t);
  }

  lemma {:induction false} AheadUnwrapped(d: nat, t: nat)
    requires t <= d < t + HALF
    ensures Ahead(Wrap(d), Wrap(t)) == d - t
  {
    if t >= TICKS { AheadUnwrapped(d - TICKS, t - TICKS); }
  }

  lemma DivMod256(x: nat, low: nat, high: nat)
    requires x == low + 256 * high && low < 256
    ensures x % 256 == low && x / 256 == high
  {}

  /** The written loop in terms of six-bit digits: it takes eight bits at a time. */
  lemma WrittenMove(ct: nat, d: Digits)
    requires d.Of(ct) && ct != 0
    ensures ct / 256 % 256 == d.d1 + 64 * (d.d2 % 4)
    ensures ShiftMove(Written, ct) ==
            if d.d0 != 0 then Nothing
            else if d.d1 != 0 || d.d2 % 4 != 0 then List(Level(0, d.d1 + 64 * (d.d2 % 4)))
            else if d.d2 != 0 || d.d3 % 16 != 0 then List(Level(1, d.d2 / 4 + 16 * (d.d3 % 16)))
            else List(Level(2, d.d3 / 16 + 4 * d.d4))
  {
    var q2, r2, q3, r3 := d.d2 / 4, d.d2 % 4, d.d3 / 16, d.d3 % 16;
    var l0, l1, l2 := ct / 256, q2 + 16 * d.d3 + 0x400 * d.d4, q3 + 4 * d.d4;
    DivMod256(ct, d.d0, d.d1 + 64 * d.d2 + 0x1000 * d.d3 + 0x4_0000 * d.d4);
    DivMod256(l0, d.d1 + 64 * r2, l1);
    DivMod256(l1, q2 + 16 * r3, l2);
    if d.d0 == 0 && l0 % 256 == 0 {
      assert ShiftScan(Written, l0, 0) == ShiftScan(Written, l1, 1);
      if l1 % 256 == 0 {
        DivMod256(l2, l2, 0);
        assert ShiftScan(Written, l1, 1) == ShiftScan(Written, l2, 2);
      }
    }
  }

  /** As written, a shift moves the list it should exactly when there is no carry into the levels, or the
      carry ends in level 0 and the next two bits of the counter are zero, or the counter wraps. */
  lemma WrittenShiftExact(ct: nat)
    requires ct < TICKS
    ensures ShiftMove(Written, ct) == ShiftMove(Repaired, ct)
            <==> ct % 256 != 0 || ct == 0 || 0 < ct / 256 % 256 < 64
  {
    if ct != 0 {
      var d := ToDigits(ct);
      RepairedMove(ct, d);
      WrittenMove(ct, d);
    }
  }

  /** As written, the code agrees with the plain account on a run exactly when the run has fewer than
      2^14 ticks. The tick after that indexes `t_[0][64]`, whatever is pending. */
  lemma WrittenRunsExact(h: History)
    requires h.Valid()
    ensures Accounts(Run(Written, h), Added(h), Ticks(h)) <==> Ticks(h) < 0x4000
    ensures Ticks(h) >= 0x4000 ==> Run(Written, h) == Faulted(Level(0, 64))
  {
    ExactFiring(h);
    WrittenRunsAgree(h);
  }

  lemma {:induction false} WrittenRunsAgree(h: History)
    requires h.Valid()
    ensures Run(Written, h) == if Ticks(h) < 0x4000 then Run(Repaired, h) else Faulted(Level(0, 64))
  {
    if h.After? {
      WrittenRunsAgree(h.past);
      var o := Run(Repaired, h.past);
      assert Run(Repaired, h) == Step(Repaired, o, h.event);
      if Ticks(h.past) < 0x4000 {
        TimeOfRun(h.past);
        BeforeWrap(Ticks(h.past));
        WrittenStep(o, h.event);
      }
    }
  }

  lemma BeforeWrap(t: nat)
    requires t < TICKS
    ensures Wrap(t) == t
  {}

  lemma TimeOfRun(h: History)
    requires h.Valid()
    ensures Run(Repaired, h).Ran? && Run(Repaired, h).wheel.time == Wrap(Ticks(h))
  {
    ExactFiring(h);
  }

  lemma WrittenStep(o: Outcome, e: Event)
    requires o.Ran? && o.wheel.Shaped() && AllValid(e.Requests()) && o.wheel.time < 0x4000
    ensures Step(Written, o, e) ==
            if e.Add? || o.wheel.time < 0x3fff then Step(Repaired, o, e) else Faulted(Level(0, 64))
  {
    if e.Tick? { WrittenTick(o.wheel, e.arrivals); }
  }

  lemma WrittenTick(w: Wheel, rs: seq<Request>)
    requires w.Shaped() && AllValid(rs) && w.time < 0x4000
    ensures TimerUpdate(Written, w, rs) ==
            if w.time < 0x3fff then TimerUpdate(Repaired, w, rs) else Fault(Level(0, 64))
  {
    WrittenShift(TimerExecute(w, rs).wheel);
  }

  lemma WrittenShift(w: Wheel)
    requires w.Shaped() && w.time < 0x4000
    ensures TimerShift(Written, w) ==
            if w.time < 0x3fff then TimerShift(Repaired, w) else OutOfArray(Level(0, 64))
  {
    var ct := w.time + 1;
    BeforeWrap(ct);
    if ct < 0x4000 {
      assert ShiftMove(Written, ct) == ShiftMove(Repaired, ct) by {
        assert ct / 256 < 64;
        WrittenShiftExact(ct);
      }
    } else {
      assert ShiftMove(Written, ct) == List(Level(0, 64)) by {
        assert ct % 256 == 0 && ct / 256 == 64;
        assert ShiftScan(Written, 64, 0) == Level(0, 64);
      }
    }
  }
}
