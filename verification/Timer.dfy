/** `timer` as the object it is: two arrays of lists and a 32-bit counter, changed in place. Every
    method is proved against its function in TimingWheel. */
module TimerObject {
  import opened Forms
  import opened TimingWheel
  import opened WheelArithmetic
  import opened WheelInvariant
  import opened TickClock
  import opened TimerRuns
  import opened TimerTheorems
  import opened Rings
  import opened Queues

  /** A deadline added now is not now, so adding never reaches the list being drained. */
  lemma AddsMissCurrent(w: Wheel, rs: seq<Request>)
    requires w.Shaped() && AllValid(rs) && w.At(w.Current()) == []
    ensures TimerAddAll(w, rs).At(w.Current()) == []
  {
    var r := TimerAddAll(w, rs);
    NodesInTime(rs, w.time);
    if r.At(w.Current()) != [] {
      var n := r.At(w.Current())[0];
      RelinkMembers(w, NodesOf(rs, w.time), w.Current(), n);
      NearIsCurrent(n.expire, w.time);
    }
  }

  ghost predicate ValidSchedule(schedule: seq<seq<Request>>) {
    forall k :: 0 <= k < |schedule| ==> AllValid(schedule[k])
  }

  /** `timer_update` called once for each element of `schedule`, which arrives during it. */
  function RunTicks(form: Form, o: Outcome, schedule: seq<seq<Request>>): (r: Outcome)
    requires (o.Ran? ==> o.wheel.Shaped()) && ValidSchedule(schedule)
    ensures r.Ran? ==> r.wheel.Shaped()
    decreases |schedule|
  {
    if schedule == [] then o
    else
      var n := |schedule| - 1;
      assert AllValid(Tick(schedule[n]).Requests());
      Step(form, RunTicks(form, o, schedule[..n]), Tick(schedule[n]))
  }

  /** `h` followed by one tick for each element of `schedule`. */
  function Ticking(h: History, schedule: seq<seq<Request>>): (r: History)
    requires h.Valid() && ValidSchedule(schedule)
    ensures r.Valid() && Ticks(r) == Ticks(h) + |schedule|
    decreases |schedule|
  {
    if schedule == [] then h
    else After(Ticking(h, schedule[..|schedule| - 1]), Tick(schedule[|schedule| - 1]))
  }

  /** What `update` does is a run, so the theorems about runs apply to it. */
  lemma {:induction false} UpdatesAreRuns(form: Form, h: History, schedule: seq<seq<Request>>)
    requires h.Valid() && ValidSchedule(schedule)
    ensures RunTicks(form, Run(form, h), schedule) == Run(form, Ticking(h, schedule))
    decreases |schedule|
  {
    if schedule != [] { UpdatesAreRuns(form, h, schedule[..|schedule| - 1]); }
  }

  /** A timer in use: what was added to it between updates, and its updates, each with the reading of the
      clock and, tick by tick, what arrived while it ran. */
  datatype Log =
    | Built
    | Adding(past: Log, request: Request)
    | Updating(past: Log, now: int, schedule: seq<seq<Request>>)

  /** The readings of the clock, in order. */
  function Readings(l: Log): seq<int> {
    match l
    case Built => []
    case Adding(past, _) => Readings(past)
    case Updating(past, now, _) => Readings(past) + [now]
  }

  function ClockOf(start: int, l: Log): Clock {
    match l
    case Built => Clock(start, 0)
    case Adding(past, _) => ClockOf(start, past)
    case Updating(past, now, _) => TickClock.Update(ClockOf(start, past), now)
  }

  /** Timeouts are positive, and each update runs the ticks that its reading of the clock asks for. */
  ghost predicate LogOk(start: int, l: Log) {
    match l
    case Built => true
    case Adding(past, r) => LogOk(start, past) && r.Valid()
    case Updating(past, now, schedule) =>
      LogOk(start, past) && ValidSchedule(schedule) && |schedule| == TicksFor(ClockOf(start, past).point, now)
  }

  function HistoryOf(start: int, l: Log): (h: History)
    requires LogOk(start, l)
    ensures h.Valid()
  {
    match l
    case Built => Start
    case Adding(past, r) =>
      assert AllValid(Add(r).Requests());
      After(HistoryOf(start, past), Add(r))
    case Updating(past, _, schedule) => Ticking(HistoryOf(start, past), schedule)
  }

  lemma {:induction false} ClockOfReadings(start: int, l: Log)
    ensures ClockOf(start, l) == UpdateAll(start, Readings(l))
  {
    match l
    case Built =>
    case Adding(past, _) => ClockOfReadings(start, past);
    case Updating(past, now, _) =>
      ClockOfReadings(start, past);
      assert Readings(l)[..|Readings(l)| - 1] == Readings(past);
  }

  lemma {:induction false} TicksAreCurrent(start: int, l: Log)
    requires LogOk(start, l)
    ensures Ticks(HistoryOf(start, l)) == ClockOf(start, l).current
  {
    match l
    case Built =>
    case Adding(past, _) => TicksAreCurrent(start, past);
    case Updating(past, now, schedule) => TicksAreCurrent(start, past);
  }

  /** Tick accounting, over every use of a timer: the ticks run are the growth of `current_`, and `time_` is
      that growth in 32 bits, however the clock moves. */
  lemma UpdateAccounting(start: int, l: Log)
    requires LogOk(start, l)
    ensures var o, c := Run(Repaired, HistoryOf(start, l)), ClockOf(start, l);
            o.Ran? && |o.fired| == c.current && o.wheel.time == Wrap(c.current)
  {
    TicksAreCurrent(start, l);
    ExactFiring(HistoryOf(start, l));
  }

  /** Over every use of a timer, with a clock that may be set back at any time: the ticks run never exceed
      the centiseconds the clock moved forward, and fall short of them by less than one for each update that
      ran some, one for each step back, and one. */
  lemma TicksKeepPace(start: int, l: Log)
    requires LogOk(start, l)
    ensures var ticks, r := Ticks(HistoryOf(start, l)), Readings(l);
            && CENTISECOND * ticks <= Forward(start, r)
            && Forward(start, r) < CENTISECOND * (ticks + Advances(start, r) + StepsBack(start, r) + 1)
  {
    TicksAreCurrent(start, l);
    ClockOfReadings(start, l);
    TickAccounting(start, Readings(l));
  }

  /** The `mask` of the shift loop in round `i`, and the last round it can reach. */
  function MaskAt(form: Form, i: nat): (m: nat)
    requires i <= LastRound(form)
    ensures 0 < m <= 0x400_0000
  {
    match form
    case Written => [0x100, 0x1_0000, 0x100_0000][i]
    case Repaired => [0x100, 0x4000, 0x10_0000, 0x400_0000][i]
  }

  function LastRound(form: Form): nat { if form.Written? then 2 else 3 }

  /** A round that finds a zero group of bits is not the last, so `mask` never overflows its `int` and
      the level stays below four. */
  lemma ShiftRound(form: Form, ct: nat, i: nat)
    requires 0 < ct < TICKS && i <= LastRound(form)
    requires ct % MaskAt(form, i) == 0 && ct / MaskAt(form, i) % Span(form) == 0
    ensures i < LastRound(form)
    ensures MaskAt(form, i + 1) == MaskAt(form, i) * Span(form)
    ensures ct % MaskAt(form, i + 1) == 0 && ct / MaskAt(form, i + 1) > 0
    ensures ct / MaskAt(form, i) / Span(form) == ct / MaskAt(form, i + 1)
  {
    match form
    case Written =>
      if i == 0 { ZeroGroup256(ct, 0x100, 0x1_0000); }
      else if i == 1 { ZeroGroup256(ct, 0x1_0000, 0x100_0000); }
      else { ZeroGroup256(ct, 0x100_0000, 0x1_0000_0000); }
    case Repaired =>
      if i == 0 { ZeroGroup64(ct, 0x100, 0x4000); }
      else if i == 1 { ZeroGroup64(ct, 0x4000, 0x10_0000); }
      else if i == 2 { ZeroGroup64(ct, 0x10_0000, 0x400_0000); }
      else { ZeroGroup64(ct, 0x400_0000, 0x1_0000_0000); }
  }

  lemma ZeroGroup64(ct: nat, mask: nat, next: nat)
    requires 0 < mask && next == 64 * mask && 0 < ct && ct % mask == 0 && ct / mask % 64 == 0
    ensures ct % next == 0 && ct / next == ct / mask / 64 && 0 < ct / next
  {
    var q := ct / mask / 64;
    assert ct == mask * (ct / mask) && ct / mask == 64 * q;
    assert ct == next * q by { assert mask * (64 * q) == (64 * mask) * q; }
    ExactQuotient(ct, next, q);
  }

  lemma ZeroGroup256(ct: nat, mask: nat, next: nat)
    requires 0 < mask && next == 256 * mask && 0 < ct && ct % mask == 0 && ct / mask % 256 == 0
    ensures ct % next == 0 && ct / next == ct / mask / 256 && 0 < ct / next
  {
    var q := ct / mask / 256;
    assert ct == mask * (ct / mask) && ct / mask == 256 * q;
    assert ct == next * q by { assert mask * (256 * q) == (256 * mask) * q; }
    ExactQuotient(ct, next, q);
  }

  lemma ExactQuotient(x: nat, m: nat, q: nat)
    requires 0 < m && x == m * q
    ensures x % m == 0 && x / m == q
  {
    var k, r := x / m, x % m;
    assert x == m * k + r;
    assert m * (k - q) == m * k - m * q;
    NoMultipleBetween(m, k - q);
  }

  lemma NoMultipleBetween(m: int, d: int)
    requires 0 < m && 0 - m < m * d <= 0
    ensures d == 0
  {
    if d > 0 { MulUp(m, d); } else if d < 0 { MulUp(m, -d); }
  }

  lemma MulUp(m: int, d: int)
    requires 0 < m && 0 < d
    ensures m <= m * d
  {}

  const PTYPE_RESPONSE: int := 1

  /** The message that tells a context its timeout is over. */
  function Answer(session: int): Message { Message(0, session, 0, PTYPE_RESPONSE) }

  /** The messages that queue `q` is to receive for the nodes of one dispatch: one for each node whose
      handle found `q`, with the session of the node, in the order of the nodes. */
  ghost function ReceivedBy(nodes: seq<Node>, targets: seq<MessageQueue?>, q: MessageQueue): seq<Message>
    requires |nodes| == |targets|
  {
    if nodes == [] then []
    else
      var n := |nodes| - 1;
      ReceivedBy(nodes[..n], targets[..n], q) + if targets[n] == q then [Message(0, nodes[n].session, 0, 1)] else []
  }

  /** Each queue of `start` has received its messages for these nodes on top of what it held at first. */
  ghost predicate Received(nodes: seq<Node>, targets: seq<MessageQueue?>, start: map<MessageQueue, Ring>)
    requires |nodes| == |targets|
    reads start.Keys
  {
    forall q <- start.Keys ::
      start[q].Valid() && q.View() == PushAll(q.form, start[q], ReceivedBy(nodes, targets, q))
  }

  /** What the i-th node adds to queue `q`. */
  lemma ReceivedStep(form: Form, r: Ring, nodes: seq<Node>, targets: seq<MessageQueue?>, i: nat, q: MessageQueue)
    requires r.Valid() && |nodes| == |targets| && i < |nodes|
    ensures var before, after := ReceivedBy(nodes[..i], targets[..i], q), ReceivedBy(nodes[..i + 1], targets[..i + 1], q);
      PushAll(form, r, after) == if targets[i] == q then Push(form, PushAll(form, r, before), Message(0, nodes[i].session, 0, 1))
                                 else PushAll(form, r, before)
  {
    assert nodes[..i + 1][..i] == nodes[..i] && targets[..i + 1][..i] == targets[..i];
    var ms, m := ReceivedBy(nodes[..i], targets[..i], q), Message(0, nodes[i].session, 0, 1);
    assert (ms + [m])[..|ms|] == ms;
    if targets[i] == q {
      assert ReceivedBy(nodes[..i + 1], targets[..i + 1], q) == ms + [m];
    } else {
      assert ReceivedBy(nodes[..i + 1], targets[..i + 1], q) == ms;
    }
  }

  class Timer {
    const form: Form
    var time: nat                       // time_
    const near: array<seq<Node>>        // near_
    const levels: array2<seq<Node>>     // t_
    var current: nat                    // current_, in centiseconds
    var currentPoint: int               // current_point_

    ghost predicate Valid()
      reads this
    {
      time < TICKS && near.Length == 256 && levels.Length0 == 4 && levels.Length1 == 64
    }

    ghost function ListAt(s: Slot): seq<Node>
      requires Valid() && s.Valid()
      reads this, near, levels
    {
      if s.Near? then near[s.index] else levels[s.level, s.index]
    }

    ghost function View(): (w: Wheel)
      requires Valid()
      reads this, near, levels
      ensures w.Shaped() && w.time == time
    {
      Wheel(time, map s | s in Slots() :: ListAt(s))
    }

    constructor (form: Form, now: int, current: nat)
      ensures Valid() && View() == Fresh() && fresh(near) && fresh(levels)
      ensures this.form == form && currentPoint == now && this.current == current
    {
      this.form, this.currentPoint, this.current, time := form, now, current, 0;
      near := new seq<Node>[256](_ => []);
      levels := new seq<Node>[4, 64]((_, _) => []);
      new;
      assert forall s: Slot | s.Valid() :: ListAt(s) == [];
      assert View().lists == Fresh().lists;
    }

    /** `link_list::link` and `link_list::clear`, on whichever array the list is in. */
    method SetList(s: Slot, list: seq<Node>)
      requires Valid() && s.Valid()
      modifies near, levels
      ensures Valid() && View() == old(View()).Put(s, list)
    {
      match s
      case Near(i) => near[i] := list;
      case Level(l, i) => levels[l, i] := list;
      assert forall o: Slot | o.Valid() :: ListAt(o) == if o == s then list else old(ListAt(o));
      assert View().lists == old(View()).Put(s, list).lists;
    }

    method GetList(s: Slot) returns (list: seq<Node>)
      requires Valid() && s.Valid()
      ensures list == View().At(s)
    {
      match s
      case Near(i) => list := near[i];
      case Level(l, i) => list := levels[l, i];
    }

    method AddNode(n: Node)
      requires Valid()
      modifies near, levels
      ensures Valid() && View() == TimingWheel.AddNode(old(View()), n)
    {
      var s: Slot;
      if n.expire / 0x100 == time / 0x100 {
        s := Near(n.expire % 0x100);
      } else {
        var i, mask, unit := 0, 0x4000, 0x100;
        while i < 3 && n.expire / mask != time / mask
          invariant 0 <= i <= 3 && mask == [0x4000, 0x10_0000, 0x400_0000, 0][i]
          invariant unit == [0x100, 0x4000, 0x10_0000, 0x400_0000][i]
          invariant 0 < i ==> n.expire / 0x4000 != time / 0x4000
          invariant 1 < i ==> n.expire / 0x10_0000 != time / 0x10_0000
          invariant 2 < i ==> n.expire / 0x400_0000 != time / 0x400_0000
        {
          mask := Wrap(mask * 64);  // a uint32_t: zero after the last round, and not used then
          unit := unit * 64;
          i := i + 1;
        }
        s := Level(i, n.expire / unit % 64);
      }
      assert s == Place(n.expire, time);
      var list := GetList(s);
      SetList(s, list + [n]);
    }

    method MoveList(s: Slot)
      requires Valid() && s.Valid()
      modifies near, levels
      ensures Valid() && View() == TimingWheel.MoveList(old(View()), s)
    {
      var current := GetList(s);
      SetList(s, []);
      ghost var w, all := View(), current;
      while current != []
        invariant Valid() && time == old(time)
        invariant Relink(View(), current) == Relink(w, all)
        decreases |current|
      {
        var rest := current[1..];
        AddNode(current[0]);
        current := rest;
      }
    }

    method TimerAdd(r: Request)
      requires Valid() && r.Valid()
      modifies near, levels
      ensures Valid() && View() == TimingWheel.TimerAdd(old(View()), r)
    {
      AddNode(Node(Wrap(time + r.timeout), r.handle, r.session));
    }

    /** `timeout`: a timeout that is not positive answers at once, through the queue of the context, which
        is null if the handle finds none. */
    method Timeout(r: Request, target: MessageQueue?, global: GlobalQueue) returns (ret: int)
      requires Valid() && r.timeout < HALF && Pushable(target, global)
      modifies near, levels, Fields(target), global, global.items`next
      ensures Valid() && global.Valid()
      ensures ret == if r.timeout <= 0 && target == null then -1 else r.session
      ensures View() == if r.timeout > 0 then TimingWheel.TimerAdd(old(View()), r) else old(View())
      ensures Gained(target, global, if r.timeout > 0 then [] else [Message(0, r.session, 0, 1)])
    {
      ret := r.session;
      if r.timeout > 0 {
        TimerAdd(r);
      } else if target != null {
        target.MqPush(Answer(r.session), global);
      } else {
        ret := -1;
      }
    }

    /** Other threads, while the lock is free. */
    method Arrive(rs: seq<Request>)
      requires Valid() && AllValid(rs)
      modifies near, levels
      ensures Valid() && View() == TimerAddAll(old(View()), rs)
    {
      var i := 0;
      while i < |rs|
        invariant 0 <= i <= |rs| && Valid() && time == old(time)
        invariant Relink(View(), NodesOf(rs[i..], time)) == TimerAddAll(old(View()), rs)
      {
        assert NodesOf(rs[i..], time)[1..] == NodesOf(rs[i + 1..], time) by { assert rs[i..][1..] == rs[i + 1..]; }
        TimerAdd(rs[i]);
        i := i + 1;
      }
    }

    /** A push to one of the queues `all`, which leaves the others as they are. */
    static method PushTo(target: MessageQueue, m: Message, global: GlobalQueue, ghost all: set<MessageQueue>)
      requires target in all && Pushable(target, global)
      requires forall q <- all :: Pushable(q, global)
      modifies target, global, global.items`next
      ensures global.Valid()
      ensures forall q <- all :: Pushable(q, global)
      ensures forall q <- all :: q != target ==> q.View() == old(q.View()) && q.inGlobal == old(q.inGlobal)
      ensures target.inGlobal && target.View() == Push(target.form, old(target.View()), m)
      ensures forall q <- global.items :: q in old(global.items) || q == target
    {
      target.MqPush(m, global);
    }

    /** One round of `dispatch`. */
    static method DispatchOne(nodes: seq<Node>, targets: seq<MessageQueue?>, i: nat, global: GlobalQueue,
                              ghost start: map<MessageQueue, Ring>)
      requires i < |nodes| == |targets| && Pushable(targets[i], global)
      requires forall q <- start.Keys :: Pushable(q, global)
      requires targets[i] != null ==> targets[i] in start.Keys
      requires Received(nodes[..i], targets[..i], start)
      modifies Fields(targets[i]), global, global.items`next
      ensures global.Valid()
      ensures forall q <- start.Keys :: Pushable(q, global)
      ensures forall q <- start.Keys :: (old(q.inGlobal) || q == targets[i] ==> q.inGlobal)
      ensures Received(nodes[..i + 1], targets[..i + 1], start)
      ensures forall q <- global.items :: q in old(global.items) || q == targets[i]
    {
      if targets[i] != null {
        PushTo(targets[i], Answer(nodes[i].session), global, start.Keys);
      }
      forall q <- start.Keys
        ensures q.View() == PushAll(q.form, start[q], ReceivedBy(nodes[..i + 1], targets[..i + 1], q))
      {
        ReceivedStep(q.form, start[q], nodes, targets, i, q);
      }
    }

    /** Every node becomes one message in the queue its handle finds; `targets` are what the handles find,
        node by node, null if nothing. */
    static method Dispatch(nodes: seq<Node>, targets: seq<MessageQueue?>, global: GlobalQueue)
      requires |nodes| == |targets| && global.Valid()
      requires forall q <- targets :: Pushable(q, global)
      modifies set q: MessageQueue | q in targets
      modifies global, global.items`next
      ensures global.Valid()
      ensures forall q <- targets :: Pushable(q, global) && (q != null ==> q.inGlobal)
      ensures forall q <- targets :: q != null ==>
                old(Pushable(q, global)) && q.View() == PushAll(q.form, old(q.View()), ReceivedBy(nodes, targets, q))
    {
      ghost var start: map<MessageQueue, Ring> := map q: MessageQueue | q in targets :: q.View();
      var i := 0;
      while i < |nodes|
        invariant 0 <= i <= |nodes|
        invariant forall q <- start.Keys :: Pushable(q, global)
        invariant global.Valid() && forall q <- global.items :: q in old(global.items) || q in targets
        invariant forall q <- targets[..i] :: q != null ==> q.inGlobal
        invariant Received(nodes[..i], targets[..i], start)
      {
        DispatchOne(nodes, targets, i, global, start);
        i := i + 1;
      }
      assert nodes[..i] == nodes && targets[..i] == targets;
    }

    /** Drains the current list until it is empty. In each pass the lock is free while the nodes are
        dispatched; `arrivals` get in during the first. There never is a second. */
    method TimerExecute(arrivals: seq<Request>) returns (fired: seq<Node>, passes: nat)
      requires Valid() && AllValid(arrivals)
      modifies near, levels
      ensures Valid()
      ensures passes <= 1
      ensures TimingWheel.TimerExecute(old(View()), arrivals) == Pass(View(), fired, passes == 1)
      ensures View().At(View().Current()) == []
    {
      var idx := time % 256;
      fired, passes := [], 0;
      ghost var w := View();
      while near[idx] != []
        invariant Valid() && time == old(time)
        invariant passes == 0 ==> View() == w && fired == []
        invariant passes == 1 ==> near[idx] == [] && TimingWheel.TimerExecute(w, arrivals) == Pass(View(), fired, true)
        invariant passes <= 1
        decreases 1 - passes
      {
        assert w.At(w.Current()) == near[idx];
        fired := fired + near[idx];
        SetList(Near(idx), []);
        AddsMissCurrent(View(), arrivals);
        Arrive(arrivals);
        passes := passes + 1;
        assert View().At(View().Current()) == near[idx];
      }
      assert View().At(View().Current()) == near[idx];
    }

    /** The shift loop up to its `break`: the level and index it stops at. */
    method ShiftStop(ct: nat) returns (move: Move)
      requires 0 < ct < TICKS
      ensures move == ShiftMove(form, ct)
    {
      var rest, mask, i, span := ct / 0x100, 0x100, 0, Span(form);
      move := Nothing;
      while ct % mask == 0
        invariant 0 <= i <= LastRound(form) && mask == MaskAt(form, i) && rest == ct / mask && move == Nothing
        invariant i > 0 ==> ct % mask == 0 && ct % 0x100 == 0
        invariant ct % 0x100 == 0 ==> 0 < rest && ShiftScan(form, rest, i) == ShiftScan(form, ct / 0x100, 0)
        decreases LastRound(form) - i
      {
        var idx := rest % span;
        if idx != 0 {
          move := List(Level(i, idx));
          break;
        }
        ShiftRound(form, ct, i);
        mask := mask * span;
        rest := rest / span;
        i := i + 1;
      }
    }

    /** `++time_`. */
    method Advance()
      requires Valid()
      modifies this`time
      ensures Valid() && View() == old(View()).(time := Wrap(old(time) + 1))
    {
      time := Wrap(time + 1);
      assert View().lists == old(View()).lists;
    }

    /** `ok` is false when the loop asks for an element outside `t_[4][64]`. */
    method TimerShift() returns (ok: bool)
      requires Valid()
      modifies this`time, near, levels
      ensures Valid()
      ensures var r := TimingWheel.TimerShift(form, old(View()));
              ok == r.Shifted? && (ok ==> View() == r.wheel) && time == Wrap(old(time) + 1)
    {
      ok := true;
      Advance();
      if time == 0 {
        MoveList(Level(3, 0));
      } else {
        var move := ShiftStop(time);
        if move.List? {
          if move.from.level < 4 && move.from.index < 64 {
            MoveList(move.from);
          } else {
            ok := false;
          }
        }
      }
    }

    /** One tick. `taken` says whether the arrivals found a window; if not they are still waiting. */
    method TimerUpdate(arrivals: seq<Request>) returns (ok: bool, fired: seq<Node>, taken: bool)
      requires Valid() && AllValid(arrivals)
      modifies this`time, near, levels
      ensures Valid()
      ensures var before := TimingWheel.TimerExecute(old(View()), arrivals);
              match TimingWheel.TimerShift(form, before.wheel)
              case OutOfArray(_) => !ok
              case Shifted(w) =>
                var after := TimingWheel.TimerExecute(w, if before.released then [] else arrivals);
                && ok
                && View() == after.wheel
                && fired == before.fired + after.fired
                && taken == (before.released || after.released)
      ensures View().At(View().Current()) == [] || !ok
    {
      var early, n := TimerExecute(arrivals);
      ok := TimerShift();
      fired, taken := early, n == 1;
      if ok {
        var late, m := TimerExecute(if taken then [] else arrivals);
        fired, taken := early + late, n == 1 || m == 1;
      }
    }

    /** `update`, when the clock reads `now`: as many ticks as whole centiseconds have passed, tick k
        with the requests `schedule[k]`. `fired` goes on from `past`. */
    method Update(now: int, schedule: seq<seq<Request>>, past: seq<seq<Node>>)
      returns (ok: bool, fired: seq<seq<Node>>)
      requires Valid() && ValidSchedule(schedule) && |schedule| == TicksFor(currentPoint, now)
      modifies this, near, levels
      ensures Valid()
      ensures var o := RunTicks(form, Ran(old(View()), past), schedule);
              ok == o.Ran? && (ok ==> View() == o.wheel && fired == o.fired)
      ensures TickClock.Update(Clock(old(currentPoint), old(current)), now) == Clock(currentPoint, current)
    {
      ok, fired := true, past;
      ghost var start := Ran(View(), past);
      if now < currentPoint {
        currentPoint := now;
      } else if |schedule| > 0 {
        currentPoint := now;
        current := current + |schedule|;
        var k := 0;
        while k < |schedule|
          invariant 0 <= k <= |schedule| && Valid()
          invariant currentPoint == now && current == old(current) + |schedule|
          invariant var o := RunTicks(form, start, schedule[..k]);
                    ok == o.Ran? && (ok ==> View() == o.wheel && fired == o.fired)
        {
          assert schedule[..k + 1][..k] == schedule[..k];
          if ok { ok, fired := TickOnce(schedule[k], fired); }
          k := k + 1;
        }
        assert schedule[..k] == schedule;
      }
    }

    /** One round of `update`'s loop: a tick, after which the lock is free again. */
    method TickOnce(arrivals: seq<Request>, past: seq<seq<Node>>) returns (ok: bool, fired: seq<seq<Node>>)
      requires Valid() && AllValid(arrivals)
      modifies this`time, near, levels
      ensures Valid()
      ensures var o := Step(form, Ran(old(View()), past), Tick(arrivals));
              ok == o.Ran? && (ok ==> View() == o.wheel && fired == o.fired)
    {
      var f, taken;
      ok, f, taken := TimerUpdate(arrivals);
      fired := past + [f];
      if ok && !taken { Arrive(arrivals); }
    }
  }
}
