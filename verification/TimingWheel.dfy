/** The hierarchical timing wheel of `timer`, as values: where a node is linked, what a shift moves,
    what one tick dispatches. The class in Timer.dfy is proved against these functions. */
module TimingWheel {
  import opened Forms

  const TICKS: nat := 0x1_0000_0000  // the tick counter and every deadline are uint32_t
  const HALF: nat := 0x8000_0000     // a positive int32_t timeout is below this

  /** 32-bit wrap-around. */
  function Wrap(x: nat): (r: nat)
    ensures r < TICKS
  {
    if x < TICKS then x else Wrap(x - TICKS)
  }

  datatype Node = Node(expire: nat, handle: nat, session: int)

  datatype Request = Request(timeout: int, handle: nat, session: int) {
    /** What reaches `timer_add`: a positive 32-bit timeout. */
    predicate Valid() { 0 < timeout <= 0x7fff_ffff }
  }

  datatype Slot = Near(index: nat) | Level(level: nat, index: nat) {
    predicate Valid() {
      match this
      case Near(i) => i < 256
      case Level(l, i) => l < 4 && i < 64
    }
    /** How far from dispatch a list is: 0 for the near lists, up to 4 for the last level. */
    function Rank(): nat { if Near? then 0 else level + 1 }
  }

  /** The lists that exist: `near_[256]` and `t_[4][64]`. */
  function Slots(): (r: set<Slot>)
    ensures forall s: Slot :: s in r <==> s.Valid()
  {
    (set i | 0 <= i < 256 :: Near(i)) + (set l, i | 0 <= l < 4 && 0 <= i < 64 :: Level(l, i))
  }

  datatype Wheel = Wheel(time: nat, lists: map<Slot, seq<Node>>) {
    ghost predicate Shaped() {
      time < TICKS && forall s: Slot :: s in lists <==> s.Valid()
    }
    function At(s: Slot): seq<Node>
      requires Shaped() && s.Valid()
    {
      lists[s]
    }
    function Put(s: Slot, list: seq<Node>): (w: Wheel)
      requires Shaped() && s.Valid()
      ensures w.Shaped() && w.time == time
    {
      this.(lists := lists[s := list])
    }
    /** The list `timer_execute` drains. */
    function Current(): (s: Slot)
      ensures s.Valid()
    { Near(time % 256) }
  }

  /** The wheel the constructor builds: every list empty, time zero. */
  function Fresh(): (w: Wheel)
    ensures w.Shaped() && w.time == 0
    ensures forall s: Slot :: s.Valid() ==> w.At(s) == []
  {
    Wheel(0, map s | s in Slots() :: [])
  }

  /** `add_node`: the list for a deadline seen from a time. Masking with 2^k - 1 is `% 2^k`, shifting
      right by k is `/ 2^k`, and two words agree after or-ing 2^k - 1 when their quotients by 2^k agree. */
  function Place(expire: nat, time: nat): (s: Slot)
    ensures s.Valid()
  {
    if expire / 0x100 == time / 0x100 then Near(expire % 0x100)
    else if expire / 0x4000 == time / 0x4000 then Level(0, expire / 0x100 % 64)
    else if expire / 0x10_0000 == time / 0x10_0000 then Level(1, expire / 0x4000 % 64)
    else if expire / 0x400_0000 == time / 0x400_0000 then Level(2, expire / 0x10_0000 % 64)
    else Level(3, expire / 0x400_0000 % 64)
  }

  function AddNode(w: Wheel, n: Node): (r: Wheel)
    requires w.Shaped()
    ensures r.Shaped() && r.time == w.time
  {
    var s := Place(n.expire, w.time);
    w.Put(s, w.At(s) + [n])
  }

  /** Linking a chain of nodes one after the other: the loop of `move_list`. */
  function Relink(w: Wheel, ns: seq<Node>): (r: Wheel)
    requires w.Shaped()
    ensures r.Shaped() && r.time == w.time
    decreases ns
  {
    if ns == [] then w else Relink(AddNode(w, ns[0]), ns[1..])
  }

  function MoveList(w: Wheel, s: Slot): (r: Wheel)
    requires w.Shaped() && s.Valid()
    ensures r.Shaped() && r.time == w.time
  {
    Relink(w.Put(s, []), w.At(s))
  }

  /** The node `timer_add` makes of a request. */
  function NodeOf(r: Request, time: nat): Node
    requires r.Valid()
  {
    Node(Wrap(time + r.timeout), r.handle, r.session)
  }

  ghost predicate AllValid(rs: seq<Request>) { forall i :: 0 <= i < |rs| ==> rs[i].Valid() }

  function NodesOf(rs: seq<Request>, time: nat): (ns: seq<Node>)
    requires AllValid(rs)
    ensures |ns| == |rs|
  {
    if rs == [] then [] else [NodeOf(rs[0], time)] + NodesOf(rs[1..], time)
  }

  function TimerAdd(w: Wheel, r: Request): (r': Wheel)
    requires w.Shaped() && r.Valid()
    ensures r'.Shaped() && r'.time == w.time
  {
    AddNode(w, NodeOf(r, w.time))
  }

  function TimerAddAll(w: Wheel, rs: seq<Request>): (r': Wheel)
    requires w.Shaped() && AllValid(rs)
    ensures r'.Shaped() && r'.time == w.time
  {
    Relink(w, NodesOf(rs, w.time))
  }

  /** `timer_shift` steps through the counter in groups of bits. As written it uses the near constants
      (TIME_NEAR_MASK, TIME_NEAR_SHIFT), eight bits a level; placement and the array use six. */
  function Span(form: Form): nat { if form.Written? then 256 else 64 }

  /** The level and index the shift loop stops at, from `rest`, the counter without its low groups. */
  function ShiftScan(form: Form, rest: nat, level: nat): (s: Slot)
    requires rest > 0
    ensures s.Level?
    decreases rest
  {
    match form
    case Written =>
      if rest % 256 != 0 then Level(level, rest % 256) else ShiftScan(form, rest / 256, level + 1)
    case Repaired =>
      if rest % 64 != 0 then Level(level, rest % 64) else ShiftScan(form, rest / 64, level + 1)
  }

  datatype Move = Nothing | List(from: Slot)

  /** The list that the shift to counter value `ct` takes apart. */
  function ShiftMove(form: Form, ct: nat): Move {
    if ct == 0 then List(Level(3, 0))
    else if ct % 256 != 0 then Nothing
    else List(ShiftScan(form, ct / 256, 0))
  }

  /** `OutOfArray`: the loop asked for an element that `t_[4][64]` does not have. */
  datatype ShiftResult = Shifted(wheel: Wheel) | OutOfArray(slot: Slot)

  function TimerShift(form: Form, w: Wheel): (r: ShiftResult)
    requires w.Shaped()
    ensures r.Shifted? ==> r.wheel.Shaped() && r.wheel.time == Wrap(w.time + 1)
  {
    var ct := Wrap(w.time + 1);
    match ShiftMove(form, ct)
    case Nothing => Shifted(w.(time := ct))
    case List(s) => if s.Valid() then Shifted(MoveList(w.(time := ct), s)) else OutOfArray(s)
  }

  /** One `timer_execute`. While it dispatches, the lock is free and the requests in `arrivals` get in;
      `released` says whether that window opened at all. */
  datatype Pass = Pass(wheel: Wheel, fired: seq<Node>, released: bool)

  function TimerExecute(w: Wheel, arrivals: seq<Request>): (p: Pass)
    requires w.Shaped() && AllValid(arrivals)
    ensures p.wheel.Shaped() && p.wheel.time == w.time
  {
    if w.At(w.Current()) == [] then Pass(w, [], false)
    else Pass(TimerAddAll(w.Put(w.Current(), []), arrivals), w.At(w.Current()), true)
  }

  /** The execute after the shift, then the requests that found no window. */
  function AfterShift(w: Wheel, arrivals: seq<Request>): (p: Pass)
    requires w.Shaped() && AllValid(arrivals)
    ensures p.wheel.Shaped() && p.wheel.time == w.time
  {
    var p := TimerExecute(w, arrivals);
    if p.released then p else p.(wheel := TimerAddAll(p.wheel, arrivals))
  }

  datatype TickResult = Ticked(wheel: Wheel, fired: seq<Node>) | Fault(slot: Slot)

  /** One `timer_update` with the requests that arrive during it; those that found no window get the
      lock right after it. */
  function TimerUpdate(form: Form, w: Wheel, arrivals: seq<Request>): (r: TickResult)
    requires w.Shaped() && AllValid(arrivals)
    ensures r.Ticked? ==> r.wheel.Shaped() && r.wheel.time == Wrap(w.time + 1)
  {
    var before := TimerExecute(w, arrivals);
    match TimerShift(form, before.wheel)
    case OutOfArray(s) => Fault(s)
    case Shifted(shifted) =>
      var after := AfterShift(shifted, if before.released then [] else arrivals);
      Ticked(after.wheel, before.fired + after.fired)
  }
}

/** Arithmetic of placement: digits of the counter, and what one carry does to them. */
module WheelArithmetic {
  import opened Forms
  import opened TimingWheel

  /** How far a 32-bit deadline lies ahead of a 32-bit time. */
  function Ahead(expire: nat, time: nat): nat
    requires time < TICKS
  {
    if expire >= time then expire - time else expire + TICKS - time
  }

  /** A 32-bit word as its near digit and four level digits. */
  datatype Digits = Digits(d0: nat, d1: nat, d2: nat, d3: nat, d4: nat) {
    predicate Bounded() { d0 < 256 && d1 < 64 && d2 < 64 && d3 < 64 && d4 < 64 }
    ghost predicate Of(x: nat) {
      Bounded() && x == d0 + 0x100 * d1 + 0x4000 * d2 + 0x10_0000 * d3 + 0x400_0000 * d4
    }
    function Seen(from: Digits): Slot {
      if (d1, d2, d3, d4) == (from.d1, from.d2, from.d3, from.d4) then Near(d0)
      else if (d2, d3, d4) == (from.d2, from.d3, from.d4) then Level(0, d1)
      else if (d3, d4) == (from.d3, from.d4) then Level(1, d2)
      else if d4 == from.d4 then Level(2, d3)
      else Level(3, d4)
    }
    function Moves(): Move {
      if d0 != 0 then Nothing
      else if d1 != 0 then List(Level(0, d1))
      else if d2 != 0 then List(Level(1, d2))
      else if d3 != 0 then List(Level(2, d3))
      else List(Level(3, d4))
    }
    function Next(): Digits {
      if d0 < 255 then this.(d0 := d0 + 1)
      else if d1 < 63 then this.(d0 := 0, d1 := d1 + 1)
      else if d2 < 63 then this.(d0 := 0, d1 := 0, d2 := d2 + 1)
      else if d3 < 63 then this.(d0 := 0, d1 := 0, d2 := 0, d3 := d3 + 1)
      else if d4 < 63 then Digits(0, 0, 0, 0, d4 + 1)
      else Digits(0, 0, 0, 0, 0)
    }
    /** Later by the digits, or far enough behind to have wrapped. */
    predicate LaterThan(t: Digits) {
      if d4 != t.d4 then true
      else if d3 != t.d3 then d3 > t.d3
      else if d2 != t.d2 then d2 > t.d2
      else if d1 != t.d1 then d1 > t.d1
      else d0 > t.d0
    }
  }

  lemma ToDigits(x: nat) returns (d: Digits)
    requires x < TICKS
    ensures d.Of(x)
    ensures x % 0x100 == d.d0 && x / 0x100 % 64 == d.d1 && x / 0x4000 % 64 == d.d2
    ensures x / 0x10_0000 % 64 == d.d3 && x / 0x400_0000 == d.d4
    ensures x / 0x100 == d.d1 + 64 * d.d2 + 0x1000 * d.d3 + 0x4_0000 * d.d4
    ensures x / 0x4000 == d.d2 + 64 * d.d3 + 0x1000 * d.d4
    ensures x / 0x10_0000 == d.d3 + 64 * d.d4
  {
    var l0, l1, l2, l3 := x / 0x100, x / 0x4000, x / 0x10_0000, x / 0x400_0000;
    assert l0 / 64 == l1 && l1 / 64 == l2 && l2 / 64 == l3;
    d := Digits(x % 0x100, l0 % 64, l1 % 64, l2 % 64, l3);
  }

  lemma PlaceByDigits(e: nat, t: nat) returns (de: Digits, dt: Digits)
    requires e < TICKS && t < TICKS
    ensures de.Of(e) && dt.Of(t) && Place(e, t) == de.Seen(dt)
  {
    de := ToDigits(e);
    dt := ToDigits(t);
  }

  lemma DigitsUnique(x: nat, a: Digits, b: Digits)
    requires a.Of(x) && b.Of(x)
    ensures a == b
  {
    assert a.d4 == b.d4;
    assert a.d3 == b.d3;
    assert a.d2 == b.d2;
    assert a.d1 == b.d1;
  }

  lemma NextOf(t: nat, dt: Digits)
    requires dt.Of(t)
    ensures dt.Next().Of(Wrap(t + 1))
  {
    if t < TICKS - 1 { assert Wrap(t + 1) == t + 1; }
  }

  /** With six bits a level the loop stops at the lowest nonzero level digit. */
  lemma RepairedMove(ct: nat, d: Digits)
    requires d.Of(ct)
    ensures ShiftMove(Repaired, ct) == d.Moves()
  {
    var c := ToDigits(ct);
    DigitsUnique(ct, c, d);
    if d.d0 == 0 && ct != 0 {
      var l0, l1, l2, l3 := ct / 0x100, ct / 0x4000, ct / 0x10_0000, ct / 0x400_0000;
      assert l0 / 64 == l1 && l1 / 64 == l2 && l2 / 64 == l3;
      assert l3 > 0 ==> ShiftScan(Repaired, l3, 3) == Level(3, d.d4);
      assert d.d1 == 0 && d.d2 == 0 ==> ShiftScan(Repaired, l2, 2) == if d.d3 != 0 then Level(2, d.d3) else ShiftScan(Repaired, l3, 3);
      assert d.d1 == 0 ==> ShiftScan(Repaired, l1, 1) == if d.d2 != 0 then Level(1, d.d2) else ShiftScan(Repaired, l2, 2);
    }
  }

  lemma AheadIsLater(e: nat, t: nat, de: Digits, dt: Digits)
    requires de.Of(e) && dt.Of(t) && 0 < Ahead(e, t) < HALF
    ensures de.LaterThan(dt)
  {
    assert e > t || e + HALF <= t;
  }

  lemma CarryMovesOne(de: Digits, dt: Digits)
    requires de.Bounded() && dt.Bounded() && de.LaterThan(dt)
    ensures List(de.Seen(dt)) != dt.Next().Moves() ==> de.Seen(dt.Next()) == de.Seen(dt)
    ensures List(de.Seen(dt)) == dt.Next().Moves() ==> de.Seen(dt.Next()).Rank() < de.Seen(dt).Rank()
  {}

  /** One tick changes the place of exactly the deadlines in the list that the shift takes apart, and
      each of those goes to a strictly lower level. */
  lemma ShiftMovesWhatMustMove(e: nat, t: nat)
    requires e < TICKS && t < TICKS && 0 < Ahead(e, t) < HALF
    ensures var ct := Wrap(t + 1);
            if ShiftMove(Repaired, ct) == List(Place(e, t))
            then Place(e, ct).Rank() < Place(e, t).Rank()
            else Place(e, ct) == Place(e, t)
  {
    var ct := Wrap(t + 1);
    var de, dt := PlaceByDigits(e, t);
    var de', dc := PlaceByDigits(e, ct);
    DigitsUnique(e, de, de');
    NextOf(t, dt);
    DigitsUnique(ct, dc, dt.Next());
    RepairedMove(ct, dc);
    AheadIsLater(e, t, de, dt);
    CarryMovesOne(de, dt);
  }

  /** The repaired loop stays inside `t_[4][64]`, and takes index 0 only at the wrap. */
  lemma RepairedMoveInArray(ct: nat)
    requires ct < TICKS
    ensures var m := ShiftMove(Repaired, ct);
            m.Nothing? || (m.from.Valid() && (m.from.index == 0 <==> ct == 0))
  {
    var d := ToDigits(ct);
    RepairedMove(ct, d);
  }

  /** A deadline is in the list that the tick drains exactly when it is now. */
  lemma NearIsCurrent(e: nat, t: nat)
    requires e < TICKS && t < TICKS
    ensures Place(e, t) == Near(t % 256) <==> e == t
  {}
}
