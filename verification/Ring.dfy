/** The growing ring buffer inside `message_queue`, as a value, and the sequence it stands for. */
module Rings {
  import opened Forms
  import opened Doubling

  datatype Message = Message(source: nat, session: int, data: int, kind: int)

  /** A default-constructed `skynet_message`. */
  const BLANK := Message(0, 0, 0, 0)

  const DEFAULT_QUEUE_SIZE: nat := 64

  datatype Ring = Ring(slots: seq<Message>, head: nat, tail: nat) {
    ghost predicate Valid() {
      Doubled(DEFAULT_QUEUE_SIZE, |slots|) && 1 < |slots| && head < |slots| && tail < |slots|
    }

    /** The sequence the ring stands for. Both indices are in range in every ring there is. */
    function Contents(): seq<Message> {
      if head > |slots| || tail > |slots| then []
      else if head <= tail then slots[head..tail]
      else slots[head..] + slots[..tail]
    }

    /** Whether a push fills the last free slot, and so doubles the capacity. */
    predicate Grows() {
      head == if tail + 1 >= |slots| then 0 else tail + 1
    }
  }

  function Empty(): (r: Ring)
    ensures r.Valid() && r.Contents() == []
  {
    assert Doubled(DEFAULT_QUEUE_SIZE, 64);
    Ring(seq(64, _ => BLANK), 0, 0)
  }

  /** `mq_push`, the part that stores. As written, growth sets `head` to 0 and leaves the elements where
      they are; repaired, it moves the wrapped prefix behind the rest. */
  function Push(form: Form, r: Ring, m: Message): (r': Ring)
    requires r.Valid()
  {
    var s := r.slots[r.tail := m];
    var t := if r.tail + 1 >= |s| then 0 else r.tail + 1;
    if r.head != t then Ring(s, r.head, t)
    else
      var kept := match form case Written => s case Repaired => s[r.head..] + s[..r.head];
      Ring(kept + seq(|s|, _ => BLANK), 0, |s|)
  }

  function Pop(r: Ring): (Message, Ring)
    requires r.Valid() && r.head != r.tail
  {
    (r.slots[r.head], r.(head := if r.head + 1 >= |r.slots| then 0 else r.head + 1))
  }

  /** `length()`: from the two indices, never the contents. */
  function Length(r: Ring): int {
    if r.head <= r.tail then r.tail - r.head else r.tail + |r.slots| - r.head
  }

  /** The sequence that follows: `c` turned so that its last `n` elements come first. */
  function Rotated(c: seq<Message>, n: nat): seq<Message>
    requires n <= |c|
  {
    c[|c| - n..] + c[..|c| - n]
  }

  ghost predicate Distinct(c: seq<Message>) {
    forall i, j :: 0 <= i < j < |c| ==> c[i] != c[j]
  }

  lemma LengthIsLength(r: Ring)
    requires r.Valid()
    ensures Length(r) == |r.Contents()|
    ensures r.head == r.tail <==> r.Contents() == []
  {}

  lemma PopTakesFirst(r: Ring)
    requires r.Valid() && r.head != r.tail
    ensures var (m, r') := Pop(r);
            r'.Valid() && |r'.slots| == |r.slots| && r.Contents() == [m] + r'.Contents()
  {}

  lemma PushKeepsValid(form: Form, r: Ring, m: Message)
    requires r.Valid()
    ensures Push(form, r, m).Valid()
    ensures |Push(form, r, m).slots| == if r.Grows() then 2 * |r.slots| else |r.slots|
  {
    DoubledAgain(DEFAULT_QUEUE_SIZE, |r.slots|);
  }

  /** Repaired, a push appends. As written it appends too, except that growth with a nonzero head turns
      the contents by exactly the head. */
  lemma PushAppends(form: Form, r: Ring, m: Message)
    requires r.Valid()
    ensures Push(form, r, m).Contents() ==
            if form.Written? && r.Grows() then Rotated(r.Contents() + [m], r.head) else r.Contents() + [m]
  {
    var s := r.slots[r.tail := m];
    if r.Grows() {
      assert s[r.head..] + s[..r.head] == r.Contents() + [m];
    } else if r.tail + 1 >= |s| {
      assert s[r.head..] == r.Contents() + [m];
    } else if r.head <= r.tail {
      assert s[r.head..r.tail + 1] == r.Contents() + [m];
    } else {
      assert s[r.head..] + s[..r.tail + 1] == r.Contents() + [m];
    }
  }

  lemma RotationKeepsMultiset(c: seq<Message>, n: nat)
    requires n <= |c|
    ensures multiset(Rotated(c, n)) == multiset(c)
  {
    assert c == c[..|c| - n] + c[|c| - n..];
  }

  /** Either way, no message is lost or repeated. */
  lemma PushKeepsMessages(form: Form, r: Ring, m: Message)
    requires r.Valid()
    ensures multiset(Push(form, r, m).Contents()) == multiset(r.Contents()) + multiset{m}
  {
    PushAppends(form, r, m);
    if r.Grows() { RotationKeepsMultiset(r.Contents() + [m], r.head); }
  }

  lemma RotationMoves(c: seq<Message>, n: nat)
    requires 0 < n < |c| && Distinct(c)
    ensures Rotated(c, n)[0] != c[0]
  {}

  /** As written, a push keeps the order of distinct messages exactly when it does not grow the ring, or
      grows it with the head at 0. */
  lemma WrittenPushExact(r: Ring, m: Message)
    requires r.Valid() && Distinct(r.Contents() + [m])
    ensures Push(Written, r, m).Contents() == r.Contents() + [m] <==> !r.Grows() || r.head == 0
  {
    PushAppends(Written, r, m);
    LengthIsLength(r);
    if r.Grows() && r.head != 0 { RotationMoves(r.Contents() + [m], r.head); }
  }
}

/** Whole runs of one queue: what comes out, against what went in. */
module RingRuns {
  import opened Forms
  import opened Rings

  datatype Op = Put(message: Message) | Take

  /** `out` is everything popped so far. A `Take` from an empty ring pops nothing. */
  datatype Use = Use(ring: Ring, out: seq<Message>)

  datatype Ops = None | Then(before: Ops, op: Op)

  /** One push or pop. */
  function Do(form: Form, u: Use, op: Op): (u': Use)
    requires u.ring.Valid()
    ensures u'.ring.Valid()
  {
    match op
    case Put(m) =>
      PushKeepsValid(form, u.ring, m);
      u.(ring := Push(form, u.ring, m))
    case Take =>
      if u.ring.head == u.ring.tail then u
      else
        PopTakesFirst(u.ring);
        var (m, r) := Pop(u.ring);
        Use(r, u.out + [m])
  }

  function Run(form: Form, ops: Ops): (u: Use)
    ensures u.ring.Valid()
  {
    if ops.None? then Use(Empty(), []) else Do(form, Run(form, ops.before), ops.op)
  }

  function PutAll(ops: Ops): seq<Message> {
    if ops.None? then []
    else PutAll(ops.before) + if ops.op.Put? then [ops.op.message] else []
  }

  /** First in, first out: what came out, followed by what is still inside, is what went in. */
  ghost predicate Fifo(form: Form, ops: Ops) {
    Run(form, ops).out + Run(form, ops).ring.Contents() == PutAll(ops)
  }

  /** No push of the run grew the ring while its head was not 0. */
  ghost predicate GrowsAtZero(form: Form, ops: Ops) {
    ops.Then? ==>
      && GrowsAtZero(form, ops.before)
      && (ops.op.Put? ==> var r := Run(form, ops.before).ring; r.Grows() ==> r.head == 0)
  }

  /** The ring refines a plain queue over every run. */
  lemma {:induction false} RepairedIsFifo(ops: Ops)
    ensures Fifo(Repaired, ops)
  {
    if ops.Then? {
      RepairedIsFifo(ops.before);
      StepKeepsFifo(Repaired, ops);
    }
  }

  lemma StepKeepsFifo(form: Form, ops: Ops)
    requires ops.Then? && Fifo(form, ops.before)
    requires form.Repaired? || ops.op.Take? || !Run(form, ops.before).ring.Grows() || Run(form, ops.before).ring.head == 0
    ensures Fifo(form, ops)
  {
    var u := Run(form, ops.before);
    match ops.op
    case Put(m) =>
      PushAppends(form, u.ring, m);
      if form.Written? && u.ring.Grows() { assert Rotated(u.ring.Contents() + [m], 0) == u.ring.Contents() + [m]; }
      assert u.out + (u.ring.Contents() + [m]) == PutAll(ops);
    case Take =>
      if u.ring.head != u.ring.tail {
        PopTakesFirst(u.ring);
        var (m, r) := Pop(u.ring);
        assert u.out + ([m] + r.Contents()) == u.out + [m] + r.Contents();
      }
  }

  /** In either form, whatever came out or is still inside went in exactly once. */
  lemma {:induction false} MessagesConserved(form: Form, ops: Ops)
    ensures multiset(Run(form, ops).out) + multiset(Run(form, ops).ring.Contents()) == multiset(PutAll(ops))
  {
    if ops.Then? {
      MessagesConserved(form, ops.before);
      var u := Run(form, ops.before);
      match ops.op
      case Put(m) => PushKeepsMessages(form, u.ring, m);
      case Take =>
        if u.ring.head != u.ring.tail { PopKeepsMessages(u); }
    }
  }

  lemma PopKeepsMessages(u: Use)
    requires u.ring.Valid() && u.ring.head != u.ring.tail
    ensures var (m, r) := Pop(u.ring);
            multiset(u.out + [m]) + multiset(r.Contents()) == multiset(u.out) + multiset(u.ring.Contents())
  {
    PopTakesFirst(u.ring);
    var (m, r) := Pop(u.ring);
    assert multiset(u.ring.Contents()) == multiset{m} + multiset(r.Contents());
    assert multiset(u.out + [m]) == multiset(u.out) + multiset{m};
  }

  /** A message came out of turn. */
  ghost predicate OutWrong(u: Use, put: seq<Message>) {
    exists i :: 0 <= i < |u.out| && i < |put| && u.out[i] != put[i]
  }

  /** The next message to come out is out of turn, and no growth will help. */
  ghost predicate NextWrong(u: Use, put: seq<Message>) {
    && u.ring.Valid() && u.ring.head == 0 && |u.out| < |put|
    && u.ring.Contents() != [] && u.ring.Contents()[0] != put[|u.out|]
  }

  ghost predicate Misordered(u: Use, put: seq<Message>) {
    OutWrong(u, put) || NextWrong(u, put)
  }

  /** As written, a run of distinct messages is first in, first out exactly when no push grew the ring
      while its head was not 0. */
  lemma {:induction false} WrittenFifoExact(ops: Ops)
    requires Distinct(PutAll(ops))
    ensures Fifo(Written, ops) <==> GrowsAtZero(Written, ops)
    ensures !GrowsAtZero(Written, ops) ==> Misordered(Run(Written, ops), PutAll(ops))
  {
    if ops.Then? {
      var put := PutAll(ops.before);
      assert put <= PutAll(ops);
      assert Distinct(put) by {
        forall i, j | 0 <= i < j < |put| ensures put[i] != put[j] { assert PutAll(ops)[i] != PutAll(ops)[j]; }
      }
      WrittenFifoExact(ops.before);
      var u := Run(Written, ops.before);
      if GrowsAtZero(Written, ops.before) {
        if ops.op.Put? && u.ring.Grows() && u.ring.head != 0 {
          BadGrowth(u, put, ops.op.message);
        } else {
          StepKeepsFifo(Written, ops);
        }
      } else {
        StaysMisordered(u, put, ops.op);
      }
      if !GrowsAtZero(Written, ops) { MisorderedIsNotFifo(Run(Written, ops), PutAll(ops)); }
    }
  }

  lemma MisorderedIsNotFifo(u: Use, put: seq<Message>)
    requires u.ring.Valid() && Misordered(u, put)
    ensures u.out + u.ring.Contents() != put
  {
    var all := u.out + u.ring.Contents();
    if OutWrong(u, put) {
      var i :| 0 <= i < |u.out| && i < |put| && u.out[i] != put[i];
      assert all[i] != put[i];
    } else {
      assert all[|u.out|] != put[|u.out|];
    }
  }

  lemma BadGrowth(u: Use, put: seq<Message>, m: Message)
    requires u.ring.Valid() && u.out + u.ring.Contents() == put && Distinct(put + [m])
    requires u.ring.Grows() && u.ring.head != 0
    ensures Misordered(u.(ring := Push(Written, u.ring, m)), put + [m])
  {
    var c := u.ring.Contents() + [m];
    assert put + [m] == u.out + c;
    DistinctTail(u.out, c);
    PushAppends(Written, u.ring, m);
    PushKeepsValid(Written, u.ring, m);
    LengthIsLength(u.ring);
    assert Push(Written, u.ring, m).Contents()[0] != c[0] by { RotationMoves(c, u.ring.head); }
    assert (put + [m])[|u.out|] == c[0];
  }

  lemma DistinctTail(a: seq<Message>, b: seq<Message>)
    requires Distinct(a + b)
    ensures Distinct(b)
  {
    forall i, j | 0 <= i < j < |b| ensures b[i] != b[j] {
      assert (a + b)[|a| + i] != (a + b)[|a| + j];
    }
  }

  lemma StaysMisordered(u: Use, put: seq<Message>, op: Op)
    requires u.ring.Valid() && Misordered(u, put)
    ensures Misordered(Do(Written, u, op), put + if op.Put? then [op.message] else [])
  {
    var u', put' := Do(Written, u, op), put + if op.Put? then [op.message] else [];
    if OutWrong(u, put) {
      var i :| 0 <= i < |u.out| && i < |put| && u.out[i] != put[i];
      assert u'.out[i] != put'[i];
    } else if op.Put? {
      PutKeepsWrong(u, put, op.message);
    } else {
      LengthIsLength(u.ring);
      PopTakesFirst(u.ring);
      assert u'.out[|u.out|] != put'[|u.out|];
    }
  }

  lemma PutKeepsWrong(u: Use, put: seq<Message>, m: Message)
    requires NextWrong(u, put)
    ensures NextWrong(Do(Written, u, Put(m)), put + [m])
  {
    var c := u.ring.Contents() + [m];
    LengthIsLength(u.ring);
    PushAppends(Written, u.ring, m);
    PushKeepsValid(Written, u.ring, m);
    if u.ring.Grows() { assert Rotated(c, 0) == c; }
    assert Push(Written, u.ring, m).Contents() == c;
  }

  /** The i-th of a series of distinct messages. */
  function Numbered(i: nat): Message { Message(0, i, 0, 0) }

  /** One message in and out, and then `n` more in. */
  function OneOut(n: nat): Ops {
    if n == 0 then Then(Then(None, Put(Numbered(0))), Take) else Then(OneOut(n - 1), Put(Numbered(n)))
  }

  lemma {:induction false} OneOutPuts(n: nat)
    ensures |PutAll(OneOut(n))| == n + 1
    ensures forall i | 0 <= i <= n :: PutAll(OneOut(n))[i] == Numbered(i)
  {
    if n == 0 {
      assert PutAll(OneOut(0)) == PutAll(Then(None, Put(Numbered(0)))) + [] == [Numbered(0)];
    } else {
      OneOutPuts(n - 1);
    }
  }

  lemma {:induction false} OneOutRing(n: nat)
    requires n < 64
    ensures var r := Run(Written, OneOut(n)).ring;
            |r.slots| == 64 && r.head == 1 && r.tail == if n == 63 then 0 else n + 1
  {
    if n == 0 {
      var u := Run(Written, None);
      var v := Run(Written, Then(None, Put(Numbered(0))));
      assert v == Do(Written, u, Put(Numbered(0)));
      assert v.ring.head == 0 && v.ring.tail == 1 && |v.ring.slots| == 64;
    } else {
      OneOutRing(n - 1);
      PushKeepsValid(Written, Run(Written, OneOut(n - 1)).ring, Numbered(n));
    }
  }

  lemma OneOutDistinct(n: nat)
    ensures Distinct(PutAll(OneOut(n)))
  {
    OneOutPuts(n);
  }

  lemma LastPutGrows(ops: Ops, m: Message)
    requires var r := Run(Written, ops).ring; r.Grows() && r.head != 0
    ensures !GrowsAtZero(Written, Then(ops, Put(m)))
  {}

  /** It happens: one message in and out and 64 more in, all distinct, grow the ring with its head at 1
      and put it out of order. */
  lemma WrittenLosesOrder()
    ensures var ops := Then(OneOut(63), Put(Numbered(64)));
      Distinct(PutAll(ops)) && !GrowsAtZero(Written, ops) && !Fifo(Written, ops)
  {
    var n := 63;
    OneOutRing(n);
    LastPutGrows(OneOut(n), Numbered(64));
    OneOutDistinct(n + 1);
    assert OneOut(n + 1) == Then(OneOut(n), Put(Numbered(64)));
    WrittenFifoExact(Then(OneOut(n), Put(Numbered(64))));
  }
}
