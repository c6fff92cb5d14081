/** `message_queue` and `global_queue` as the linked objects they are. */
module Queues {
  import opened Forms
  import opened Doubling
  import opened Rings
  import opened Overload

  /** What a push to a queue, or to none, asks for. The scheduler's invariant provides the last part: a
      queue with `in_global` false is not in the global list. */
  ghost predicate Pushable(q: MessageQueue?, global: GlobalQueue)
    reads global, global.items, Fields(q)
  {
    && global.Valid()
    && (q != null ==> q.Valid() && (!q.inGlobal ==> q !in global.items && q.next == null))
  }

  ghost function Fields(q: MessageQueue?): set<object> {
    if q == null then {} else {q}
  }

  /** Pushing a series of messages. */
  ghost function PushAll(form: Form, r: Ring, ms: seq<Message>): (r': Ring)
    requires r.Valid()
    ensures r'.Valid()
  {
    if ms == [] then r
    else
      var n := |ms| - 1;
      PushKeepsValid(form, PushAll(form, r, ms[..n]), ms[n]);
      Push(form, PushAll(form, r, ms[..n]), ms[n])
  }

  /** Repaired, the series is appended as it is. */
  lemma {:induction false} PushAllAppends(r: Ring, ms: seq<Message>)
    requires r.Valid()
    ensures PushAll(Repaired, r, ms).Contents() == r.Contents() + ms
  {
    if ms != [] {
      var n := |ms| - 1;
      PushAllAppends(r, ms[..n]);
      PushAppends(Repaired, PushAll(Repaired, r, ms[..n]), ms[n]);
      AppendLast(r.Contents(), ms);
    }
  }

  lemma AppendLast(c: seq<Message>, ms: seq<Message>)
    requires ms != []
    ensures c + ms == c + ms[..|ms| - 1] + [ms[|ms| - 1]]
  {}

  /** In either form the series is added, and nothing else. */
  lemma {:induction false} PushAllKeepsMessages(form: Form, r: Ring, ms: seq<Message>)
    requires r.Valid()
    ensures multiset(PushAll(form, r, ms).Contents()) == multiset(r.Contents()) + multiset(ms)
  {
    if ms != [] {
      var n := |ms| - 1;
      PushAllKeepsMessages(form, r, ms[..n]);
      PushKeepsMessages(form, PushAll(form, r, ms[..n]), ms[n]);
      OneMoreMessage(multiset(r.Contents()), ms);
    }
  }

  lemma OneMoreMessage(c: multiset<Message>, ms: seq<Message>)
    requires ms != []
    ensures c + multiset(ms) == c + multiset(ms[..|ms| - 1]) + multiset{ms[|ms| - 1]}
  {
    assert ms == ms[..|ms| - 1] + [ms[|ms| - 1]];
  }

  /** Since the old state `q`, if there is one, was pushed the series `ms`, and listed if it had to be; the
      global list is otherwise as it was. */
  twostate predicate Gained(q: MessageQueue?, global: GlobalQueue, ms: seq<Message>)
    requires q != null ==> old(q.Valid())
    reads global, Fields(q)
  {
    && (q != null ==>
          && q.View() == PushAll(q.form, old(q.View()), ms)
          && q.inGlobal == (old(q.inGlobal) || ms != []))
    && global.items == old(global.items) + if q != null && ms != [] && !old(q.inGlobal) then [q] else []
  }

  class MessageQueue {
    const handle: nat
    const form: Form
    var head: nat
    var tail: nat
    var inGlobal: bool               // in_global
    var overload: nat
    var overloadThreshold: nat       // overload_threshold
    var queue: seq<Message>
    var next: MessageQueue?

    ghost predicate Valid()
      reads this
    {
      View().Valid() && 0 < overloadThreshold
    }

    ghost function View(): Ring
      reads this
    {
      Ring(queue, head, tail)
    }

    constructor (form: Form, handle: nat)
      ensures Valid() && View().Contents() == [] && this.form == form && this.handle == handle
      ensures inGlobal && next == null && overload == 0 && overloadThreshold == MQ_OVERLOAD
    {
      this.form, this.handle := form, handle;
      head, tail, inGlobal, overload, overloadThreshold, next := 0, 0, true, 0, MQ_OVERLOAD, null;
      queue := seq(DEFAULT_QUEUE_SIZE, _ => BLANK);
      assert Doubled(DEFAULT_QUEUE_SIZE, 64);
    }

    method Length() returns (n: nat)
      requires Valid()
      ensures n == |View().Contents()|
    {
      LengthIsLength(View());
      if head <= tail {
        n := tail - head;
      } else {
        n := tail + |queue| - head;
      }
    }

    method MqOverload() returns (was: nat)
      modifies this`overload
      ensures was == old(overload) && overload == 0
    {
      was := overload;
      overload := 0;
    }

    /** The part of `mq_push` that stores the message. */
    method Store(message: Message)
      requires Valid()
      modifies this`queue, this`head, this`tail
      ensures Valid() && View() == Push(form, old(View()), message)
    {
      PushKeepsValid(form, View(), message);
      queue := queue[tail := message];
      tail := tail + 1;
      if tail >= |queue| {
        tail := 0;
      }
      if head == tail {
        var cap := |queue|;
        if form.Repaired? {
          queue := queue[head..] + queue[..head];
        }
        queue := queue + seq(cap, _ => BLANK);
        head := 0;
        tail := cap;
      }
    }

    /** The nested push relies on the global queue not holding this queue while `in_global` is false. */
    method MqPush(message: Message, global: GlobalQueue)
      requires Pushable(this, global)
      modifies this`queue, this`head, this`tail, this`inGlobal, global, global.items`next
      ensures Valid() && global.Valid()
      ensures View() == Push(form, old(View()), message)
      ensures inGlobal
      ensures global.items == old(global.items) + if old(inGlobal) then [] else [this]
    {
      Store(message);
      if !inGlobal {
        inGlobal := true;
        global.Push(this);
      }
    }

    /** The part of `mq_pop` that takes the message. */
    method TakeFirst() returns (m: Message)
      requires Valid() && head != tail
      modifies this`head
      ensures Valid() && (m, View()) == Pop(old(View()))
    {
      PopTakesFirst(View());
      m := queue[head];
      head := head + 1;
      if head >= |queue| {
        head := 0;
      }
    }

    /** The part of `mq_pop` that watches the length left behind. */
    method Watch(length: nat)
      requires 0 < overloadThreshold
      modifies this`overload, this`overloadThreshold
      ensures overloadThreshold == Raise(old(overloadThreshold), length)
      ensures length <= overloadThreshold
      ensures overload == if length > old(overloadThreshold) then length else old(overload)
    {
      ghost var start := overloadThreshold;
      while length > overloadThreshold
        invariant 0 < start <= overloadThreshold
        invariant Raise(overloadThreshold, length) == Raise(start, length)
        invariant overload == if overloadThreshold > start then length else old(overload)
        invariant overloadThreshold > start ==> length > start
        decreases length - overloadThreshold
      {
        overload := length;
        overloadThreshold := overloadThreshold * 2;
      }
    }

    /** A pop that finds nothing gives the queue up: it resets the threshold and clears `in_global`. */
    method MqPop() returns (res: seq<Message>)
      requires Valid()
      modifies this`head, this`inGlobal, this`overload, this`overloadThreshold
      ensures Valid()
      ensures old(View().Contents()) == res + View().Contents() && queue == old(queue) && tail == old(tail)
      ensures res == [] <==> old(View().Contents()) == []
      ensures res == [] ==> !inGlobal && overloadThreshold == MQ_OVERLOAD && overload == old(overload)
      ensures res != [] ==> |res| == 1 && inGlobal == old(inGlobal)
      ensures res != [] ==> var n := |View().Contents()|;
                && n <= overloadThreshold == Raise(old(overloadThreshold), n)
                && overload == if n > old(overloadThreshold) then n else old(overload)
    {
      LengthIsLength(View());
      if head != tail {
        PopTakesFirst(View());
        var m := TakeFirst();
        res := [m];
        LengthIsLength(View());
        var length := tail - head;
        if length < 0 {
          length := length + |queue|;
        }
        Watch(length);
      } else {
        res := [];
        overloadThreshold := MQ_OVERLOAD;
        inGlobal := false;
      }
    }
  }

  class GlobalQueue {
    var head: MessageQueue?
    var tail: MessageQueue?
    ghost var items: seq<MessageQueue>

    /** The chain of `next` pointers from `head` to `tail` is the sequence `items`, without repetition. */
    ghost predicate Valid()
      reads this, items
    {
      && (items == [] <==> head == null)
      && (items == [] <==> tail == null)
      && (items != [] ==> head == items[0] && tail == items[|items| - 1] && items[|items| - 1].next == null)
      && (forall i :: 0 <= i < |items| - 1 ==> items[i].next == items[i + 1])
      && (forall i, j :: 0 <= i < j < |items| ==> items[i] != items[j])
    }

    constructor ()
      ensures Valid() && items == []
    {
      head, tail, items := null, null, [];
    }

    /** `q !in items` and `q.next == null` are what the assertion in `push` relies on. */
    method Push(q: MessageQueue)
      requires Valid() && q !in items && q.next == null
      modifies this, items`next
      ensures Valid() && items == old(items) + [q]
    {
      if tail != null {
        tail.next := q;
        tail := q;
      } else {
        head, tail := q, q;
      }
      items := items + [q];
    }

    /** The assertion that `mq == tail` when the list runs empty is proved here. */
    method Pop() returns (mq: MessageQueue?)
      requires Valid()
      modifies this, items`next
      ensures Valid()
      ensures old(items) == [] ==> mq == null && items == []
      ensures old(items) != [] ==> mq == old(items)[0] && items == old(items)[1..] && mq.next == null && mq !in items
    {
      mq := head;
      if mq != null {
        assert |items| > 1 ==> items[0].next == items[1];
        head := mq.next;
        if head == null {
          assert mq == tail;
          tail := null;
        }
        mq.next := null;
        items := items[1..];
      }
    }
  }
}
