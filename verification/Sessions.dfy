/** Session numbers of a context, and the two callback tables that responses are looked up in. */
module Sessions {

  const SESSION_MAX: int := 0x7fff_ffff

  /** `newsession`: the increment of an `int` at its maximum is taken to wrap to the minimum. */
  function NewSession(id: int): (s: int)
    requires 0 <= id <= SESSION_MAX
    ensures 0 < s <= SESSION_MAX
  {
    var next := if id == SESSION_MAX then -0x8000_0000 else id + 1;
    if next <= 0 then 1 else next
  }

  /** The n-th session a context hands out. */
  function Nth(n: nat): (s: int)
    ensures 0 <= s <= SESSION_MAX
  {
    if n == 0 then 0 else NewSession(Nth(n - 1))
  }

  lemma {:induction false} NthIs(n: nat)
    requires n > 0
    ensures Nth(n) == (n - 1) % SESSION_MAX + 1
  {
    if n > 1 {
      NthIs(n - 1);
      NextMod(n - 2);
    }
  }

  lemma NextMod(x: nat)
    ensures (x + 1) % 0x7fff_ffff == if x % 0x7fff_ffff == 0x7fff_fffe then 0 else x % 0x7fff_ffff + 1
  {}

  /** Sessions are positive, and two of them are equal exactly when a multiple of 2^31 - 1 lies between:
      they are distinct between wraps. */
  lemma SessionsDistinctExact(j: nat, k: nat)
    requires 0 < j && 0 < k
    ensures 0 < Nth(j)
    ensures Nth(j) == Nth(k) <==> (j - k) % SESSION_MAX == 0
  {
    NthIs(j);
    NthIs(k);
    assert (j - 1) - (k - 1) == j - k;
    EqualRemainders(j - 1, k - 1);
  }

  lemma EqualRemainders(a: nat, b: nat)
    ensures a % 0x7fff_ffff == b % 0x7fff_ffff <==> (a - b) % 0x7fff_ffff == 0
  {}

  lemma {:induction false} NthWithinBound(n: nat)
    requires n <= SESSION_MAX
    ensures Nth(n) == n
  {
    if n > 0 {
      NthWithinBound(n - 1);
    }
  }

  // ----- The two tables -----

  datatype Found = NoCallback | Callback(callback: nat)

  datatype Tables = Tables(requests: map<int, nat>, timeouts: map<int, nat>) {
    predicate Waits(x: int) {
      x in requests || x in timeouts
    }
  }

  datatype Resolution = Resolution(tables: Tables, found: Found)

  /** `on_response`: the request table first, then the timeout table; what is found is erased and run. */
  function Resolve(t: Tables, x: int): Resolution {
    if x in t.requests then Resolution(t.(requests := t.requests - {x}), Callback(t.requests[x]))
    else if x in t.timeouts then Resolution(t.(timeouts := t.timeouts - {x}), Callback(t.timeouts[x]))
    else Resolution(t, NoCallback)
  }

  /** A response runs a callback exactly when its session waits. As long as no session waits in both
      tables, a second response for the session finds nothing, and no other session is touched. */
  lemma ResolvesOnce(t: Tables, x: int)
    requires t.requests.Keys !! t.timeouts.Keys
    ensures Resolve(t, x).found.Callback? <==> t.Waits(x)
    ensures !Resolve(t, x).tables.Waits(x)
    ensures Resolve(Resolve(t, x).tables, x) == Resolution(Resolve(t, x).tables, NoCallback)
    ensures forall y :: y != x ==> Resolve(Resolve(t, x).tables, y).found == Resolve(t, y).found
  {}
}

/** Every interleaving of one context's handlers with its timers, its requests and their responses. */
module SessionRuns {
  import opened Sessions

  datatype Arming = NotArming | Storing(session: int, callback: nat)

  datatype Called = Called(session: int, callback: nat)

  /** `busy`: a handler of the context runs. `arming`: the timer is armed, its callback not yet stored.
      `armed`: in the timer. `inbox`: responses in the queue. The last three record what has happened:
      the callback given with each session, the sessions of armed timeouts, and the callbacks run. */
  datatype State = State(
    count: nat,
    busy: bool,
    arming: Arming,
    tables: Tables,
    armed: set<int>,
    inbox: seq<int>,
    given: map<int, nat>,
    timers: set<int>,
    ran: seq<Called>)

  const START := State(0, false, NotArming, Tables(map[], map[]), {}, [], map[], {}, [])

  datatype Step =
    | BeginHandler                          // some other message is dispatched
    | EndHandler
    | Timeout(callback: nat, atOnce: bool)  // newsession and timer::timeout; a timeout <= 0 responds at once
    | TimeoutRefused                        // timer::timeout returned -1
    | Store                                 // timeout_nodes[id] = cb
    | Request(callback: nat)                // newsession, response_cbs[session] = f, and the push
    | Fire(session: int)                    // the timer dispatches
    | Reply(session: int)                   // a peer answers a request, perhaps not for the first time
    | Deliver                               // on_response for the first response in the queue

  predicate Enabled(s: State, step: Step) {
    match step
    case BeginHandler => !s.busy
    case EndHandler => s.busy && s.arming.NotArming?
    case Timeout(_, _) => s.busy && s.arming.NotArming?
    case TimeoutRefused => s.busy && s.arming.NotArming?
    case Store => s.arming.Storing?
    case Request(_) => s.busy && s.arming.NotArming?
    case Fire(x) => x in s.armed
    case Reply(x) => 0 < x <= s.count && x !in s.timers
    case Deliver => !s.busy && s.inbox != []
  }

  /** The effect of a response on the tables and on what has run. */
  function Respond(s: State, x: int): State {
    var done := Resolve(s.tables, x);
    match done.found
    case NoCallback => s
    case Callback(cb) => s.(tables := done.tables, ran := s.ran + [Called(x, cb)])
  }

  function Apply(s: State, step: Step): State
    requires Enabled(s, step)
  {
    var x := Nth(s.count + 1);
    match step
    case BeginHandler => s.(busy := true)
    case EndHandler => s.(busy := false)
    case Timeout(cb, atOnce) =>
      var s' := s.(count := s.count + 1, arming := Storing(x, cb),
                   given := s.given[x := cb], timers := s.timers + {x});
      if atOnce then s'.(inbox := s.inbox + [x]) else s'.(armed := s.armed + {x})
    case TimeoutRefused => s.(count := s.count + 1)
    case Store =>
      s.(tables := s.tables.(timeouts := s.tables.timeouts[s.arming.session := s.arming.callback]),
         arming := NotArming)
    case Request(cb) =>
      s.(count := s.count + 1, given := s.given[x := cb],
         tables := s.tables.(requests := s.tables.requests[x := cb]))
    case Fire(y) => s.(armed := s.armed - {y}, inbox := s.inbox + [y])
    case Reply(y) => s.(inbox := s.inbox + [y])
    case Deliver => Respond(s, s.inbox[0]).(inbox := s.inbox[1..], busy := true)
  }

  datatype Trace = Start | Then(past: Trace, step: Step)

  predicate Legal(t: Trace)
    decreases t, 0
  {
    match t
    case Start => true
    case Then(past, step) => Legal(past) && Enabled(Reached(past), step)
  }

  function Reached(t: Trace): State
    requires Legal(t)
    decreases t, 1
  {
    match t
    case Start => START
    case Then(past, step) => Apply(Reached(past), step)
  }

  // ----- The invariant -----

  function Count(c: seq<int>, x: int): nat {
    if c == [] then 0 else Count(c[1..], x) + if c[0] == x then 1 else 0
  }

  /** How often the callback of session `x` has run. */
  function Calls(ran: seq<Called>, x: int): nat {
    if ran == [] then 0
    else Calls(ran[..|ran| - 1], x) + if ran[|ran| - 1].session == x then 1 else 0
  }

  function One(b: bool): nat {
    if b then 1 else 0
  }

  predicate Stores(s: State, x: int) {
    s.arming.Storing? && s.arming.session == x
  }

  /** A timeout's response is in the timer, in the queue or answered; its callback is in the table or
      about to be stored exactly until then. */
  ghost predicate TimerOk(s: State, x: int) {
    && 0 < x <= s.count && x in s.given && x !in s.tables.requests
    && One(x in s.armed) + Count(s.inbox, x) + Calls(s.ran, x) == 1
    && One(x in s.tables.timeouts) + One(Stores(s, x)) + Calls(s.ran, x) == 1
    && (x in s.tables.timeouts ==> s.tables.timeouts[x] == s.given[x])
    && (Stores(s, x) ==> s.arming.callback == s.given[x])
  }

  ghost predicate RequestOk(s: State, x: int) {
    && x !in s.armed && x !in s.tables.timeouts && !Stores(s, x)
    && (x in s.tables.requests ==> x in s.given && s.tables.requests[x] == s.given[x])
    && Calls(s.ran, x) + One(x in s.tables.requests) == One(x in s.given)
    && (x in s.given || x in s.inbox ==> 0 < x <= s.count)
  }

  ghost predicate SessionOk(s: State, x: int) {
    && (x in s.timers ==> TimerOk(s, x))
    && (x !in s.timers ==> RequestOk(s, x))
  }

  ghost predicate Inv(s: State) {
    && s.count <= SESSION_MAX
    && (forall x :: SessionOk(s, x))
    && (!s.busy ==> s.arming.NotArming?)
    && (forall c <- s.ran :: c.session in s.given && s.given[c.session] == c.callback)
  }

  lemma {:induction false} CountAppend(c: seq<int>, x: int, y: int)
    ensures Count(c + [y], x) == Count(c, x) + One(y == x)
  {
    if c != [] {
      assert (c + [y])[1..] == c[1..] + [y];
      CountAppend(c[1..], x, y);
    }
  }

  lemma {:induction false} CountIsMembership(c: seq<int>, x: int)
    ensures Count(c, x) > 0 <==> x in c
  {
    if c != [] {
      CountIsMembership(c[1..], x);
    }
  }

  lemma CallsAppend(ran: seq<Called>, c: Called, x: int)
    ensures Calls(ran + [c], x) == Calls(ran, x) + One(c.session == x)
  {
    assert (ran + [c])[..|ran|] == ran;
  }

  lemma StartOk()
    ensures Inv(START)
  {
    assert forall x :: SessionOk(START, x);
  }

  /** Every step keeps the invariant while the sessions have not wrapped. */
  lemma StepKeeps(s: State, step: Step)
    requires Inv(s) && Enabled(s, step)
    requires Apply(s, step).count <= SESSION_MAX
    ensures Inv(Apply(s, step))
  {
    var s' := Apply(s, step);
    forall x ensures SessionOk(s', x) {
      assert SessionOk(s, x);
      SessionKept(s, step, x);
    }
    RanKept(s, step);
    assert !s'.busy ==> s'.arming.NotArming?;
  }

  lemma RanKept(s: State, step: Step)
    requires Inv(s) && Enabled(s, step)
    requires Apply(s, step).count <= SESSION_MAX
    ensures var s' := Apply(s, step);
      forall c <- s'.ran :: c.session in s'.given && s'.given[c.session] == c.callback
  {
    NewIsUnused(s);
    if step.Deliver? {
      assert SessionOk(s, s.inbox[0]);
    }
  }

  /** The session handed out next has not been seen before. */
  lemma NewIsUnused(s: State)
    requires Inv(s)
    ensures s.count < SESSION_MAX ==>
      var x := Nth(s.count + 1); x == s.count + 1 && x !in s.given && x !in s.timers && x !in s.inbox
  {
    if s.count < SESSION_MAX {
      NthWithinBound(s.count + 1);
      assert SessionOk(s, s.count + 1);
    }
  }

  lemma SessionKept(s: State, step: Step, x: int)
    requires Inv(s) && Enabled(s, step)
    requires Apply(s, step).count <= SESSION_MAX
    ensures SessionOk(Apply(s, step), x)
  {
    assert SessionOk(s, x);
    match step
    case BeginHandler =>
    case EndHandler =>
    case TimeoutRefused =>
    case Timeout(_, _) => TimeoutKeeps(s, step, x);
    case Store => assert SessionOk(s, s.arming.session);
    case Request(_) => NewIsUnused(s);
    case Fire(y) => ArrivalKeeps(s, step, x, y);
    case Reply(y) => ArrivalKeeps(s, step, x, y);
    case Deliver => DeliverKeeps(s, x);
  }

  lemma ArrivalKeeps(s: State, step: Step, x: int, y: int)
    requires SessionOk(s, x) && SessionOk(s, y)
    requires (step == Fire(y) || step == Reply(y)) && Enabled(s, step)
    ensures SessionOk(Apply(s, step), x)
  {
    CountAppend(s.inbox, x, y);
  }

  lemma TimeoutKeeps(s: State, step: Step, x: int)
    requires Inv(s) && Enabled(s, step) && step.Timeout? && s.count < SESSION_MAX
    ensures SessionOk(Apply(s, step), x)
  {
    assert SessionOk(s, x);
    NewIsUnused(s);
    CountIsMembership(s.inbox, x);
    CountAppend(s.inbox, x, s.count + 1);
  }

  /** A response concerns its own session and no other. */
  lemma DeliverKeepsOthers(s: State, x: int)
    requires Enabled(s, Deliver) && s.inbox[0] != x
    ensures var s' := Apply(s, Deliver);
      && Count(s'.inbox, x) == Count(s.inbox, x) && (x in s'.inbox <==> x in s.inbox)
      && Calls(s'.ran, x) == Calls(s.ran, x)
      && (x in s'.tables.requests <==> x in s.tables.requests)
      && (x in s'.tables.timeouts <==> x in s.tables.timeouts)
  {
    CountIsMembership(s.inbox, x);
    CountIsMembership(s.inbox[1..], x);
    var found := Resolve(s.tables, s.inbox[0]).found;
    if found.Callback? {
      CallsAppend(s.ran, Called(s.inbox[0], found.callback), x);
    }
  }

  lemma DeliverKeeps(s: State, x: int)
    requires SessionOk(s, x) && Enabled(s, Deliver)
    requires s.arming.NotArming?
    ensures SessionOk(Apply(s, Deliver), x)
  {
    if x == s.inbox[0] {
      DeliverAnswers(s);
    } else {
      DeliverKeepsOthers(s, x);
    }
  }

  lemma DeliverAnswers(s: State)
    requires Enabled(s, Deliver) && s.arming.NotArming?
    requires SessionOk(s, s.inbox[0])
    ensures SessionOk(Apply(s, Deliver), s.inbox[0])
  {
    var y := s.inbox[0];
    CountIsMembership(s.inbox[1..], y);
    var found := Resolve(s.tables, y).found;
    if found.Callback? {
      CallsAppend(s.ran, Called(y, found.callback), y);
    }
    assert Count(s.inbox, y) == Count(s.inbox[1..], y) + 1;
  }

  lemma {:induction false} ReachedOk(t: Trace)
    requires Legal(t) && Reached(t).count <= SESSION_MAX
    ensures Inv(Reached(t))
  {
    match t
    case Start => StartOk();
    case Then(past, step) =>
      ReachedOk(past);
      StepKeeps(Reached(past), step);
  }

  // ----- Theorems -----

  /** In every reachable state before the session counter wraps: no session waits in both tables, no
      callback has run twice, and each callback that ran is the one given with its session. */
  lemma AtMostOneCallback(t: Trace, x: int)
    requires Legal(t) && Reached(t).count <= SESSION_MAX
    ensures var s := Reached(t);
      && s.tables.requests.Keys !! s.tables.timeouts.Keys
      && Calls(s.ran, x) <= 1
      && (s.tables.Waits(x) ==> Calls(s.ran, x) == 0)
      && forall c <- s.ran :: c.session in s.given && c.callback == s.given[c.session]
  {
    ReachedOk(t);
    var s := Reached(t);
    assert SessionOk(s, x);
    forall y ensures !(y in s.tables.requests && y in s.tables.timeouts) {
      assert SessionOk(s, y);
    }
  }

  /** The callback of an armed timeout has run exactly once if its response has left the timer and the
      queue, and not at all otherwise: no response is dropped and none is delivered twice. */
  lemma TimeoutRunsExactlyOnce(t: Trace, x: int)
    requires Legal(t) && Reached(t).count <= SESSION_MAX
    requires x in Reached(t).timers
    ensures var s := Reached(t);
      && Calls(s.ran, x) == (if x in s.armed || x in s.inbox then 0 else 1)
      && One(x in s.armed) + Count(s.inbox, x) <= 1
  {
    ReachedOk(t);
    assert SessionOk(Reached(t), x);
    CountIsMembership(Reached(t).inbox, x);
  }

  /** Storing the callback after arming the timer is safe exactly because a context runs one handler at a
      time: a timeout's response in the queue finds its callback if and only if it is not the one being
      stored, and when a delivery is enabled there is no such one. */
  lemma DeliveryFindsExact(t: Trace, x: int)
    requires Legal(t) && Reached(t).count <= SESSION_MAX
    requires x in Reached(t).timers && x in Reached(t).inbox
    ensures var s := Reached(t);
      && x in s.given
      && (Resolve(s.tables, x).found == Callback(s.given[x]) <==> !Stores(s, x))
      && (Resolve(s.tables, x).found == NoCallback <==> Stores(s, x))
      && (Enabled(s, Deliver) ==> !Stores(s, x))
  {
    ReachedOk(t);
    assert SessionOk(Reached(t), x);
    CountIsMembership(Reached(t).inbox, x);
  }

  /** A request's callback runs at the first of its responses, and every later one finds nothing. */
  lemma RequestRunsAtFirstReply(t: Trace)
    requires Legal(t) && Enabled(Reached(t), Deliver) && Reached(t).count <= SESSION_MAX
    requires Reached(t).inbox[0] !in Reached(t).timers
    ensures var s := Reached(t);
      var x := s.inbox[0];
      Resolve(s.tables, x).found ==
        if x in s.given && Calls(s.ran, x) == 0 then Callback(s.given[x]) else NoCallback
  {
    ReachedOk(t);
    assert SessionOk(Reached(t), Reached(t).inbox[0]);
  }

  /** Without the exclusion, a response answered between arming and storing would be lost and its callback
      kept for good: some reachable state has exactly such a response at the head of the queue. */
  lemma EarlyResponseWouldBeLost()
    returns (t: Trace)
    ensures Legal(t) && Reached(t).inbox == [1] && Stores(Reached(t), 1)
    ensures Respond(Reached(t), 1) == Reached(t)
  {
    t := Then(Then(Start, BeginHandler), Timeout(7, true));
    NthWithinBound(1);
    assert Reached(Then(Start, BeginHandler)) == START.(busy := true);
  }

  // ----- No callback waits for good -----

  /** `t` goes on from `start` without new sessions. */
  ghost predicate GoesOn(t: Trace, start: Trace) {
    t == start || (t.Then? && GoesOn(t.past, start) &&
                   !t.step.Timeout? && !t.step.TimeoutRefused? && !t.step.Request?)
  }

  lemma {:induction false} GoesOnOn(a: Trace, b: Trace, c: Trace)
    requires GoesOn(b, a) && GoesOn(c, b)
    ensures GoesOn(c, a)
  {
    if c != b { GoesOnOn(a, b, c.past); }
  }

  /** The callback given with session `x` has not run yet. */
  ghost predicate Unrun(s: State, x: int) {
    Inv(s) && x in s.given && Calls(s.ran, x) == 0
  }

  lemma StepOn(t: Trace, step: Step) returns (t': Trace)
    requires Legal(t) && Inv(Reached(t)) && Enabled(Reached(t), step)
    requires !step.Timeout? && !step.TimeoutRefused? && !step.Request?
    ensures t' == Then(t, step) && Legal(t') && GoesOn(t', t) && Inv(Reached(t'))
    ensures Reached(t') == Apply(Reached(t), step)
  {
    t' := Then(t, step);
    assert GoesOn(t'.past, t);
    StepKeeps(Reached(t), step);
  }

  /** The running handler, if there is one, stores what it armed and ends. */
  lemma Settle(t: Trace, x: int) returns (t': Trace)
    requires Legal(t) && Unrun(Reached(t), x)
    ensures Legal(t') && GoesOn(t', t) && Unrun(Reached(t'), x) && !Reached(t').busy
    ensures Reached(t').inbox == Reached(t).inbox && Reached(t').timers == Reached(t).timers
  {
    t' := t;
    if Reached(t').arming.Storing? { t' := StepOn(t', Store); }
    if Reached(t').busy {
      var next := StepOn(t', EndHandler);
      GoesOnOn(t, t', next);
      t' := next;
    }
  }

  /** The response of a session whose callback waits can reach the queue. */
  lemma Respondent(t: Trace, x: int) returns (t': Trace)
    requires Legal(t) && Unrun(Reached(t), x)
    ensures Legal(t') && GoesOn(t', t) && Unrun(Reached(t'), x) && x in Reached(t').inbox
  {
    var s := Reached(t);
    assert SessionOk(s, x);
    CountIsMembership(s.inbox, x);
    t' := t;
    if x !in s.inbox { t' := StepOn(t, if x in s.timers then Fire(x) else Reply(x)); }
  }

  /** Delivering runs the callback of the session at the head of the queue, and no other. */
  lemma DeliverRuns(s: State, x: int)
    requires Unrun(s, x) && Enabled(s, Deliver)
    ensures Calls(Apply(s, Deliver).ran, x) == if s.inbox[0] == x then 1 else 0
  {
    assert SessionOk(s, x);
    CountIsMembership(s.inbox, x);
    if s.inbox[0] == x {
      CallsAppend(s.ran, Called(x, s.given[x]), x);
    } else {
      DeliverKeepsOthers(s, x);
    }
  }

  lemma {:induction false} DeliverUpTo(t: Trace, x: int) returns (t': Trace)
    requires Legal(t) && Unrun(Reached(t), x) && x in Reached(t).inbox
    ensures Legal(t') && GoesOn(t', t) && Calls(Reached(t').ran, x) == 1
    decreases |Reached(t).inbox|
  {
    var calm := Settle(t, x);
    DeliverRuns(Reached(calm), x);
    t' := StepOn(calm, Deliver);
    GoesOnOn(t, calm, t');
    if Reached(calm).inbox[0] != x {
      var next := DeliverUpTo(t', x);
      GoesOnOn(t, t', next);
      t' := next;
    }
  }

  /** No callback waits for good: from every reachable state in which the callback given with a session has
      not run, it can run without any new session: the timer fires or the peer answers, the handlers end,
      and the responses are delivered in turn. */
  lemma CallbackCanRun(t: Trace, x: int) returns (t': Trace)
    requires Legal(t) && Reached(t).count <= SESSION_MAX
    requires x in Reached(t).given && Calls(Reached(t).ran, x) == 0
    ensures Legal(t') && GoesOn(t', t) && Calls(Reached(t').ran, x) == 1
  {
    ReachedOk(t);
    var asked := Respondent(t, x);
    t' := DeliverUpTo(asked, x);
    GoesOnOn(t, asked, t');
  }
}

/** The objects that hold the counter and the tables, with the timer and the queues they call on. */
module SessionObjects {
  import opened Sessions
  import opened Rings
  import opened Queues
  import opened TimingWheel
  import TimerObject

  const PTYPE_RESERVED_CPP: int := 12

  /** `context_t`, for its handle and its session counter. */
  class Context {
    const handle: nat
    var sessionId: int

    ghost predicate Valid() reads this { 0 <= sessionId <= SESSION_MAX }

    constructor (handle: nat)
      ensures Valid() && sessionId == Nth(0) && this.handle == handle
    {
      this.handle := handle;
      sessionId := 0;
    }

    method Newsession() returns (session: int)
      requires Valid()
      modifies this
      ensures Valid() && session == sessionId == NewSession(old(sessionId))
    {
      sessionId := if sessionId == SESSION_MAX then -0x8000_0000 else sessionId + 1;
      if sessionId <= 0 {
        sessionId := 1;
        return 1;
      }
      session := sessionId;
    }
  }

  /** `module_mid_t`, for its two callback tables. A callback is a number; running it is returning it. */
  class ModuleMid {
    var timeoutNodes: map<int, nat>
    var responseCbs: map<int, nat>

    ghost function View(): Tables reads this {
      Tables(responseCbs, timeoutNodes)
    }

    constructor ()
      ensures View() == Tables(map[], map[])
    {
      timeoutNodes, responseCbs := map[], map[];
    }

    /** Takes a session and arms the timer with it: the part of `timeout` before the callback is stored.
        `target` is the queue that the context's handle finds, if any; only a timeout that is not positive
        needs it. */
    static method Arm(ctx: Context, timer: TimerObject.Timer, timeout: int, target: MessageQueue?, global: GlobalQueue)
      returns (id: int)
      requires ctx.Valid() && timer.Valid() && timeout < HALF && Pushable(target, global)
      modifies ctx, timer.near, timer.levels, Fields(target), global, global.items`next
      ensures ctx.Valid() && timer.Valid() && global.Valid()
      ensures ctx.sessionId == NewSession(old(ctx.sessionId))
      ensures id == if timeout > 0 || target != null then ctx.sessionId else -1
      ensures timer.View() ==
        if timeout > 0 then TimerAdd(old(timer.View()), TimingWheel.Request(timeout, ctx.handle, ctx.sessionId))
        else old(timer.View())
      ensures Gained(target, global, if timeout > 0 then [] else [Message(0, ctx.sessionId, 0, 1)])
    {
      id := ctx.Newsession();
      id := timer.Timeout(TimingWheel.Request(timeout, ctx.handle, id), target, global);
    }

    /** Arms the timer and then stores the callback. */
    method Timeout(ctx: Context, timer: TimerObject.Timer, timeout: int, target: MessageQueue?, global: GlobalQueue,
                   cb: nat)
      returns (id: int)
      requires ctx.Valid() && timer.Valid() && timeout < HALF && Pushable(target, global)
      modifies this, ctx, timer.near, timer.levels, Fields(target), global, global.items`next
      ensures ctx.Valid() && timer.Valid() && global.Valid()
      ensures ctx.sessionId == NewSession(old(ctx.sessionId))
      ensures id == if timeout > 0 || target != null then ctx.sessionId else -1
      ensures View() == if id == -1 then old(View()) else old(View()).(timeouts := old(timeoutNodes)[id := cb])
      ensures timer.View() ==
        if timeout > 0 then TimerAdd(old(timer.View()), TimingWheel.Request(timeout, ctx.handle, ctx.sessionId))
        else old(timer.View())
      ensures Gained(target, global, if timeout > 0 then [] else [Message(0, ctx.sessionId, 0, 1)])
      ensures id != -1 && id !in old(responseCbs) ==> Resolve(View(), id).found == Callback(cb)
    {
      id := Arm(ctx, timer, timeout, target, global);
      if id == ctx.sessionId {
        timeoutNodes := timeoutNodes[id := cb];
      }
    }

    /** `target` is the queue that the handle finds at first, if any, and `still` whether `context_push` finds
        it too; the callback stays either way. */
    method SendRequest(ctx: Context, target: MessageQueue?, still: bool, global: GlobalQueue, data: int, cb: nat)
      returns (ok: bool)
      requires ctx.Valid() && Pushable(target, global)
      modifies this, ctx, Fields(target), global, global.items`next
      ensures ctx.Valid() && global.Valid() && ok == (target != null && still)
      ensures ctx.sessionId == if target != null then NewSession(old(ctx.sessionId)) else old(ctx.sessionId)
      ensures View() == if target != null then old(View()).(requests := old(responseCbs)[ctx.sessionId := cb])
                        else old(View())
      ensures Gained(target, global, if still then [Message(ctx.handle, ctx.sessionId, data, 12)] else [])
      ensures target != null ==> Resolve(View(), ctx.sessionId).found == Callback(cb)
    {
      if target == null {
        return false;
      }
      var session := ctx.Newsession();
      responseCbs := responseCbs[session := cb];
      if still {
        target.MqPush(Message(ctx.handle, session, data, PTYPE_RESERVED_CPP), global);
      }
      ok := still;
    }

    method OnResponse(session: int) returns (run: Found)
      modifies this
      ensures Resolution(View(), run) == Resolve(old(View()), session)
      ensures session in old(responseCbs) ==>
                run == Callback(old(responseCbs)[session]) && timeoutNodes == old(timeoutNodes)
    {
      if session in responseCbs {
        run := Callback(responseCbs[session]);
        responseCbs := responseCbs - {session};
      } else if session in timeoutNodes {
        run := Callback(timeoutNodes[session]);
        timeoutNodes := timeoutNodes - {session};
      } else {
        run := NoCallback;
      }
    }
  }
}
