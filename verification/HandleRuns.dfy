/** Whole runs of the handle table, what the written growth does to it, and the name index. */
module HandleRuns {
  import opened Forms
  import opened HandleTable
  import opened HandleTheorems

  datatype History =
    | Start
    | Registering(past: History, context: nat)
    | Retiring(past: History, handle: nat)

  /** A handle given out, and how often a scan had run past 0xffffff by then. */
  datatype Ticket = Ticket(lap: nat, handle: nat)

  /** `live` is the plain partial map, changed only by what the calls return; `issued` is every handle
      given out so far, and `lap` how often a scan that gave one out ran past 0xffffff. `Stopped`: the cap
      was reached. */
  datatype Outcome = Ran(table: Table, live: map<nat, nat>, issued: seq<Ticket>, lap: nat) | Stopped

  /** The table in which a registration finds its slot. */
  function Scanned(form: Form, t: Table): Table
    requires t.Valid()
  {
    if Scan(t.slots, t.index, |t.slots|).At? then t else Table(Grow(form, t.slots), t.index)
  }

  /** Whether a scan goes on past 0xffffff before it meets a free slot. */
  predicate RunsPast(slots: seq<Slot>, h: nat, rounds: nat)
    requires 0 < |slots|
    decreases rounds
  {
    0 < rounds && (h > HANDLE_MASK || (slots[Hash(h, |slots|)].Used? && RunsPast(slots, h + 1, rounds - 1)))
  }

  function Step(form: Form, harbor: nat, o: Outcome, context: nat): Outcome
    requires o.Ran? && o.table.Valid()
  {
    match Register(form, o.table, context, harbor)
    case Full => Stopped
    case Registered(h, t) =>
      var g := Scanned(form, o.table);
      var lap := if |g.slots| > 0 && RunsPast(g.slots, g.index, |g.slots|) then o.lap + 1 else o.lap;
      Ran(t, o.live[h := context], o.issued + [Ticket(lap, h)], lap)
  }

  function Run(form: Form, harbor: nat, h: History): (o: Outcome)
    ensures o.Ran? ==> o.table.Valid()
  {
    match h
    case Start => Ran(Fresh(), map[], [], 0)
    case Registering(past, context) =>
      var o := Run(form, harbor, past);
      if o.Stopped? then Stopped
      else
        StepIsValid(form, harbor, o, context);
        Step(form, harbor, o, context)
    case Retiring(past, handle) =>
      var o := Run(form, harbor, past);
      if o.Stopped? then Stopped
      else
        var (done, t) := Retire(o.table, handle);
        o.(table := t, live := if done then o.live - {handle} else o.live)
  }

  lemma StepIsValid(form: Form, harbor: nat, o: Outcome, context: nat)
    requires o.Ran? && o.table.Valid()
    ensures Step(form, harbor, o, context).Ran? ==> Step(form, harbor, o, context).table.Valid()
  {
    if Step(form, harbor, o, context).Ran? { RegisterPlaces(form, o.table, context, harbor); }
  }

  lemma RegisterIsInsert(t: Table, live: map<nat, nat>, context: nat, harbor: nat)
    requires Represents(t, live) && Register(Repaired, t, context, harbor).Registered?
    ensures var r := Register(Repaired, t, context, harbor);
      && r.handle !in live && 0 < Low(r.handle) && r.handle / 0x100_0000 == harbor
      && Represents(r.table, live[r.handle := context])
  {
    RegisterPlaces(Repaired, t, context, harbor);
    if Scan(t.slots, t.index, |t.slots|).At? {
      PlaceIsInsert(t, live, context, Scan(t.slots, t.index, |t.slots|).handle, harbor);
    } else {
      RepairedGrowthKeeps(t, live);
      var g := Table(Grow(Repaired, t.slots), t.index);
      PlaceIsInsert(g, live, context, Scan(g.slots, g.index, |g.slots|).handle, harbor);
    }
  }

  /** Repaired, the table refines a plain partial map over every run of registrations and retirements:
      `grab` looks a handle up in the map of the live ones, and no registration returns a live handle. */
  lemma {:induction false} RefinesPartialMap(harbor: nat, h: History)
    ensures var o := Run(Repaired, harbor, h);
      o.Ran? ==>
        && Represents(o.table, o.live)
        && forall x :: Grab(o.table, x) == if x in o.live then At(o.live[x]) else Nowhere
  {
    match h
    case Start =>
    case Registering(past, context) =>
      RefinesPartialMap(harbor, past);
      var o := Run(Repaired, harbor, past);
      if o.Ran? && Step(Repaired, harbor, o, context).Ran? {
        RegisterIsInsert(o.table, o.live, context, harbor);
      }
    case Retiring(past, handle) =>
      RefinesPartialMap(harbor, past);
      var o := Run(Repaired, harbor, past);
      if o.Ran? { RetireIsRemove(o.table, o.live, handle); }
  }

  /** A registration gives out the first free handle from the index on, in the table it scanned last, and
      leaves the index just after it. */
  lemma RegisterTakesFirst(form: Form, t: Table, context: nat, harbor: nat)
    requires t.Valid() && Register(form, t, context, harbor).Registered?
    ensures var r, g := Register(form, t, context, harbor), Scanned(form, t);
      && 0 < |g.slots| && FirstFree(g.slots, t.index, Low(r.handle))
      && r.table.index == Low(r.handle) + 1
  {
    RegisterPlaces(form, t, context, harbor);
    var g := Scanned(form, t);
    ScanIsFirst(g.slots, g.index, |g.slots|);
    LowOfPlaced(Scan(g.slots, g.index, |g.slots|).handle, harbor);
  }

  lemma RegisterHasHarbor(form: Form, t: Table, context: nat, harbor: nat)
    requires t.Valid() && Register(form, t, context, harbor).Registered?
    ensures Register(form, t, context, harbor).handle / 0x100_0000 == harbor
  {
    RegisterPlaces(form, t, context, harbor);
    var g := Scanned(form, t);
    HarborOfPlaced(Scan(g.slots, g.index, |g.slots|).handle, harbor);
  }

  predicate AtHarbor(handle: nat, harbor: nat) {
    handle / 0x100_0000 == harbor
  }

  /** Every handle given out, and every live one, has the harbor above bit 24. */
  ghost predicate HasHarbor(o: Outcome, harbor: nat) {
    o.Ran? ==>
      && (forall i :: 0 <= i < |o.issued| ==> AtHarbor(o.issued[i].handle, harbor))
      && (forall x <- o.live :: AtHarbor(x, harbor))
  }

  lemma StepHasHarbor(form: Form, harbor: nat, o: Outcome, context: nat)
    requires o.Ran? && o.table.Valid() && HasHarbor(o, harbor)
    ensures HasHarbor(Step(form, harbor, o, context), harbor)
  {
    match Register(form, o.table, context, harbor)
    case Full =>
    case Registered(h, _) =>
      RegisterHasHarbor(form, o.table, context, harbor);
      assert AtHarbor(h, harbor);
  }

  /** In either form, over every run, every handle has the harbor of its table. */
  lemma {:induction false} HandlesHaveHarbor(form: Form, harbor: nat, h: History)
    ensures HasHarbor(Run(form, harbor, h), harbor)
  {
    match h
    case Start =>
    case Registering(past, context) =>
      HandlesHaveHarbor(form, harbor, past);
      if Run(form, harbor, past).Ran? { StepHasHarbor(form, harbor, Run(form, harbor, past), context); }
    case Retiring(past, _) => HandlesHaveHarbor(form, harbor, past);
  }

  /** Handles of tables with different harbors are never equal. */
  lemma HarborsApart(form: Form, a: nat, b: nat, h: History, k: History, i: nat, j: nat)
    requires a != b && Run(form, a, h).Ran? && Run(form, b, k).Ran?
    requires i < |Run(form, a, h).issued| && j < |Run(form, b, k).issued|
    ensures Run(form, a, h).issued[i].handle != Run(form, b, k).issued[j].handle
  {
    HandlesHaveHarbor(form, a, h);
    HandlesHaveHarbor(form, b, k);
    assert AtHarbor(Run(form, a, h).issued[i].handle, a) && AtHarbor(Run(form, b, k).issued[j].handle, b);
  }

  /** A scan that does not run past 0xffffff comes out at or above the index. */
  lemma {:induction false} ScanGoesUp(slots: seq<Slot>, h: nat, rounds: nat)
    requires 0 < |slots| && 0 < h && Scan(slots, h, rounds).At? && !RunsPast(slots, h, rounds)
    ensures Scan(slots, h, rounds).handle >= h
    decreases rounds
  {
    if !slots[Hash(h, |slots|)].Vacant? { ScanGoesUp(slots, h + 1, rounds - 1); }
  }

  lemma {:induction false} ScanStaysBelow(slots: seq<Slot>, h: nat, rounds: nat)
    requires 0 < |slots| && h + rounds <= HANDLE_MASK + 1
    ensures !RunsPast(slots, h, rounds)
    decreases rounds
  {
    if rounds > 0 { ScanStaysBelow(slots, h + 1, rounds - 1); }
  }

  /** Every handle is nonzero, and later handles are greater, or issued in a later lap. */
  ghost predicate Ascending(issued: seq<Ticket>, lap: nat, bound: nat) {
    && (forall i, j :: 0 <= i < j < |issued| ==>
          || issued[i].lap < issued[j].lap
          || (issued[i].lap == issued[j].lap && Low(issued[i].handle) < Low(issued[j].handle)))
    && (forall i :: 0 <= i < |issued| ==>
          && 0 < Low(issued[i].handle)
          && (issued[i].lap < lap || (issued[i].lap == lap && Low(issued[i].handle) < bound)))
  }

  lemma TicketAscends(issued: seq<Ticket>, lap: nat, bound: nat, ticket: Ticket)
    requires Ascending(issued, lap, bound) && 0 < Low(ticket.handle)
    requires lap < ticket.lap || (lap == ticket.lap && bound <= Low(ticket.handle))
    ensures Ascending(issued + [ticket], ticket.lap, Low(ticket.handle) + 1)
  {}

  /** A registration as seen from the table it scanned last. */
  ghost predicate Issues(o: Outcome, r: Outcome, g: Table) {
    && o.Ran? && r.Ran? && g.Valid() && g.index == o.table.index
    && var found := Scan(g.slots, g.index, |g.slots|);
    && found.At?
    && r.table.index == found.handle + 1
    && r.lap == (if RunsPast(g.slots, g.index, |g.slots|) then o.lap + 1 else o.lap)
    && |r.issued| == |o.issued| + 1 && r.issued[..|o.issued|] == o.issued
    && var last := r.issued[|o.issued|]; last.lap == r.lap && Low(last.handle) == found.handle
  }

  lemma StepIssues(form: Form, harbor: nat, o: Outcome, context: nat)
    requires o.Ran? && o.table.Valid() && Step(form, harbor, o, context).Ran?
    ensures Issues(o, Step(form, harbor, o, context), Scanned(form, o.table))
  {
    var g := Scanned(form, o.table);
    RegisterPlaces(form, o.table, context, harbor);
    LowOfPlaced(Scan(g.slots, g.index, |g.slots|).handle, harbor);
  }

  lemma IssuesAscends(o: Outcome, r: Outcome, g: Table)
    requires Issues(o, r, g) && Ascending(o.issued, o.lap, o.table.index)
    ensures Ascending(r.issued, r.lap, r.table.index)
  {
    if !RunsPast(g.slots, g.index, |g.slots|) { ScanGoesUp(g.slots, g.index, |g.slots|); }
    TicketAscends(o.issued, o.lap, o.table.index, r.issued[|o.issued|]);
    assert r.issued == o.issued + [r.issued[|o.issued|]];
  }

  function Registrations(h: History): nat {
    match h
    case Start => 0
    case Registering(past, _) => Registrations(past) + 1
    case Retiring(past, _) => Registrations(past)
  }

  /** In either form, over every run: each registration issues one handle, never 0 below the harbor bits,
      and a handle issued again is issued in a later lap, after a scan has run past 0xffffff. */
  lemma {:induction false} NoReissue(form: Form, harbor: nat, h: History)
    ensures var o := Run(form, harbor, h);
      o.Ran? ==> |o.issued| == Registrations(h) && Ascending(o.issued, o.lap, o.table.index)
  {
    match h
    case Start =>
    case Registering(past, context) =>
      NoReissue(form, harbor, past);
      var o := Run(form, harbor, past);
      if o.Ran? && Step(form, harbor, o, context).Ran? {
        StepIssues(form, harbor, o, context);
        IssuesAscends(o, Step(form, harbor, o, context), Scanned(form, o.table));
      }
    case Retiring(past, _) => NoReissue(form, harbor, past);
  }

  /** Each registration of the run had twice the table's size of handles left below 2^24. */
  ghost predicate RoomAhead(form: Form, harbor: nat, h: History) {
    match h
    case Start => true
    case Registering(past, _) =>
      RoomAhead(form, harbor, past) &&
      var o := Run(form, harbor, past);
      o.Ran? ==> o.table.index + 2 * |o.table.slots| <= HANDLE_MASK + 1
    case Retiring(past, _) => RoomAhead(form, harbor, past)
  }

  lemma {:induction false} FirstLap(form: Form, harbor: nat, h: History)
    requires RoomAhead(form, harbor, h) && Run(form, harbor, h).Ran?
    ensures Run(form, harbor, h).lap == 0
  {
    match h
    case Start =>
    case Registering(past, context) =>
      FirstLap(form, harbor, past);
      var t := Run(form, harbor, past).table;
      var g := Scanned(form, t);
      ScanStaysBelow(g.slots, g.index, |g.slots|);
    case Retiring(past, _) => FirstLap(form, harbor, past);
  }

  /** So in a run in which every registration meets room ahead, the handles issued are strictly
      increasing, one for each registration. */
  lemma NoReissueBeforeWrap(form: Form, harbor: nat, h: History)
    requires RoomAhead(form, harbor, h) && Run(form, harbor, h).Ran?
    ensures var s := Run(form, harbor, h).issued;
      && |s| == Registrations(h)
      && forall i, j :: 0 <= i < j < |s| ==> Low(s[i].handle) < Low(s[j].handle)
  {
    NoReissue(form, harbor, h);
    FirstLap(form, harbor, h);
  }

  /** As written, a live handle is still found after growth from n to 2n exactly when `h & n` is 0. */
  lemma WrittenGrowthGrab(t: Table, live: map<nat, nat>, h: nat)
    requires Represents(t, live) && 2 * |t.slots| - 1 <= HANDLE_MASK && h in live
    ensures var g := Table(Grow(Written, t.slots), t.index);
      g.Valid() && (Grab(g, h) == At(live[h]) <==> Low(h) % (2 * |t.slots|) < |t.slots|)
  {
    GrownIsValid(Written, t);
    HalfOf(Low(h), |t.slots|);
  }

  lemma WrittenGrowthExact(t: Table, live: map<nat, nat>)
    requires Represents(t, live) && 2 * |t.slots| - 1 <= HANDLE_MASK
    ensures Represents(Table(Grow(Written, t.slots), t.index), live)
            <==> forall h <- live :: Low(h) % (2 * |t.slots|) < |t.slots|
  {
    var n, g := |t.slots|, Table(Grow(Written, t.slots), t.index);
    GrownIsValid(Written, t);
    forall h <- live ensures Hash(h, 2 * n) == Hash(h, n) <==> Low(h) % (2 * n) < n { HalfOf(Low(h), n); }
    forall h | h in live && Represents(g, live) ensures Low(h) % (2 * n) < n {
      WrittenGrowthGrab(t, live, h);
      GrabIsLookup(g, live, h);
    }
  }

  /** As written, a registration keeps the table in step with the partial map exactly when it finds a
      free slot without growing, or every live handle has `h & n` equal to 0. */
  lemma WrittenRegisterExact(t: Table, live: map<nat, nat>, context: nat, harbor: nat)
    requires Represents(t, live) && Register(Written, t, context, harbor).Registered?
    ensures var r := Register(Written, t, context, harbor);
      Represents(r.table, live[r.handle := context])
      <==> Scan(t.slots, t.index, |t.slots|).At? || forall h <- live :: Low(h) % (2 * |t.slots|) < |t.slots|
  {
    var n := |t.slots|;
    RegisterGrowsOnce(Written, t, context, harbor);
    RegisterPlaces(Written, t, context, harbor);
    if Scan(t.slots, t.index, n).At? {
      PlaceIsInsert(t, live, context, Scan(t.slots, t.index, n).handle, harbor);
    } else {
      var g := Table(Grow(Written, t.slots), t.index);
      var f := Scan(g.slots, g.index, |g.slots|).handle;
      WrittenGrowthExact(t, live);
      if Represents(g, live) {
        PlaceIsInsert(g, live, context, f, harbor);
      } else {
        var h :| h in live && Low(h) % (2 * n) >= n;
        HalfOf(Low(h), n);
        var r := Place(g, context, f, harbor);
        assert r.table.slots[Hash(h, n)] == t.slots[Hash(h, n)];
      }
    }
  }

  // ----- The written growth over whole runs -----

  /** An entry is in a slot that is not the one of its handle. */
  ghost predicate Stale(t: Table) {
    t.Valid() && exists k :: 0 <= k < |t.slots| && Misplaced(t, k)
  }

  ghost predicate Misplaced(t: Table, k: nat)
    requires t.Valid() && k < |t.slots|
  {
    t.slots[k].Used? && Hash(t.slots[k].entry.handle, |t.slots|) != k
  }

  /** A registration that grows the table although some live handle h has `h & n`. */
  ghost predicate LosesOne(t: Table, live: map<nat, nat>)
    requires t.Valid()
  {
    !HasFree(t) && exists h :: h in live && HasBit(h, |t.slots|)
  }

  /** `h & n`, for a power of two n. */
  predicate HasBit(h: nat, n: nat)
    requires 0 < n
  {
    Low(h) % (2 * n) >= n
  }

  /** No registration of the run was such a one. */
  ghost predicate NeverLoses(harbor: nat, h: History) {
    match h
    case Start => true
    case Registering(past, _) =>
      NeverLoses(harbor, past) &&
      var o := Run(Written, harbor, past);
      o.Ran? ==> !LosesOne(o.table, o.live)
    case Retiring(past, _) => NeverLoses(harbor, past)
  }

  lemma StaleGrows(t: Table)
    requires Stale(t) && 2 * |t.slots| - 1 <= HANDLE_MASK
    ensures Stale(Table(Grow(Written, t.slots), t.index))
  {
    var n, g := |t.slots|, Table(Grow(Written, t.slots), t.index);
    GrownIsValid(Written, t);
    var k :| 0 <= k < n && Misplaced(t, k);
    HalfOf(Low(t.slots[k].entry.handle), n);
    SmallMod(k, n);
    assert Misplaced(g, k);
  }

  /** A misplaced entry survives every registration. */
  lemma StaleRegisters(t: Table, context: nat, harbor: nat)
    requires Stale(t) && Register(Written, t, context, harbor).Registered?
    ensures Stale(Register(Written, t, context, harbor).table)
  {
    var g := Scanned(Written, t);
    RegisterGrowsOnce(Written, t, context, harbor);
    RegisterPlaces(Written, t, context, harbor);
    if g != t { StaleGrows(t); }
    var k :| 0 <= k < |g.slots| && Misplaced(g, k);
    assert Misplaced(Register(Written, t, context, harbor).table, k);
  }

  lemma StaleRetires(t: Table, handle: nat)
    requires Stale(t)
    ensures Stale(Retire(t, handle).1)
  {
    var k :| 0 <= k < |t.slots| && Misplaced(t, k);
    assert Misplaced(Retire(t, handle).1, k);
  }

  /** The registration that loses a handle leaves its entry misplaced. */
  lemma LossIsStale(t: Table, live: map<nat, nat>, context: nat, harbor: nat)
    requires Represents(t, live) && LosesOne(t, live) && Register(Written, t, context, harbor).Registered?
    ensures Stale(Register(Written, t, context, harbor).table)
  {
    var n, g := |t.slots|, Scanned(Written, t);
    ScanFindsExact(t);
    RegisterGrowsOnce(Written, t, context, harbor);
    RegisterPlaces(Written, t, context, harbor);
    var h :| h in live && HasBit(h, n);
    HalfOf(Low(h), n);
    assert Misplaced(Register(Written, t, context, harbor).table, Hash(h, n));
  }

  lemma StaleIsNot(t: Table, live: map<nat, nat>)
    requires Stale(t)
    ensures !Represents(t, live)
  {}

  lemma HarmlessRegisters(t: Table, live: map<nat, nat>, context: nat, harbor: nat)
    requires Represents(t, live) && !LosesOne(t, live) && Register(Written, t, context, harbor).Registered?
    ensures var r := Register(Written, t, context, harbor); Represents(r.table, live[r.handle := context])
  {
    ScanFindsExact(t);
    assert !HasFree(t) ==> forall h <- live :: !HasBit(h, |t.slots|);
    WrittenRegisterExact(t, live, context, harbor);
  }

  /** As written, the table refines the partial map at the end of a run exactly when no registration of
      the run grew it, from n to 2n, while some live handle h had `h & n`. */
  lemma WrittenRunsExact(harbor: nat, h: History)
    requires Run(Written, harbor, h).Ran?
    ensures var o := Run(Written, harbor, h); Represents(o.table, o.live) <==> NeverLoses(harbor, h)
  {
    WrittenRunLeaves(harbor, h);
    var o := Run(Written, harbor, h);
    if !NeverLoses(harbor, h) { StaleIsNot(o.table, o.live); }
  }

  lemma {:induction false} WrittenRunLeaves(harbor: nat, h: History)
    requires Run(Written, harbor, h).Ran?
    ensures var o := Run(Written, harbor, h);
      if NeverLoses(harbor, h) then Represents(o.table, o.live) else Stale(o.table)
  {
    match h
    case Start =>
    case Registering(past, context) =>
      WrittenRunLeaves(harbor, past);
      var o := Run(Written, harbor, past);
      if !NeverLoses(harbor, past) {
        StaleRegisters(o.table, context, harbor);
      } else if LosesOne(o.table, o.live) {
        LossIsStale(o.table, o.live, context, harbor);
      } else {
        HarmlessRegisters(o.table, o.live, context, harbor);
      }
    case Retiring(past, handle) =>
      WrittenRunLeaves(harbor, past);
      var o := Run(Written, harbor, past);
      if NeverLoses(harbor, past) {
        RetireIsRemove(o.table, o.live, handle);
      } else {
        StaleRetires(o.table, handle);
      }
  }

  /** Four registrations. */
  function FourMore(past: History): History {
    Registering(Registering(Registering(Registering(past, 1), 2), 3), 4)
  }

  lemma RegisterAtIndex(form: Form, t: Table, context: nat, harbor: nat)
    requires t.Valid() && t.index <= HANDLE_MASK && t.slots[Hash(t.index, |t.slots|)].Vacant?
    ensures Register(form, t, context, harbor) == Place(t, context, t.index, harbor)
  {}

  /** The table full of handles 1 to 4. */
  function FullTable(): (t: Table)
    ensures t.Valid()
  {
    Table([Used(Entry(4, 4)), Used(Entry(1, 1)), Used(Entry(2, 2)), Used(Entry(3, 3))], 5)
  }

  /** A registration that finds the slot of the index free, in a table of four. */
  lemma OneMore(past: History, context: nat, slots: seq<Slot>, live: map<nat, nat>)
    requires |slots| == 4 && 0 < context <= 4 && slots[context % 4].Vacant?
    requires var o := Run(Written, 0, past); o.Ran? && o.table == Table(slots, context) && o.live == live
    ensures var o := Run(Written, 0, Registering(past, context));
      o.Ran? && o.table == Table(slots[context % 4 := Used(Entry(context, context))], context + 1)
      && o.live == live[context := context]
  {
    SmallMod(context, HARBOR_UNIT);
    RegisterAtIndex(Written, Table(slots, context), context, 0);
  }

  lemma FirstFour(past: History)
    requires past.Start?
    ensures var o := Run(Written, 0, FourMore(past));
      o.Ran? && o.live == map[1 := 1, 2 := 2, 3 := 3, 4 := 4] && o.table == FullTable()
  {
    var h1 := Registering(past, 1);
    var h2 := Registering(h1, 2);
    var h3 := Registering(h2, 3);
    var e1, e2, e3 := Used(Entry(1, 1)), Used(Entry(2, 2)), Used(Entry(3, 3));
    OneMore(past, 1, [Vacant, Vacant, Vacant, Vacant], map[]);
    OneMore(h1, 2, [Vacant, e1, Vacant, Vacant], map[1 := 1]);
    OneMore(h2, 3, [Vacant, e1, e2, Vacant], map[1 := 1, 2 := 2]);
    OneMore(h3, 4, [Vacant, e1, e2, e3], map[1 := 1, 2 := 2, 3 := 3]);
  }

  lemma FifthRegisters()
    ensures var r := Register(Written, FullTable(), 5, 0);
      r.Registered? && r.handle == 5 && r.table.Valid() && Grab(r.table, 4) == Nowhere
  {
    var t := FullTable();
    ScanFindsExact(t);
    var g := Table(Grow(Written, t.slots), 5);
    GrownIsValid(Written, t);
    RegisterAtIndex(Written, g, 5, 0);
  }

  /** The smallest loss: as written, the fifth registration of the table makes handle 4 unknown, though
      nobody retired it. */
  lemma FifthRegistrationLosesFour()
    ensures var before, after := Run(Written, 0, FourMore(Start)), Run(Written, 0, Registering(FourMore(Start), 5));
      && before.Ran? && Grab(before.table, 4) == At(4)
      && after.Ran? && 4 in after.live && Grab(after.table, 4) == Nowhere
  {
    FirstFour(Start);
    FifthRegisters();
    var o := Run(Written, 0, FourMore(Start));
    assert Run(Written, 0, Registering(FourMore(Start), 5)) == Step(Written, 0, o, 5);
  }
}
