/** `handle_storage_t`: the direct-mapped handle table, as a value, and the partial map it stands for. */
module HandleTable {
  import opened Forms
  import opened Doubling

  const HANDLE_MASK: nat := 0xff_ffff
  const HARBOR_UNIT: nat := 0x100_0000  // 1 << HANDLE_REMOTE_SHIFT

  /** A handle without its harbor bits. */
  function Low(handle: nat): nat { handle % HARBOR_UNIT }

  /** `handle & (slot.size() - 1)`: the size is a power of two that divides 2^24, so the harbor bits
      never matter (`HashIsMask`). */
  function Hash(handle: nat, size: nat): (k: nat)
    requires 0 < size
    ensures k < size
  {
    Low(handle) % size
  }

  /** A registered context: `handle` is the one it was given, harbor bits included. */
  datatype Entry = Entry(context: nat, handle: nat)

  datatype Slot = Vacant | Used(entry: Entry)

  /** `size` is four doubled some number of times. */
  ghost predicate TableSize(size: nat) { Doubled(4, size) }

  datatype Table = Table(slots: seq<Slot>, index: nat) {
    ghost predicate Valid() {
      TableSize(|slots|) && 4 <= |slots| <= HANDLE_MASK + 1 && 0 < index <= HANDLE_MASK + 1
    }
  }

  function Fresh(): (t: Table)
    ensures t.Valid()
  {
    Table([Vacant, Vacant, Vacant, Vacant], 1)
  }

  /** `handle_t`: `check_range`, and what the post-increment leaves. */
  function InRange(h: nat): (r: nat)
    ensures h > 0 ==> 0 < r <= HANDLE_MASK
  {
    if h > HANDLE_MASK then 1 else h
  }

  /** The first free slot met by `rounds` rounds from handle `h`. */
  datatype Found = Nowhere | At(handle: nat)

  function Scan(slots: seq<Slot>, h: nat, rounds: nat): (f: Found)
    requires 0 < |slots| && 0 < h
    ensures f.At? ==> 0 < f.handle <= HANDLE_MASK && slots[Hash(f.handle, |slots|)].Vacant?
    decreases rounds
  {
    if rounds == 0 then Nowhere
    else if slots[Hash(InRange(h), |slots|)].Vacant? then At(InRange(h))
    else Scan(slots, InRange(h) + 1, rounds - 1)
  }

  /** Where growth leaves the entries of a table of size n in one of size 2n. As written it only makes the
      table longer; repaired, it puts each entry where its handle belongs. */
  function Grow(form: Form, slots: seq<Slot>): (r: seq<Slot>)
    ensures |r| == 2 * |slots|
  {
    match form
    case Written => slots + seq(|slots|, _ => Vacant)
    case Repaired =>
      seq(2 * |slots|, k requires 0 <= k < 2 * |slots| =>
        var s := slots[k % |slots|];
        if s.Used? && Hash(s.entry.handle, 2 * |slots|) == k then s else Vacant)
  }

  /** `Full`: the assertion on the size cap fails. */
  datatype Registered = Full | Registered(handle: nat, table: Table)

  function Place(t: Table, context: nat, h: nat, harbor: nat): Registered
    requires t.Valid() && 0 < h <= HANDLE_MASK
  {
    Registered(h + harbor * HARBOR_UNIT,
               Table(t.slots[Hash(h, |t.slots|) := Used(Entry(context, h + harbor * HARBOR_UNIT))], h + 1))
  }

  /** `handle_register`: scan, and while nothing is free, grow and scan again. */
  function Register(form: Form, t: Table, context: nat, harbor: nat): (r: Registered)
    requires t.Valid()
    decreases HANDLE_MASK + 1 - |t.slots|
  {
    match Scan(t.slots, t.index, |t.slots|)
    case At(h) => Place(t, context, h, harbor)
    case Nowhere =>
      if 2 * |t.slots| - 1 > HANDLE_MASK then Full
      else
        GrownIsValid(form, t);
        Register(form, Table(Grow(form, t.slots), t.index), context, harbor)
  }

  lemma GrownIsValid(form: Form, t: Table)
    requires t.Valid() && 2 * |t.slots| - 1 <= HANDLE_MASK
    ensures Table(Grow(form, t.slots), t.index).Valid()
  {
    DoubledAgain(4, |t.slots|);
  }

  function Retire(t: Table, handle: nat): (bool, Table)
    requires t.Valid()
  {
    var k := Hash(handle, |t.slots|);
    if t.slots[k].Used? && t.slots[k].entry.handle == handle
    then (true, t.(slots := t.slots[k := Vacant]))
    else (false, t)
  }

  /** `handle_grab`: the context, if any. */
  function Grab(t: Table, handle: nat): Found
    requires t.Valid()
  {
    var s := t.slots[Hash(handle, |t.slots|)];
    if s.Used? && s.entry.handle == handle then At(s.entry.context) else Nowhere
  }
}

module HandleTheorems {
  import opened Forms
  import opened Doubling
  import opened HandleTable

  /** The table stands for `live`: each live handle is at its own slot with its context, and every slot
      in use belongs to a live handle. */
  ghost predicate Represents(t: Table, live: map<nat, nat>) {
    && t.Valid()
    && (forall h <- live :: 0 < Low(h) && t.slots[Hash(h, |t.slots|)] == Used(Entry(live[h], h)))
    && (forall k | 0 <= k < |t.slots| && t.slots[k].Used? ::
          t.slots[k].entry.handle in live && Hash(t.slots[k].entry.handle, |t.slots|) == k)
  }

  /** `grab` is the lookup of the partial map. */
  lemma GrabIsLookup(t: Table, live: map<nat, nat>, h: nat)
    requires Represents(t, live)
    ensures Grab(t, h) == if h in live then At(live[h]) else Nowhere
  {}

  lemma RetireIsRemove(t: Table, live: map<nat, nat>, h: nat)
    requires Represents(t, live)
    ensures Retire(t, h).0 <==> h in live
    ensures Represents(Retire(t, h).1, live - {h})
  {}

  lemma {:induction false} TwiceIsMultiple(base: nat, n: nat) returns (q: nat)
    ensures Twice(base, n) == q * base && 0 < q
  {
    if n == 0 {
      q := 1;
    } else {
      var p := TwiceIsMultiple(base, n - 1);
      q := 2 * p;
    }
  }

  /** Every table size divides 2^24. */
  lemma SizeDivides(size: nat) returns (q: nat)
    requires TableSize(size) && size <= HARBOR_UNIT
    ensures HARBOR_UNIT == q * size && 0 < q
  {
    var k := OrderOf(4, size);
    TwentyTwo();
    OrderBound(k);
    TwiceSum(4, k, 22 - k);
    q := TwiceIsMultiple(size, 22 - k);
  }

  lemma {:induction false} OrderBound(k: nat)
    requires Twice(4, k) <= HARBOR_UNIT
    ensures k <= 22
    decreases k
  {
    TwentyTwo();
    if k > 23 { OrderBound(k - 1); }
  }

  lemma TwentyTwo()
    ensures Twice(4, 22) == HARBOR_UNIT
  {
    assert Twice(4, 8) == 1024;
    TwiceSum(4, 8, 8);
    assert Twice(1024, 8) == 0x4_0000;
    TwiceSum(4, 16, 6);
    assert Twice(0x4_0000, 6) == 0x100_0000;
  }

  /** Some handle below the mask has residue `r` and is met within `size` rounds from `h`, even if the
      scan wraps from 0xffffff to 1; only residue 0 can be skipped. */
  lemma ResidueMet(h: nat, size: nat, r: nat) returns (target: nat, d: nat)
    requires 0 < h <= HANDLE_MASK && TableSize(size) && 4 <= size <= HARBOR_UNIT && 0 < r < size
    ensures 0 < target <= HANDLE_MASK && target % size == r && d < size
    ensures d == if h <= target then target - h else HANDLE_MASK - h + target
  {
    var q := SizeDivides(size);
    var a := Offset(r - h, size);
    d := (r - h) % size;
    target := h + d;
    var sa, sq := size * a, size * q;
    assert target == r + sa;
    QuotientAtLeast(size, r, a, 0);
    if target > HANDLE_MASK {
      assert sq == HARBOR_UNIT;
      QuotientAtLeast(size, r, a, q);
      Scale(size, q, a);
      target := r;
      d := HANDLE_MASK - h + r;
      SmallMod(r, size);
    } else {
      ModOf(target, size, a, r);
    }
  }

  lemma SmallMod(r: nat, m: nat)
    requires r < m
    ensures r % m == r
  {}

  lemma Offset(x: int, m: nat) returns (a: int)
    requires 0 < m
    ensures x % m - x == m * a && 0 <= x % m < m
  {
    a := -(x / m);
    Euclid(x, m);
  }

  lemma QuotientAtLeast(m: nat, r: nat, a: int, q: int)
    requires r < m && m * q <= r + m * a
    ensures q <= a
  {
    if a < q {
      Scale(m, a, q - 1);
      OneLess(m, q);
    }
  }

  lemma OneLess(m: nat, q: int)
    ensures m * (q - 1) == m * q - m
  {}

  lemma Euclid(x: int, m: nat)
    requires 0 < m
    ensures x == m * (x / m) + x % m && m * (-(x / m)) == -(m * (x / m))
  {}

  lemma Scale(m: nat, a: int, b: int)
    requires a <= b
    ensures m * a <= m * b
  {}

  lemma ModOf(x: nat, m: nat, a: nat, r: nat)
    requires 0 < m && r < m && x == r + m * a
    ensures x % m == r
  {
    var d := x / m - a;
    Euclid(x, m);
    assert m * d == m * (x / m) - m * a;
    if d > 0 { Scale(m, 1, d); } else if d < 0 { Scale(m, d, -1); }
  }

  /** The harbor bits never reach the mask: taking them off first changes no slot. */
  lemma HashIsMask(handle: nat, size: nat)
    requires TableSize(size) && size <= HARBOR_UNIT
    ensures Hash(handle, size) == handle % size
  {
    var k := OrderOf(4, size);
    TwentyTwo();
    OrderBound(k);
    TwiceSum(4, k, 22 - k);
    ModOfTwice(handle, size, 22 - k, HARBOR_UNIT, Low(handle));
  }

  lemma {:induction false} ModOfTwice(x: nat, m: nat, n: nat, big: nat, y: nat)
    requires 0 < m && big == Twice(m, n) && y == x % big
    ensures y % m == x % m
    decreases n
  {
    if n == 0 {
      SmallMod(y, m);
    } else {
      var half := Twice(m, n - 1);
      var z, z' := x % half, y % half;
      assert z' == z by { HalfOf(x, half); }
      ModOfTwice(x, m, n - 1, half, z);
      ModOfTwice(y, m, n - 1, half, z');
    }
  }

  /** A free slot `d` handles ahead is found within `rounds` rounds. */
  lemma {:induction false} ScanMeets(slots: seq<Slot>, h: nat, rounds: nat, target: nat)
    requires 0 < |slots| && 0 < h <= HANDLE_MASK + 1 && 0 < target <= HANDLE_MASK
    requires slots[Hash(target, |slots|)].Vacant?
    requires var g := InRange(h); (if g <= target then target - g else HANDLE_MASK - g + target) < rounds
    ensures Scan(slots, h, rounds).At?
    decreases rounds
  {
    if !slots[Hash(InRange(h), |slots|)].Vacant? {
      ScanMeets(slots, InRange(h) + 1, rounds - 1, target);
    }
  }

  /** A full scan finds any free slot but perhaps the one of residue 0. */
  lemma ScanFinds(t: Table, r: nat)
    requires t.Valid() && 0 < r < |t.slots| && t.slots[r].Vacant?
    ensures Scan(t.slots, t.index, |t.slots|).At?
  {
    var target, d := ResidueMet(InRange(t.index), |t.slots|, r);
    SmallMod(target, HARBOR_UNIT);
    ScanMeets(t.slots, t.index, |t.slots|, target);
  }

  /** Growth leaves a free slot of nonzero residue: of the two places that an entry of slot 1 could
      have, at most one is taken. */
  lemma GrownHasRoom(form: Form, slots: seq<Slot>) returns (r: nat)
    requires 4 <= |slots|
    ensures 0 < r < 2 * |slots| && Grow(form, slots)[r].Vacant?
  {
    var n := |slots|;
    assert (n + 1) % n == 1 && 1 % n == 1;
    r := if form.Written? then n else if Grow(form, slots)[1].Vacant? then 1 else n + 1;
  }

  lemma GrownIsFound(form: Form, t: Table)
    requires t.Valid() && 2 * |t.slots| - 1 <= HANDLE_MASK
    ensures Scan(Grow(form, t.slots), t.index, 2 * |t.slots|).At?
  {
    GrownIsValid(form, t);
    var r := GrownHasRoom(form, t.slots);
    ScanFinds(Table(Grow(form, t.slots), t.index), r);
  }

  /** A registration that meets no free slot grows the table once, or fails if it may not grow. */
  lemma RegisterGrowsOnce(form: Form, t: Table, context: nat, harbor: nat)
    requires t.Valid()
    ensures var r, n, found := Register(form, t, context, harbor), |t.slots|, Scan(t.slots, t.index, |t.slots|).At?;
      && (r.Full? <==> !found && 2 * n - 1 > HANDLE_MASK)
      && (r.Registered? ==> |r.table.slots| == if found then n else 2 * n)
  {
    var n := |t.slots|;
    if Scan(t.slots, t.index, n).Nowhere? && 2 * n - 1 <= HANDLE_MASK {
      GrownIsFound(form, t);
      GrownIsValid(form, t);
      var g := Table(Grow(form, t.slots), t.index);
      assert Register(form, t, context, harbor) == Register(form, g, context, harbor);
    }
  }

  /** How far a scan gets: fewer than `rounds` handles ahead, counting past 0xffffff on from 1. */
  lemma {:induction false} ScanReach(slots: seq<Slot>, h: nat, rounds: nat)
    requires 0 < |slots| && 0 < h && Scan(slots, h, rounds).At?
    ensures var g := Scan(slots, h, rounds).handle; h <= g < h + rounds || g + HANDLE_MASK < h + rounds
    decreases rounds
  {
    if !slots[Hash(InRange(h), |slots|)].Vacant? { ScanReach(slots, InRange(h) + 1, rounds - 1); }
  }

  /** Whether a full scan from `index` tries a handle of residue 0: a scan that runs past 0xffffff skips
      it, unless it does so at once and the table is below the cap. */
  predicate MeetsZero(index: nat, size: nat) {
    index + size <= HANDLE_MASK + 1 || (index == HANDLE_MASK + 1 && size <= HANDLE_MASK)
  }

  /** Whether a registration finds a free slot without growing, in terms of the slots alone. */
  predicate HasFree(t: Table) {
    || (exists r :: 0 < r < |t.slots| && t.slots[r].Vacant?)
    || (t.slots != [] && t.slots[0].Vacant? && MeetsZero(t.index, |t.slots|))
  }

  lemma ScanFindsExact(t: Table)
    requires t.Valid()
    ensures Scan(t.slots, t.index, |t.slots|).At? <==> HasFree(t)
  {
    var n := |t.slots|;
    if r :| 0 < r < n && t.slots[r].Vacant? {
      ScanFinds(t, r);
    } else if HasFree(t) {
      ScanFindsZero(t);
    } else if Scan(t.slots, t.index, n).At? {
      var h := Scan(t.slots, t.index, n).handle;
      ScanReach(t.slots, t.index, n);
      SmallMod(h, HARBOR_UNIT);
      NextMultiple(h, n);
    }
  }

  lemma ScanFindsZero(t: Table)
    requires t.Valid() && t.slots[0].Vacant? && MeetsZero(t.index, |t.slots|)
    ensures Scan(t.slots, t.index, |t.slots|).At?
  {
    var n := |t.slots|;
    if t.index + n <= HANDLE_MASK + 1 {
      var ahead: int := 0 - t.index;
      var a := Offset(ahead, n);
      var target := t.index + ahead % n;
      ModOf(target, n, a, 0);
      SmallMod(target, HARBOR_UNIT);
      ScanMeets(t.slots, t.index, n, target);
    } else {
      ModOf(n, n, 1, 0);
      SmallMod(n, HARBOR_UNIT);
      ScanMeets(t.slots, t.index, n, n);
    }
  }

  /** A positive multiple of a table size is at least that size, and as far below 2^24 unless equal. */
  lemma NextMultiple(h: nat, size: nat)
    requires TableSize(size) && 4 <= size <= HARBOR_UNIT && 0 < h < HARBOR_UNIT && h % size == 0
    ensures size <= h && h + size <= HARBOR_UNIT
  {
    var q := SizeDivides(size);
    var k := h / size;
    Euclid(h, size);
    assert h == size * k && HARBOR_UNIT == size * q;
    if k <= 0 { Scale(size, k, 0); }
    if q <= k { Scale(size, q, k); }
    Scale(size, 1, k);
    Scale(size, k + 1, q);
    assert size * (k + 1) == size * k + size;
  }

  /** The largest table is the one of size 2^24. */
  lemma CapIsFull(size: nat)
    requires TableSize(size) && 4 <= size <= HARBOR_UNIT
    ensures 2 * size - 1 > HANDLE_MASK <==> size == HARBOR_UNIT
  {
    if size < HARBOR_UNIT {
      var q := SizeDivides(size);
      assert q != 1;
      Scale(size, 2, q);
    }
  }

  /** Registration terminates. It fails exactly when the table is at the cap and every slot but slot 0,
      which no handle there uses, is taken; otherwise it grows the table exactly when no slot a scan can
      meet is free, and never more than once. */
  lemma RegisterTerminates(form: Form, t: Table, context: nat, harbor: nat)
    requires t.Valid()
    ensures var r, n := Register(form, t, context, harbor), |t.slots|;
      && (r.Full? <==> n == HANDLE_MASK + 1 && forall k | 0 < k < n :: t.slots[k].Used?)
      && (r.Registered? ==> |r.table.slots| == if HasFree(t) then n else 2 * n)
  {
    RegisterGrowsOnce(form, t, context, harbor);
    ScanFindsExact(t);
    CapIsFull(|t.slots|);
  }

  /** A scan takes the first free handle: those from `h` up to it, by way of 0xffffff and 1 if it runs past,
      are all of slots in use. */
  ghost predicate FirstFree(slots: seq<Slot>, h: nat, g: nat)
    requires 0 < |slots|
  {
    && 0 < g <= HANDLE_MASK && slots[Hash(g, |slots|)].Vacant?
    && forall j :: (if g < h then h <= j <= HANDLE_MASK || 0 < j < g else h <= j < g) ==> slots[Hash(j, |slots|)].Used?
  }

  lemma {:induction false} ScanIsFirst(slots: seq<Slot>, h: nat, rounds: nat)
    requires 0 < |slots| && 0 < h <= HANDLE_MASK + 1 && Scan(slots, h, rounds).At?
    ensures FirstFree(slots, h, Scan(slots, h, rounds).handle)
    decreases rounds, h > HANDLE_MASK
  {
    var g := Scan(slots, h, rounds).handle;
    if h > HANDLE_MASK {
      assert Scan(slots, 1, rounds) == Scan(slots, h, rounds);
      ScanIsFirst(slots, 1, rounds);
      FirstFromOne(slots, g);
    } else if !slots[Hash(h, |slots|)].Vacant? {
      ScanIsFirst(slots, h + 1, rounds - 1);
      FirstOneOn(slots, h, g);
    }
  }

  lemma FirstFromOne(slots: seq<Slot>, g: nat)
    requires 0 < |slots| && FirstFree(slots, 1, g)
    ensures FirstFree(slots, HANDLE_MASK + 1, g)
  {}

  lemma FirstOneOn(slots: seq<Slot>, h: nat, g: nat)
    requires 0 < |slots| && 0 < h <= HANDLE_MASK && FirstFree(slots, h + 1, g) && slots[Hash(h, |slots|)].Used?
    ensures FirstFree(slots, h, g)
  {}

  /** Where a registration puts the context: the table it scanned last, and the handle it found. */
  lemma RegisterPlaces(form: Form, t: Table, context: nat, harbor: nat)
    requires t.Valid() && Register(form, t, context, harbor).Registered?
    ensures var found := Scan(t.slots, t.index, |t.slots|);
      var g := if found.At? then t else Table(Grow(form, t.slots), t.index);
      && g.Valid()
      && Scan(g.slots, g.index, |g.slots|).At?
      && Register(form, t, context, harbor) == Place(g, context, Scan(g.slots, g.index, |g.slots|).handle, harbor)
  {
    RegisterGrowsOnce(form, t, context, harbor);
    if Scan(t.slots, t.index, |t.slots|).Nowhere? {
      GrownIsFound(form, t);
      GrownIsValid(form, t);
    }
  }

  /** Distinct residues modulo n stay distinct modulo 2n, so repaired growth loses nothing. */
  lemma RepairedGrowthKeeps(t: Table, live: map<nat, nat>)
    requires Represents(t, live) && 2 * |t.slots| - 1 <= HANDLE_MASK
    ensures Represents(Table(Grow(Repaired, t.slots), t.index), live)
  {
    var n := |t.slots|;
    GrownIsValid(Repaired, t);
    forall h <- live ensures Hash(h, 2 * n) % n == Hash(h, n) { HalfOf(Low(h), n); }
    forall k | 0 <= k < n && t.slots[k].Used? ensures Hash(t.slots[k].entry.handle, 2 * n) % n == k {
      HalfOf(Low(t.slots[k].entry.handle), n);
    }
  }

  lemma OneMoreFactor(n: nat, a: nat)
    ensures n * (a + 1) == n * a + n
  {}

  lemma HalfRemainder(x: nat, n: nat, a: nat, r: nat)
    requires 0 < n && r < 2 * n && x == r + n * (2 * a)
    ensures x % n == r % n == if r < n then r else r - n
  {
    if r < n {
      SmallMod(r, n);
      ModOf(x, n, 2 * a, r);
    } else {
      ModOf(r, n, 1, r - n);
      OneMoreFactor(n, 2 * a);
      ModOf(x, n, 2 * a + 1, r - n);
    }
  }

  /** A remainder modulo 2n is the one modulo n, or n more. */
  lemma HalfOf(x: nat, n: nat)
    requires 0 < n
    ensures x % (2 * n) % n == x % n
    ensures x % (2 * n) == x % n <==> x % (2 * n) < n
  {
    HalfOfTwice(x, n, 2 * n);
  }

  lemma HalfOfTwice(x: nat, n: nat, m: nat)
    requires 0 < n && m == 2 * n
    ensures x % m % n == x % n == if x % m < n then x % m else x % m - n
  {
    var a, r := Divided(x, n, m);
    HalfRemainder(x, n, a, r);
  }

  lemma Divided(x: nat, n: nat, m: nat) returns (a: nat, r: nat)
    requires 0 < n && m == 2 * n
    ensures r == x % m && r < m && x == r + n * (2 * a)
  {
    var p;
    a, r, p := Quotient(x, m);
    TwiceTimes(n, m, a, p);
  }

  lemma Quotient(x: nat, m: nat) returns (a: nat, r: nat, p: nat)
    requires 0 < m
    ensures r == x % m && r < m && p == m * a && x == r + p
  {
    a, r, p := x / m, x % m, m * (x / m);
  }

  lemma TwiceTimes(n: nat, m: nat, a: nat, p: nat)
    requires m == 2 * n && p == m * a
    ensures p == n * (2 * a)
  {}

  /** Putting a context in a free slot makes a handle that was not live. */
  lemma PlaceIsInsert(t: Table, live: map<nat, nat>, context: nat, h: nat, harbor: nat)
    requires Represents(t, live) && 0 < h <= HANDLE_MASK && t.slots[Hash(h, |t.slots|)].Vacant?
    ensures var r := Place(t, context, h, harbor);
      && r.handle !in live && Low(r.handle) == h && r.handle / 0x100_0000 == harbor
      && Represents(r.table, live[r.handle := context])
  {
    var r := Place(t, context, h, harbor);
    LowOfPlaced(h, harbor);
    SmallMod(h, HARBOR_UNIT);
    HarborOfPlaced(h, harbor);
  }

  lemma HarborOfPlaced(h: nat, harbor: nat)
    requires h <= HANDLE_MASK
    ensures (h + harbor * HARBOR_UNIT) / 0x100_0000 == harbor
  {}

  lemma LowOfPlaced(h: nat, harbor: nat)
    requires h <= HANDLE_MASK
    ensures Low(h + harbor * HARBOR_UNIT) == h
  {
    ModOf(h + harbor * HARBOR_UNIT, HARBOR_UNIT, harbor, h);
  }
}
