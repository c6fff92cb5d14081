/** How `timer::update` turns clock readings into ticks. */
module TickClock {

  /** A hundredth of a second in the clock's own unit, the nanosecond. */
  const CENTISECOND: nat := 10_000_000

  /** `current_point_`, and `current_` since the start. */
  datatype Clock = Clock(point: int, current: nat)

  /** The ticks one `update` runs when the clock reads `now`. */
  function TicksFor(point: int, now: int): nat {
    if now < point then 0 else (now - point) / CENTISECOND
  }

  function Update(c: Clock, now: int): Clock {
    var ticks := TicksFor(c.point, now);
    if now < c.point then c.(point := now)
    else if ticks > 0 then Clock(now, c.current + ticks)
    else c
  }

  function UpdateAll(start: int, readings: seq<int>): Clock {
    if readings == [] then Clock(start, 0)
    else Update(UpdateAll(start, readings[..|readings| - 1]), readings[|readings| - 1])
  }

  function Last(start: int, readings: seq<int>): int {
    if readings == [] then start else readings[|readings| - 1]
  }

  /** How many of the updates ran ticks. */
  function Advances(start: int, readings: seq<int>): nat {
    if readings == [] then 0
    else
      var past := readings[..|readings| - 1];
      Advances(start, past) + if UpdateAll(start, readings).current > UpdateAll(start, past).current then 1 else 0
  }

  /** The sum of the forward moves of a clock that may step back at any reading. */
  function Forward(start: int, readings: seq<int>): nat {
    if readings == [] then 0
    else
      var past, now := readings[..|readings| - 1], readings[|readings| - 1];
      Forward(start, past) + if now > Last(start, past) then now - Last(start, past) else 0
  }

  /** How often the clock stepped back. */
  function StepsBack(start: int, readings: seq<int>): nat {
    if readings == [] then 0
    else
      var past, now := readings[..|readings| - 1], readings[|readings| - 1];
      StepsBack(start, past) + if now < Last(start, past) then 1 else 0
  }

  /** `current_point_` is at most a tick behind the last reading, and never ahead of it; what is not yet
      counted of the forward moves is that, the remainders dropped, and less than a tick for each step
      back. */
  lemma {:induction false} ClockInvariant(start: int, readings: seq<int>)
    ensures var c, last, forward := UpdateAll(start, readings), Last(start, readings), Forward(start, readings);
            && 0 <= last - c.point < CENTISECOND
            && CENTISECOND * c.current + (last - c.point) <= forward
            && forward <= CENTISECOND * c.current + (last - c.point) +
                          (CENTISECOND - 1) * (Advances(start, readings) + StepsBack(start, readings))
  {
    if readings != [] { ClockInvariant(start, readings[..|readings| - 1]); }
  }

  /** Whatever the clock does: the ticks never exceed the sum of its forward moves, and fall short of it by
      less than one tick for each update that ran some, one for each step back, and one. Each of those
      updates drops its sub-tick remainder; a step back begins anew from where the clock then stands. */
  lemma TickAccounting(start: int, readings: seq<int>)
    ensures var ticks, forward := UpdateAll(start, readings).current, Forward(start, readings);
            && CENTISECOND * ticks <= forward
            && forward < CENTISECOND * (ticks + Advances(start, readings) + StepsBack(start, readings) + 1)
  {
    ClockInvariant(start, readings);
  }

  /** A clock that never steps back has moved forward by what has elapsed. */
  lemma {:induction false} SteadyClock(start: int, readings: seq<int>)
    requires StepsBack(start, readings) == 0
    ensures Forward(start, readings) == Last(start, readings) - start
  {
    if readings != [] { SteadyClock(start, readings[..|readings| - 1]); }
  }

  /** Readings one nanosecond short of two ticks apart. */
  function Late(start: int, n: nat): seq<int> {
    if n == 0 then [] else Late(start, n - 1) + [start + n * 19_999_999]
  }

  /** The shortfall is real: each of these updates runs one tick and drops the rest, so that of nearly `2 * n`
      ticks only `n` are run. */
  lemma {:induction false} RemaindersDropped(start: int, n: nat)
    ensures UpdateAll(start, Late(start, n)) == Clock(start + n * 19_999_999, n)
    ensures Last(start, Late(start, n)) == start + n * 19_999_999
  {
    if n > 0 {
      RemaindersDropped(start, n - 1);
      assert Late(start, n)[..|Late(start, n)| - 1] == Late(start, n - 1);
    }
  }

  /** A clock that has been set back, by however much, is followed from there: a reading `s` seconds later
      runs `100 * s` ticks. */
  lemma FollowsSetClock(c: Clock, back: int, s: nat)
    requires back < c.point
    ensures Update(Update(c, back), back + 1_000_000_000 * s) ==
            Clock(back + 1_000_000_000 * s, c.current + 100 * s)
  {}
}
