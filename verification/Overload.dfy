/** The overload threshold of a message queue over whole runs. */
module Overload {
  import opened Doubling

  const MQ_OVERLOAD: nat := 1024

  /** The loop of `mq_pop`: the threshold is doubled until the length no longer exceeds it. */
  function Raise(threshold: nat, length: nat): nat
    requires 0 < threshold
    decreases length - threshold
  {
    if length > threshold then Raise(2 * threshold, length) else threshold
  }

  /** How many doublings that takes. */
  function Doublings(threshold: nat, length: nat): nat
    requires 0 < threshold
    decreases length - threshold
  {
    if length > threshold then 1 + Doublings(2 * threshold, length) else 0
  }

  lemma {:induction false} RaiseIsDoubling(threshold: nat, length: nat)
    requires 0 < threshold
    ensures var k := Doublings(threshold, length);
            && Raise(threshold, length) == Twice(threshold, k)
            && threshold <= Raise(threshold, length) && length <= Raise(threshold, length)
            && (k > 0 ==> length > threshold && length > Twice(threshold, k - 1))
    decreases length - threshold
  {
    if length > threshold {
      RaiseIsDoubling(2 * threshold, length);
      var k := Doublings(2 * threshold, length);
      assert Twice(threshold, 1) == 2 * threshold;
      TwiceSum(threshold, 1, k);
      if k > 0 { TwiceSum(threshold, 1, k - 1); }
    }
  }

  /** A run of pops by the dispatcher, which reads and clears `overload` after each message it pops.
      `Popped` carries the length left behind; `Empty` is a pop that found nothing. */
  datatype Pops = Start | Popped(before: Pops, length: nat) | Empty(before: Pops)

  /** Since the last empty pop: the threshold, how often it was doubled, and what `mq_overload` returned
      when it was not 0. */
  datatype Meter = Meter(threshold: nat, doublings: nat, reports: seq<nat>)

  function Run(p: Pops): (m: Meter)
    ensures 0 < m.threshold
  {
    match p
    case Start => Meter(MQ_OVERLOAD, 0, [])
    case Empty(_) => Meter(MQ_OVERLOAD, 0, [])
    case Popped(before, length) =>
      var m := Run(before);
      RaiseIsDoubling(m.threshold, length);
      Meter(Raise(m.threshold, length), m.doublings + Doublings(m.threshold, length),
            m.reports + if length > m.threshold then [length] else [])
  }

  /** The lengths left behind since the last empty pop. */
  function Lengths(p: Pops): seq<nat> {
    match p
    case Start => []
    case Empty(_) => []
    case Popped(before, length) => Lengths(before) + [length]
  }

  lemma {:induction false} TwiceGrows(base: nat, a: nat, b: nat)
    requires a <= b
    ensures Twice(base, a) <= Twice(base, b)
    decreases b
  {
    if a < b { TwiceGrows(base, a, b - 1); }
  }

  /** The threshold is 1024 doubled as often as it takes to reach every length seen since the last empty
      pop, and no more often. */
  ghost predicate Tight(m: Meter, lengths: seq<nat>) {
    && m.threshold == Twice(1024, m.doublings)
    && (forall i :: 0 <= i < |lengths| ==> lengths[i] <= m.threshold)
    && (m.doublings > 0 ==> exists i :: 0 <= i < |lengths| && Twice(1024, m.doublings - 1) < lengths[i])
  }

  /** The i-th report is a length seen, above 1024 doubled i times; so the reports are at most logarithmic
      in the largest length. */
  ghost predicate Sparse(m: Meter, lengths: seq<nat>) {
    && |m.reports| <= m.doublings
    && (forall i :: 0 <= i < |m.reports| ==> Twice(1024, i) < m.reports[i] && m.reports[i] in lengths)
  }

  /** There are no reports exactly if no length exceeded 1024. */
  ghost predicate Silent(m: Meter, lengths: seq<nat>) {
    m.reports == [] <==> forall i :: 0 <= i < |lengths| ==> lengths[i] <= 1024
  }

  lemma {:induction false} OverloadAccounting(p: Pops)
    ensures Tight(Run(p), Lengths(p)) && Sparse(Run(p), Lengths(p)) && Silent(Run(p), Lengths(p))
  {
    if p.Popped? {
      OverloadAccounting(p.before);
      RaiseIsDoubling(Run(p.before).threshold, p.length);
      StaysTight(Run(p.before), Lengths(p.before), p.length, Run(p));
      StaysSparse(Run(p.before), Lengths(p.before), p.length, Run(p));
      StaysSilent(Run(p.before), Lengths(p.before), p.length, Run(p));
    }
  }

  lemma StaysTight(m: Meter, lengths: seq<nat>, length: nat, m': Meter)
    requires Tight(m, lengths) && 0 < m.threshold
    requires m'.doublings == m.doublings + Doublings(m.threshold, length) && m'.threshold == Raise(m.threshold, length)
    ensures Tight(m', lengths + [length])
  {
    var k := Doublings(m.threshold, length);
    RaiseIsDoubling(m.threshold, length);
    TwiceSum(1024, m.doublings, k);
    if k > 0 {
      TwiceSum(1024, m.doublings, k - 1);
      assert (lengths + [length])[|lengths|] == length;
    } else if m.doublings > 0 {
      var i :| 0 <= i < |lengths| && Twice(1024, m.doublings - 1) < lengths[i];
      assert (lengths + [length])[i] == lengths[i];
    }
  }

  lemma StaysSparse(m: Meter, lengths: seq<nat>, length: nat, m': Meter)
    requires m.threshold == Twice(1024, m.doublings) && Sparse(m, lengths) && 0 < m.threshold
    requires m'.doublings == m.doublings + Doublings(m.threshold, length)
    requires m'.reports == m.reports + if length > m.threshold then [length] else []
    ensures Sparse(m', lengths + [length])
  {
    TwiceGrows(1024, |m.reports|, m.doublings);
  }

  lemma StaysSilent(m: Meter, lengths: seq<nat>, length: nat, m': Meter)
    requires Tight(m, lengths) && Silent(m, lengths)
    requires m'.reports == m.reports + if length > m.threshold then [length] else []
    ensures Silent(m', lengths + [length])
  {
    var all := lengths + [length];
    assert all[|lengths|] == length;
    assert forall i :: 0 <= i < |lengths| ==> all[i] == lengths[i];
    TwiceGrows(1024, 0, m.doublings);
    if m.doublings > 0 {
      var i :| 0 <= i < |lengths| && Twice(1024, m.doublings - 1) < lengths[i];
      TwiceGrows(1024, 0, m.doublings - 1);
      assert all[i] > 1024;
    }
  }
}
