/** The mean-deviation round-trip estimator: history of transmissions, samples, back-off and timeout.  Times are reals, in
    seconds. */
module Estimator {
  /** A transmission in the history.  The size is left out: it is 1 for every Interest and nothing here reads it. */
  datatype Sent = Sent(number: nat, time: real, retx: bool)

  datatype Params = Params(gain: real, gain2: real, minRto: real, maxRto: real, maxMultiplier: nat)

  datatype Rtt = Rtt(history: seq<Sent>, estimate: real, variance: real, nSamples: nat, multiplier: nat)

  /** The sample counter has 32 bits. */
  const WORD32 := 0x1_0000_0000

  function Abs(x: real): real
  {
    if x < 0.0 then -x else x
  }

  function Min(x: real, y: real): real
  {
    if x < y then x else y
  }

  function Max(x: real, y: real): real
  {
    if x < y then y else x
  }

  // ----- the operations on values -----

  /** The position of number `n` in the history, or its length. */
  function FindSent(h: seq<Sent>, n: nat): (i: nat)
    ensures i <= |h|
    ensures i < |h| ==> h[i].number == n
    ensures forall j :: 0 <= j < i ==> h[j].number != n
  {
    if h == [] then 0 else if h[0].number == n then 0 else 1 + FindSent(h[1..], n)
  }

  /** A number already in the history is marked, any other is added. */
  function Noted(h: seq<Sent>, n: nat, now: real): seq<Sent>
  {
    var i := FindSent(h, n);
    if i < |h| then h[i := h[i].(retx := true)] else h + [Sent(n, now, false)]
  }

  /** A product, kept apart from the arithmetic around it. */
  function Scaled(x: real, g: real): real
  {
    x * g
  }

  lemma ScaledNonNegative(x: real, g: real)
    requires 0.0 <= x && 0.0 <= g
    ensures 0.0 <= Scaled(x, g)
  {
  }

  lemma ScaledSplit(x: real, g: real)
    ensures Scaled(x, g) + Scaled(x, 1.0 - g) == x
  {
  }

  lemma ScaledNegative(x: real, g: real)
    ensures Scaled(-x, g) == -Scaled(x, g)
  {
  }

  lemma Fraction(x: real, g: real)
    requires 0.0 <= x && 0.0 <= g <= 1.0
    ensures 0.0 <= Scaled(x, g) <= x
  {
    ScaledNonNegative(x, g);
    ScaledNonNegative(x, 1.0 - g);
    ScaledSplit(x, g);
  }

  function Smoothed(p: Params, estimate: real, m: real): real
  {
    estimate + Scaled(m - estimate, p.gain)
  }

  function Deviated(p: Params, estimate: real, variance: real, m: real): real
  {
    variance + Scaled(Abs(m - estimate) - variance, p.gain2)
  }

  function Measured(p: Params, r: Rtt, m: real): Rtt
  {
    var counted := r.(nSamples := (r.nSamples + 1) % WORD32);
    if r.nSamples == 0 then counted.(estimate := m, variance := m / 2.0)
    else counted.(estimate := Smoothed(p, r.estimate, m), variance := Deviated(p, r.estimate, r.variance, m))
  }

  /** The history without number `n`. */
  function Dropped(h: seq<Sent>, n: nat): seq<Sent>
  {
    var i := FindSent(h, n);
    if i < |h| then h[..i] + h[i + 1..] else h
  }

  function Acked(p: Params, r: Rtt, n: nat, now: real): Rtt
  {
    var i := FindSent(r.history, n);
    if i == |r.history| then r
    else
      var r' := if r.history[i].retx then r else Measured(p, r, now - r.history[i].time).(multiplier := 1);
      r'.(history := Dropped(r.history, n))
  }

  function BackedOff(p: Params, multiplier: nat): nat
  {
    if multiplier * 2 < p.maxMultiplier then multiplier * 2 else p.maxMultiplier
  }

  function RetransmitTimeout(p: Params, r: Rtt): real
  {
    var k := r.multiplier as real;
    Min(p.maxRto, Max(Scaled(k, p.minRto), Scaled(k, r.estimate + 4.0 * r.variance)))
  }

  // ----- bounds over any sequence of samples -----

  function MeasuredAll(p: Params, r: Rtt, ms: seq<real>): Rtt
  {
    if ms == [] then r else Measured(p, MeasuredAll(p, r, ms[..|ms| - 1]), ms[|ms| - 1])
  }

  function Least(ms: seq<real>): real
    requires ms != []
  {
    var m := ms[|ms| - 1];
    if |ms| == 1 then m else Min(m, Least(ms[..|ms| - 1]))
  }

  function Greatest(ms: seq<real>): real
    requires ms != []
  {
    var m := ms[|ms| - 1];
    if |ms| == 1 then m else Max(m, Greatest(ms[..|ms| - 1]))
  }

  /** A weighted mean of two numbers is between them. */
  lemma Between(x: real, y: real, g: real, lo: real, hi: real)
    requires 0.0 < g < 1.0 && lo <= x <= hi && lo <= y <= hi
    ensures lo <= x + Scaled(y - x, g) <= hi
  {
    if x <= y {
      Fraction(y - x, g);
    } else {
      Fraction(x - y, g);
      ScaledNegative(x - y, g);
      assert -(x - y) == y - x;
    }
  }

  /** One more sample keeps the estimate and the deviation within bounds that hold for everything so far. */
  lemma MeasuredBounded(p: Params, r: Rtt, m: real, lo: real, hi: real, d: real)
    requires 0.0 < p.gain < 1.0 && 0.0 < p.gain2 < 1.0 && r.nSamples > 0
    requires lo <= r.estimate <= hi && lo <= m <= hi && 0.0 <= r.variance <= d && hi - lo <= d
    ensures var r' := Measured(p, r, m);
            && r'.nSamples == (r.nSamples + 1) % WORD32
            && lo <= r'.estimate <= hi && 0.0 <= r'.variance <= d
  {
    Between(r.estimate, m, p.gain, lo, hi);
    Between(r.variance, Abs(m - r.estimate), p.gain2, 0.0, d);
  }

  /** A measurement closes the gap between estimate and sample by the first gain, and the gap between deviation and distance
      by the second; the first one sets both. */
  lemma MeasuredCloses(p: Params, r: Rtt, m: real)
    ensures var r' := Measured(p, r, m);
            if r.nSamples == 0 then r'.estimate == m && r'.variance == m / 2.0
            else && m - r'.estimate == (1.0 - p.gain) * (m - r.estimate)
                 && Abs(m - r.estimate) - r'.variance == (1.0 - p.gain2) * (Abs(m - r.estimate) - r.variance)
  {
    Closes(r.estimate, m, p.gain);
    Closes(r.variance, Abs(m - r.estimate), p.gain2);
  }

  lemma Closes(x: real, y: real, g: real)
    ensures y - (x + Scaled(y - x, g)) == (1.0 - g) * (y - x)
  {
  }

  /** The estimate is between the smallest and the largest sample, the deviation between 0 and the larger of half the
      first sample and the spread of the samples. */
  predicate Within(r: Rtt, ms: seq<real>)
  {
    && ms != []
    && Least(ms) <= r.estimate <= Greatest(ms)
    && 0.0 <= r.variance <= Max(ms[0] / 2.0, Greatest(ms) - Least(ms))
  }

  lemma {:induction false} EstimateBounded(p: Params, r: Rtt, ms: seq<real>)
    requires 0.0 < p.gain < 1.0 && 0.0 < p.gain2 < 1.0
    requires r.nSamples == 0 && 0 < |ms| < WORD32 && ms[0] >= 0.0
    ensures MeasuredAll(p, r, ms).nSamples == |ms|
    ensures Within(MeasuredAll(p, r, ms), ms)
  {
    var k := |ms| - 1;
    if k > 0 {
      EstimateBounded(p, r, ms[..k]);
      var d := Max(ms[0] / 2.0, Greatest(ms) - Least(ms));
      MeasuredBounded(p, MeasuredAll(p, r, ms[..k]), ms[k], Least(ms), Greatest(ms), d);
    } else {
      assert ms[..k] == [];
    }
  }

  // ----- back-off and timeout -----

  function BackedOffTimes(p: Params, multiplier: nat, k: nat): nat
  {
    if k == 0 then multiplier else BackedOff(p, BackedOffTimes(p, multiplier, k - 1))
  }

  function Doubled(m: nat, k: nat): nat
  {
    if k == 0 then m else 2 * Doubled(m, k - 1)
  }

  /** Timeouts in a row double the multiplier until the maximum. */
  lemma {:induction false} BackoffDoubles(p: Params, multiplier: nat, k: nat)
    requires 1 <= multiplier <= p.maxMultiplier
    ensures BackedOffTimes(p, multiplier, k) ==
            if Doubled(multiplier, k) < p.maxMultiplier then Doubled(multiplier, k) else p.maxMultiplier
  {
    if k == 0 {
    } else {
      BackoffDoubles(p, multiplier, k - 1);
    }
  }

  /** Whatever was measured, the timeout is at most the maximum and at least the minimum, unless that is larger. */
  lemma TimeoutBounded(p: Params, r: Rtt)
    requires 1 <= r.multiplier && 0.0 <= p.minRto
    ensures Min(p.minRto, p.maxRto) <= RetransmitTimeout(p, r) <= p.maxRto
  {
    var k := r.multiplier as real;
    AtLeast(k, p.minRto);
    Clamped(p.minRto, Scaled(k, p.minRto), Scaled(k, r.estimate + 4.0 * r.variance), p.maxRto);
  }

  /** And exactly: the timeout is the least that is neither below the multiplied minimum nor below the multiplied estimate plus
      four deviations, when that is at most the maximum, and otherwise the maximum. */
  lemma TimeoutIsLeast(p: Params, r: Rtt, t: real)
    ensures var k, rto := r.multiplier as real, RetransmitTimeout(p, r);
            var enough := k * p.minRto <= t && k * (r.estimate + 4.0 * r.variance) <= t;
            && (enough ==> rto <= t)
            && (enough && t <= p.maxRto ==> k * p.minRto <= rto && k * (r.estimate + 4.0 * r.variance) <= rto)
            && (k * p.minRto > p.maxRto || k * (r.estimate + 4.0 * r.variance) > p.maxRto ==> rto == p.maxRto)
  {
    var k := r.multiplier as real;
    ClampedExactly(Scaled(k, p.minRto), Scaled(k, r.estimate + 4.0 * r.variance), p.maxRto, t);
  }

  lemma ClampedExactly(a: real, b: real, hi: real, t: real)
    ensures var x := Min(hi, Max(a, b));
            && (a <= t && b <= t ==> x <= t)
            && (a <= t && b <= t && t <= hi ==> a <= x && b <= x)
            && (a > hi || b > hi ==> x == hi)
  {
  }

  lemma Clamped(lo: real, a: real, b: real, hi: real)
    requires lo <= a
    ensures Min(lo, hi) <= Min(hi, Max(a, b)) <= hi
  {
  }

  lemma AtLeast(k: real, x: real)
    requires 1.0 <= k && 0.0 <= x
    ensures x <= Scaled(k, x)
  {
    ScaledNonNegative(k - 1.0, x);
    assert Scaled(k, x) == x + Scaled(k - 1.0, x);
  }
}
