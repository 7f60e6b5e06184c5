/**
 * The estimate the calculator computes from a drop rate and a five-minute
 * hunting observation: the expected number of kills until the item drops, the
 * kill throughput per five minutes and per hour, the hunting time needed, and
 * the chance of having seen the drop after the expected number of kills.
 */
module Estimator {
  import opened Wrappers
  import opened JsMath
  import TimeFormat

  /** How the five-minute observation is entered: as experience gained, or as a kill count. */
  datatype InputMode = Xp | Kills

  /**
   * The form fields, already parsed: the drop rate in percent, the input mode,
   * the experience one monster gives, the experience gained in five minutes,
   * and the monsters killed in five minutes.
   */
  datatype Inputs = Inputs(dropRatePct: real, mode: InputMode, monsterXp: nat, xp5min: nat, kills5min: nat)

  /** The estimate shown on the result card. */
  datatype Metrics = Metrics(
    expectedKills: nat,
    killsPer5m: nat,
    killsPerHr: nat,
    secondsNeeded: nat,
    probAtExpected: real)

  /** Five-minute windows in an hour. */
  const WindowsPerHour: nat := 12

  /**
   * `successProbability(p, n)`: the chance of at least one drop in `n` kills,
   * `1 - (1 - p)^n`, and 0 when `p` or `n` is zero.
   */
  function SuccessProbability(p: real, n: nat): (r: real)
    ensures p == 0.0 || n == 0 ==> r == 0.0
    ensures p == 1.0 && n > 0 ==> r == 1.0
  {
    if p == 0.0 || n == 0 then 0.0 else 1.0 - Pow(1.0 - p, n)
  }

  /** For a genuine probability and at least one kill, the chance lies in (0, 1]. */
  lemma SuccessProbabilityInUnit(p: real, n: nat)
    requires 0.0 < p <= 1.0 && n > 0
    ensures 0.0 < SuccessProbability(p, n) <= 1.0
  {
    PowInUnit(1.0 - p, n);
  }

  /** More kills never lower the chance of having seen the drop. */
  lemma SuccessProbabilityGrows(p: real, n: nat)
    requires 0.0 < p <= 1.0
    ensures SuccessProbability(p, n) <= SuccessProbability(p, n + 1)
  {
    PowInUnit(1.0 - p, n);
  }

  /** `Math.round(1 / p)`: the mean of the geometric distribution, rounded. */
  function ExpectedKills(p: real): (e: nat)
    requires p > 0.0
    ensures e as real - 0.5 <= 1.0 / p < e as real + 0.5
    ensures p <= 1.0 ==> e >= 1
  {
    assert p <= 1.0 ==> 1.0 / p >= 1.0 by {
      assert (1.0 / p) * p == 1.0;
      ScaleCancels(1.0 / p, 1.0, p);
    }
    Round(1.0 / p)
  }

  /** Kills per five minutes: `Math.floor(xp5 / mxp)` or the kill count; `None` when the chosen fields are missing. */
  function KillsPer5m(inputs: Inputs): (k: Option<nat>)
    ensures k.None? <==> MissingObservation(inputs)
    ensures k.Some? && inputs.mode == Xp ==>
      k.value * inputs.monsterXp <= inputs.xp5min < (k.value + 1) * inputs.monsterXp
    ensures k.Some? && inputs.mode == Kills ==> k.value == inputs.kills5min
  {
    match inputs.mode
    case Xp =>
      if inputs.monsterXp == 0 || inputs.xp5min == 0 then None
      else Some(inputs.xp5min / inputs.monsterXp)
    case Kills =>
      if inputs.kills5min == 0 then None else Some(inputs.kills5min)
  }

  /** The fields the chosen mode needs are zero (empty fields parse to zero). */
  predicate MissingObservation(inputs: Inputs) {
    match inputs.mode
    case Xp => inputs.monsterXp == 0 || inputs.xp5min == 0
    case Kills => inputs.kills5min == 0
  }

  /**
   * `Math.round((expectedKills / (killsPerHr || 1)) * 3600)`: the nearest
   * whole second (ties up) to the time the expected kills take at the hourly
   * rate; with a zero rate, the time they take at one kill per hour.
   */
  function SecondsNeeded(expectedKills: nat, killsPerHr: nat): (s: nat)
    ensures killsPerHr == 0 ==> s == TimeFormat.SecondsPerHour * expectedKills
    ensures killsPerHr > 0 ==>
      2 * killsPerHr * s - killsPerHr <= 2 * TimeFormat.SecondsPerHour * expectedKills < 2 * killsPerHr * s + killsPerHr
  {
    var rate := if killsPerHr == 0 then 1 else killsPerHr;
    SecondsNeededExact(expectedKills, rate);
    Round((expectedKills as real / rate as real) * TimeFormat.SecondsPerHour as real)
  }

  /**
   * The time rounds to 0 exactly when no kill is expected or the expected
   * kills take less than half a second at the hourly rate.
   */
  lemma SecondsNeededZero(e: nat, k: nat)
    ensures SecondsNeeded(e, k) == 0 <==> e == 0 || 2 * TimeFormat.SecondsPerHour * e < k
  {
    var s := SecondsNeeded(e, k);
    if k > 0 && s > 0 {
      ScaleInt(1, s, 2 * k);
      assert s * (2 * k) == 2 * k * s;
    }
  }

  /** The rounding in SecondsNeeded is integer division by twice the rate. */
  lemma SecondsNeededExact(e: nat, rate: nat)
    requires rate > 0
    ensures Round((e as real / rate as real) * TimeFormat.SecondsPerHour as real) == (2 * TimeFormat.SecondsPerHour * e + rate) / (2 * rate)
    ensures (2 * TimeFormat.SecondsPerHour * e + rate) / (2 * rate) >= 0
    ensures var s := (2 * TimeFormat.SecondsPerHour * e + rate) / (2 * rate);
      2 * rate * s - rate <= 2 * TimeFormat.SecondsPerHour * e < 2 * rate * s + rate
  {
    var c := rate as real;
    var x := e as real / c;
    assert TimeFormat.SecondsPerHour as real == 3600.0;
    assert x * 3600.0 == (3600 * e) as real / c by {
      assert x * c == e as real;
      ScaleCancels(x * 3600.0, (3600 * e) as real / c, c);
    }
    RoundQuotient(3600 * e, rate);
  }

  /** The drop probability the form's percentage stands for. */
  function DropProbability(inputs: Inputs): (p: real)
    ensures p * 100.0 == inputs.dropRatePct
    ensures 0.0 <= inputs.dropRatePct <= 100.0 ==> 0.0 <= p <= 1.0
  {
    inputs.dropRatePct / 100.0
  }

  /**
   * The `metrics` memo: `null` (here `None`) when the drop rate is zero or the
   * observation the chosen mode needs is missing; otherwise the estimate.
   */
  function Estimate(inputs: Inputs): (r: Option<Metrics>)
    requires inputs.dropRatePct >= 0.0
    ensures r.None? <==> inputs.dropRatePct == 0.0 || MissingObservation(inputs)
    ensures r.Some? ==> r.value.killsPerHr == WindowsPerHour * r.value.killsPer5m
    ensures r.Some? ==> r.value.expectedKills as real - 0.5 <= 100.0 / inputs.dropRatePct < r.value.expectedKills as real + 0.5
    ensures r.Some? && inputs.mode == Kills ==> r.value.killsPer5m == inputs.kills5min
    ensures r.Some? ==> r.value.probAtExpected == SuccessProbability(DropProbability(inputs), r.value.expectedKills)
  {
    var p := DropProbability(inputs);
    if p == 0.0 then None
    else
      match KillsPer5m(inputs)
      case None => None
      case Some(k5) =>
        var expectedKills := ExpectedKills(p);
        assert 1.0 / p == 100.0 / inputs.dropRatePct;
        var killsPerHr := k5 * WindowsPerHour;
        Some(Metrics(expectedKills, k5, killsPerHr, SecondsNeeded(expectedKills, killsPerHr),
                     SuccessProbability(p, expectedKills)))
  }

  /** In experience mode the kills are whole kills: never more than the experience gained pays for. */
  lemma XpModeCountsWholeKills(inputs: Inputs)
    requires inputs.dropRatePct >= 0.0 && inputs.mode == Xp
    requires Estimate(inputs).Some?
    ensures var m := Estimate(inputs).value;
      m.killsPer5m * inputs.monsterXp <= inputs.xp5min < (m.killsPer5m + 1) * inputs.monsterXp
  {
  }

  /** The time estimate: the nearest second to expected kills over the hourly rate, or the `|| 1` fallback. */
  lemma EstimateSeconds(inputs: Inputs)
    requires inputs.dropRatePct >= 0.0
    requires Estimate(inputs).Some?
    ensures var m := Estimate(inputs).value;
      (m.killsPerHr == 0 ==> m.secondsNeeded == TimeFormat.SecondsPerHour * m.expectedKills) &&
      (m.killsPerHr > 0 ==>
        2 * m.killsPerHr * m.secondsNeeded - m.killsPerHr <= 2 * TimeFormat.SecondsPerHour * m.expectedKills
        < 2 * m.killsPerHr * m.secondsNeeded + m.killsPerHr)
  {
  }

  /**
   * The `|| 1` fallback is reached exactly when experience mode observes less
   * experience than one monster gives: kill mode always has a positive rate.
   */
  lemma ZeroRateOnlyBelowOneMonster(inputs: Inputs)
    requires inputs.dropRatePct >= 0.0
    requires Estimate(inputs).Some?
    ensures Estimate(inputs).value.killsPerHr == 0 <==> inputs.mode == Xp && inputs.xp5min < inputs.monsterXp
  {
    var k := KillsPer5m(inputs).value;
    assert Estimate(inputs).value.killsPerHr == WindowsPerHour * k;
    if inputs.mode == Xp && k > 0 {
      ScaleInt(1, k, inputs.monsterXp);
    }
  }

  /** A faster hourly rate never raises the time estimate. */
  lemma SecondsNeededFallsWithRate(e: nat, k1: nat, k2: nat)
    requires 0 < k1 <= k2
    ensures SecondsNeeded(e, k2) <= SecondsNeeded(e, k1)
  {
    NearestOrder(SecondsNeeded(e, k2), k2, SecondsNeeded(e, k1), k1, 2 * TimeFormat.SecondsPerHour * e);
  }

  /** More expected kills never lower the time estimate at a fixed rate. */
  lemma SecondsNeededGrowsWithKills(e1: nat, e2: nat, k: nat)
    requires e1 <= e2
    ensures SecondsNeeded(e1, k) <= SecondsNeeded(e2, k)
  {
    if k > 0 {
      NearestOrder(SecondsNeeded(e1, k), k, SecondsNeeded(e2, k), k, 2 * TimeFormat.SecondsPerHour * e2);
    }
  }

  /**
   * If `lo` rounds `w / 2hi` from below and `up` rounds `w / 2ki` from above
   * with `ki <= hi`, then `lo <= up`: the nearest-integer bounds order the results.
   */
  lemma NearestOrder(lo: nat, hi: nat, up: nat, ki: nat, w: int)
    requires 0 < ki <= hi
    requires 2 * hi * lo - hi <= w < 2 * ki * up + ki
    ensures lo <= up
  {
    if lo > 0 {
      var a, b := 2 * lo - 1, 2 * up + 1;
      // ki * a <= hi * a <= w < ki * b
      assert hi * a == 2 * hi * lo - hi;
      assert ki * b == 2 * ki * up + ki;
      ScaleInt(ki, hi, a);
      assert a * ki <= a * hi;
      assert a * ki < b * ki;
      CancelFactor(a, b, ki);
    }
  }

  /** A non-negative factor keeps the order of two integers. */
  lemma ScaleInt(a: int, b: int, c: int)
    requires a <= b && c >= 0
    ensures a * c <= b * c
  {
    assert b * c - a * c == (b - a) * c;
  }

  /** A positive factor can be cancelled from a strict inequality. */
  lemma CancelFactor(a: int, b: int, c: int)
    requires c > 0 && a * c < b * c
    ensures a < b
  {
    if a >= b {
      ScaleInt(b, a, c);
    }
  }

  /** A drop rate of 100% means one expected kill, whose drop is certain. */
  lemma CertainDropEstimate(inputs: Inputs)
    requires inputs.dropRatePct == 100.0 && !MissingObservation(inputs)
    ensures Estimate(inputs).Some?
    ensures Estimate(inputs).value.expectedKills == 1
    ensures Estimate(inputs).value.probAtExpected == 1.0
  {
    RoundUnique(1.0, 1);
  }

  /**
   * A drop rate of 0.006% and 250 kills per five minutes: 16667 expected kills,
   * 3000 kills an hour, and 20000 seconds (5 h 33 min 20 s).
   */
  lemma WorkedExample()
    ensures var m := Estimate(Inputs(0.006, Kills, 0, 0, 250));
      m.Some? && m.value.expectedKills == 16667 && m.value.killsPer5m == 250
      && m.value.killsPerHr == 3000 && m.value.secondsNeeded == 20000
  {
    assert 0.006 / 100.0 == 0.00006;
    RoundUnique(1.0 / 0.00006, 16667);
    assert ExpectedKills(0.00006) == 16667;
    SecondsNeededExact(16667, 3000);
  }

  /** Without a drop rate there is no estimate, whatever the observation. */
  lemma NoDropRateNoEstimate(inputs: Inputs)
    requires inputs.dropRatePct == 0.0
    ensures Estimate(inputs).None?
  {
  }

  /** `metrics?.secondsNeeded || 0`: the seconds shown on the result card and handed to the timer. */
  function ShownSeconds(metrics: Option<Metrics>): (n: nat)
    ensures n == 0 <==> metrics.None? || metrics.value.secondsNeeded == 0
    ensures metrics.Some? ==> n == metrics.value.secondsNeeded
  {
    match metrics
    case None => 0
    case Some(m) => m.secondsNeeded
  }
}
