/**
 * The `App` component's wiring: the estimate's seconds feed both the result
 * card's duration and the floating timer's `initSeconds` prop.
 */
module App {
  import opened Wrappers
  import Estimator
  import TimeFormat
  import Timer
  import JsMath

  /** `formatTime(metrics?.secondsNeeded || 0)`: the duration the result card shows. */
  function ResultTime(inputs: Estimator.Inputs): (d: TimeFormat.Duration)
    requires inputs.dropRatePct >= 0.0
    ensures var shown := Estimator.ShownSeconds(Estimator.Estimate(inputs));
      d.h * TimeFormat.SecondsPerHour + d.m * TimeFormat.SecondsPerMinute + d.s == shown && d.m < TimeFormat.SecondsPerMinute && d.s < TimeFormat.SecondsPerMinute
    ensures d.text == TimeFormat.Label(d.h, d.m, d.s)
    ensures Estimator.Estimate(inputs).None? ==> d.h == 0 && d.m == 0 && d.s == 0
  {
    var shown := Estimator.ShownSeconds(Estimator.Estimate(inputs));
    JsMath.RoundUnique(shown as real, shown);
    TimeFormat.FormatTime(Some(shown as real))
  }

  /**
   * The prop App passes to the timer: `metrics?.secondsNeeded || 0`. It is
   * never missing or negative, and it is 0 exactly when there is no estimate or
   * the estimate's time rounds to no second at all.
   */
  function TimerProp(inputs: Estimator.Inputs): (p: Option<int>)
    requires inputs.dropRatePct >= 0.0
    ensures p.Some? && p.value >= 0
    ensures var r := Estimator.Estimate(inputs);
      p.value == 0 <==> r.None? || r.value.expectedKills == 0 || 2 * TimeFormat.SecondsPerHour * r.value.expectedKills < r.value.killsPerHr
  {
    var r := Estimator.Estimate(inputs);
    if r.None? then Some(Estimator.ShownSeconds(r))
    else
      Estimator.SecondsNeededZero(r.value.expectedKills, r.value.killsPerHr);
      Some(Estimator.ShownSeconds(r))
  }

  /**
   * A timer mounted from an estimate never shows a negative count, whatever
   * buttons are pressed and however often the estimate is recomputed.
   */
  lemma TimerFromEstimateNeverNegative(inputs: Estimator.Inputs, evs: seq<Timer.Event>)
    requires inputs.dropRatePct >= 0.0
    requires forall i :: 0 <= i < |evs| && evs[i].NewInitSeconds? ==>
      exists later: Estimator.Inputs :: later.dropRatePct >= 0.0 && evs[i].init == TimerProp(later)
    ensures Timer.Run(Timer.Mount(TimerProp(inputs)), evs).seconds >= 0
  {
    assert Timer.SaneProps(evs) by {
      forall i | 0 <= i < |evs| && evs[i].NewInitSeconds?
        ensures Timer.Seed(evs[i].init) >= 0
      {
        var later: Estimator.Inputs :| later.dropRatePct >= 0.0 && evs[i].init == TimerProp(later);
      }
    }
    Timer.StaysNonNegative(Timer.Mount(TimerProp(inputs)), evs);
  }

  /**
   * The timer keeps the count it was mounted with when a later estimate
   * changes its prop (the count is a state hook seeded once); only Reset loads
   * the newer estimate. App mounts the timer on its first render, before any
   * estimate exists, so an opened timer shows 0 until it is reset.
   */
  lemma TimerKeepsMountEstimate(first: Estimator.Inputs, later: Estimator.Inputs)
    requires first.dropRatePct >= 0.0 && later.dropRatePct >= 0.0
    ensures var mounted := Timer.Step(Timer.Mount(TimerProp(first)), Timer.NewInitSeconds(TimerProp(later)));
      mounted.seconds == Estimator.ShownSeconds(Estimator.Estimate(first)) &&
      Timer.Step(mounted, Timer.Reset).seconds == Estimator.ShownSeconds(Estimator.Estimate(later))
  {
    Timer.ResetUsesLatestProp(TimerProp(first), TimerProp(later));
  }

  /** On the first render every field is empty, so the mounted timer's count is 0. */
  lemma FirstRenderSeedsZero(mode: Estimator.InputMode)
    ensures Timer.Mount(TimerProp(Estimator.Inputs(0.0, mode, 0, 0, 0))).seconds == 0
  {
  }
}
