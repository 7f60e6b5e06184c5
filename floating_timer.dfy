/**
 * The floating timer: a countdown of `seconds` that a one-second interval
 * decrements (never below 0) while `running` is set. Start and Pause only set
 * `running`; Reset only puts `seconds` back to the `initSeconds` prop.
 */
module Timer {
  import opened Wrappers
  import opened JsMath
  import TimeFormat

  /** The timer's state: its two state hooks and the `initSeconds` prop it was last rendered with. */
  datatype TimerState = TimerState(seconds: int, running: bool, initSeconds: Option<int>)

  /**
   * What can happen to a mounted timer: the three buttons, one firing of the
   * interval, and a re-render of the host with a new `initSeconds` prop.
   */
  datatype Event = Start | Pause | Reset | Tick | NewInitSeconds(init: Option<int>)

  /** `initSeconds || 0`; `None` stands for a missing or NaN prop. */
  function Seed(init: Option<int>): (s: int)
    ensures init.None? ==> s == 0
    ensures init.Some? ==> s == init.value
  {
    match init
    case None => 0
    case Some(v) => v
  }

  /** The state a freshly mounted timer starts in: seeded and not running. */
  function Mount(init: Option<int>): (st: TimerState)
    ensures !st.running && st.initSeconds == init
    ensures st.seconds == Seed(st.initSeconds) && Step(st, Reset) == st
    ensures NonNegative(st) <==> Seed(init) >= 0
  {
    TimerState(Seed(init), false, init)
  }

  /** The interval's update `s => Math.max(0, s - 1)`, applied only while running. */
  function TickSeconds(seconds: int, running: bool): int {
    if running then Max(0, seconds - 1) else seconds
  }

  /**
   * One event. Each event touches only its own part of the state: the buttons
   * `running`, Reset and the interval `seconds`, a re-render the prop. Only
   * Reset can raise the count, and a paused timer's count moves only on Reset.
   */
  function Step(st: TimerState, ev: Event): (r: TimerState)
    ensures ev != Start && ev != Pause ==> r.running == st.running
    ensures !ev.NewInitSeconds? ==> r.initSeconds == st.initSeconds
    ensures ev.NewInitSeconds? ==> r.initSeconds == ev.init
    ensures ev == Reset ==> r.seconds == Seed(st.initSeconds)
    ensures ev != Reset ==> r.seconds <= Max(0, st.seconds) && (st.seconds >= 0 ==> r.seconds >= 0)
    ensures ev != Reset && !(ev == Tick && st.running) ==> r.seconds == st.seconds
  {
    match ev
    case Start => st.(running := true)
    case Pause => st.(running := false)
    case Reset => st.(seconds := Seed(st.initSeconds))
    case Tick => st.(seconds := TickSeconds(st.seconds, st.running))
    case NewInitSeconds(init) => st.(initSeconds := init)
  }

  /**
   * A sequence of events, in order. The prop afterwards is the last one the
   * events pass in, whatever follows it, or the starting one when they pass none.
   */
  function Run(st: TimerState, evs: seq<Event>): (r: TimerState)
    ensures (forall i :: 0 <= i < |evs| ==> !evs[i].NewInitSeconds?) ==> r.initSeconds == st.initSeconds
    ensures |evs| > 0 && evs[|evs| - 1].NewInitSeconds? ==> r.initSeconds == evs[|evs| - 1].init
    ensures forall j :: 0 <= j < |evs| && evs[j].NewInitSeconds? && (forall i :: j < i < |evs| ==> !evs[i].NewInitSeconds?) ==> r.initSeconds == evs[j].init
    decreases |evs|
  {
    if evs == [] then st
    else
      var rest := evs[1..];
      assert forall i :: 0 <= i < |rest| ==> rest[i] == evs[i + 1];
      Run(Step(st, evs[0]), rest)
  }

  /** `n` consecutive firings of the interval. */
  function Ticks(n: nat): (evs: seq<Event>)
    ensures |evs| == n && forall i :: 0 <= i < n ==> evs[i] == Tick
  {
    seq(n, _ => Tick)
  }

  /** The seconds left after `n` firings while running: `max(0, s - n)`, and `s` itself after none. */
  function Countdown(s: int, n: nat): int {
    if n == 0 then s else Max(0, s - n)
  }

  /** A timer never shows a negative count while its seed is not negative. */
  ghost predicate NonNegative(st: TimerState) {
    st.seconds >= 0 && Seed(st.initSeconds) >= 0
  }

  /** Every prop the host passes in the events seeds a non-negative count. */
  ghost predicate SaneProps(evs: seq<Event>) {
    forall i :: 0 <= i < |evs| && evs[i].NewInitSeconds? ==> Seed(evs[i].init) >= 0
  }

  /** Running `a` then `b` is running `a + b`. */
  lemma {:induction false} RunAppend(st: TimerState, a: seq<Event>, b: seq<Event>)
    ensures Run(st, a + b) == Run(Run(st, a), b)
    decreases |a|
  {
    if a == [] {
      assert a + b == b;
    } else {
      assert (a + b)[0] == a[0];
      assert (a + b)[1..] == a[1..] + b;
      RunAppend(Step(st, a[0]), a[1..], b);
    }
  }

  /**
   * `n` firings of the interval count a running timer down by `n`, stopping at
   * 0, and leave a paused timer alone; nothing but `seconds` changes.
   */
  lemma {:induction false} TicksCountDown(st: TimerState, n: nat)
    ensures Run(st, Ticks(n)) == st.(seconds := if st.running then Countdown(st.seconds, n) else st.seconds)
    decreases n
  {
    if n > 0 {
      var next := Step(st, Tick);
      assert Ticks(n)[0] == Tick;
      assert Ticks(n)[1..] == Ticks(n - 1);
      TicksCountDown(next, n - 1);
    }
  }

  /** A timer seeded with `total` and started shows `max(0, total - n)` after `n` seconds. */
  lemma {:induction false} StartedCountdown(total: nat, n: nat)
    ensures Run(Mount(Some(total)), [Start] + Ticks(n)).seconds == Max(0, total - n)
    ensures Run(Mount(Some(total)), [Start] + Ticks(n)).running
  {
    var started := Step(Mount(Some(total)), Start);
    RunAppend(Mount(Some(total)), [Start], Ticks(n));
    assert Run(Mount(Some(total)), [Start]) == started;
    TicksCountDown(started, n);
  }

  /** Whatever the events, a timer with a non-negative count and non-negative seeds never goes below 0. */
  lemma {:induction false} StaysNonNegative(st: TimerState, evs: seq<Event>)
    requires NonNegative(st) && SaneProps(evs)
    ensures NonNegative(Run(st, evs))
    decreases |evs|
  {
    if evs != [] {
      assert SaneProps(evs[1..]) by {
        forall i | 0 <= i < |evs[1..]| && evs[1..][i].NewInitSeconds?
          ensures Seed(evs[1..][i].init) >= 0
        {
          assert evs[1..][i] == evs[i + 1];
        }
      }
      assert evs[0].NewInitSeconds? ==> Seed(evs[0].init) >= 0;
      StaysNonNegative(Step(st, evs[0]), evs[1..]);
    }
  }

  /**
   * Only Reset raises the count: without one, the count never exceeds its
   * starting value (or 0), and a count of 0 or more stays 0 or more.
   */
  lemma {:induction false} OnlyResetRaises(st: TimerState, evs: seq<Event>)
    requires Reset !in evs
    ensures Run(st, evs).seconds <= Max(0, st.seconds)
    ensures st.seconds >= 0 ==> Run(st, evs).seconds >= 0
    decreases |evs|
  {
    if evs != [] {
      assert evs == [evs[0]] + evs[1..];
      OnlyResetRaises(Step(st, evs[0]), evs[1..]);
    }
  }

  /** A timer that has reached 0 stays at 0 until it is reset. */
  lemma ZeroStaysZero(st: TimerState, evs: seq<Event>)
    requires st.seconds == 0 && Reset !in evs
    ensures Run(st, evs).seconds == 0
  {
    OnlyResetRaises(st, evs);
  }

  /** Only Start and Pause change `running`. */
  lemma {:induction false} RunningOnlyByButtons(st: TimerState, evs: seq<Event>)
    requires Start !in evs && Pause !in evs
    ensures Run(st, evs).running == st.running
    decreases |evs|
  {
    if evs != [] {
      assert evs == [evs[0]] + evs[1..];
      RunningOnlyByButtons(Step(st, evs[0]), evs[1..]);
    }
  }

  /** A paused timer keeps its count until it is started or reset. */
  lemma {:induction false} PausedIsFrozen(st: TimerState, evs: seq<Event>)
    requires !st.running && Start !in evs && Reset !in evs
    ensures Run(st, evs).seconds == st.seconds
    ensures !Run(st, evs).running
    decreases |evs|
  {
    if evs != [] {
      assert evs == [evs[0]] + evs[1..];
      PausedIsFrozen(Step(st, evs[0]), evs[1..]);
    }
  }

  /**
   * Reset puts the count back to the CURRENT prop, which need not be the one
   * the timer was mounted with: a new prop alone does not re-seed the count.
   */
  lemma ResetUsesLatestProp(init0: Option<int>, init1: Option<int>)
    ensures Step(Mount(init0), NewInitSeconds(init1)).seconds == Seed(init0)
    ensures Run(Mount(init0), [NewInitSeconds(init1), Reset]).seconds == Seed(init1)
  {
    var st := Step(Mount(init0), NewInitSeconds(init1));
    assert Run(Mount(init0), [NewInitSeconds(init1), Reset]) == Run(st, [Reset]);
    assert Run(st, [Reset]) == Step(st, Reset);
  }

  /** The floating timer component: its state hooks and its current `initSeconds` prop. */
  class FloatingTimer {
    var seconds: int
    var running: bool
    var initSeconds: Option<int>

    /** The component's state as a value. */
    function State(): TimerState
      reads this
    {
      TimerState(seconds, running, initSeconds)
    }

    /** `useState(initSeconds || 0)` and `useState(false)` on mount. */
    constructor (init: Option<int>)
      ensures seconds == Seed(init) && !running && initSeconds == init
      ensures State() == Mount(init)
    {
      seconds := Seed(init);
      running := false;
      initSeconds := init;
    }

    /** `formatTime(seconds)`: the time the timer displays. */
    function Time(): (d: TimeFormat.Duration)
      reads this
      ensures d.h * TimeFormat.SecondsPerHour + d.m * TimeFormat.SecondsPerMinute + d.s == Max(0, seconds)
      ensures d.m < TimeFormat.SecondsPerMinute && d.s < TimeFormat.SecondsPerMinute
      ensures d.text == TimeFormat.Label(d.h, d.m, d.s)
    {
      RoundUnique(seconds as real, seconds);
      TimeFormat.FormatTime(Some(seconds as real))
    }

    /** The start button: `setRunning(true)`. */
    method Start()
      modifies this
      ensures running && seconds == old(seconds) && initSeconds == old(initSeconds)
      ensures State() == Step(old(State()), Event.Start)
    {
      running := true;
    }

    /** The pause button: `setRunning(false)`. */
    method Pause()
      modifies this
      ensures !running && seconds == old(seconds) && initSeconds == old(initSeconds)
      ensures State() == Step(old(State()), Event.Pause)
    {
      running := false;
    }

    /** The reset button: `setSeconds(initSeconds || 0)`; `running` is left as it is. */
    method Reset()
      modifies this
      ensures seconds == Seed(old(initSeconds)) && running == old(running) && initSeconds == old(initSeconds)
      ensures State() == Step(old(State()), Event.Reset)
    {
      seconds := Seed(initSeconds);
    }

    /** One firing of the interval, which exists only while `running` is set. */
    method Tick()
      modifies this
      ensures seconds == (if old(running) then Max(0, old(seconds) - 1) else old(seconds))
      ensures running == old(running) && initSeconds == old(initSeconds)
      ensures State() == Step(old(State()), Event.Tick)
    {
      if running {
        seconds := Max(0, seconds - 1);
      }
    }

    /** The host re-renders with a new prop; the `seconds` hook keeps its value. */
    method ReceiveInitSeconds(init: Option<int>)
      modifies this
      ensures initSeconds == init && seconds == old(seconds) && running == old(running)
      ensures State() == Step(old(State()), NewInitSeconds(init))
    {
      initSeconds := init;
    }

    /** `n` seconds pass with nothing pressed: the interval fires `n` times. */
    method Elapse(n: nat)
      modifies this
      ensures seconds == (if old(running) then Countdown(old(seconds), n) else old(seconds))
      ensures running == old(running) && initSeconds == old(initSeconds)
      ensures State() == Run(old(State()), Ticks(n))
    {
      var i := 0;
      while i < n
        invariant 0 <= i <= n
        invariant seconds == (if old(running) then Countdown(old(seconds), i) else old(seconds))
        invariant running == old(running) && initSeconds == old(initSeconds)
      {
        Tick();
        i := i + 1;
      }
      TicksCountDown(old(State()), n);
    }
  }
}
