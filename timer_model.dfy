/**
 * The state the `SetTime()` composable remembers and the effect of each of its
 * lambdas and of the two countdown callbacks, as a pure state machine. The
 * class in Controller is proved to follow it step by step.
 */
module TimerModel {
  import opened Options
  import opened TimeUnits

  datatype TimerStatus = Stopped | Started

  /** The tick period the screen asks of the platform countdown, in milliseconds. */
  const TickIntervalMillis: nat := 10

  /**
   * What the model keeps of a platform `CountDownTimer`: the arguments it was
   * created with and whether `cancel()` has been called on it. Its scheduling
   * is the environment's.
   */
  datatype Countdown = Countdown(millisInFuture: nat, countDownInterval: nat, cancelled: bool)

  /** `setTime` in seconds, `status`, `remaining` in milliseconds, and the `timer` handle. */
  datatype State = State(setTime: nat, status: TimerStatus, remaining: nat, timer: Option<Countdown>)

  /** The values the remembered state starts with. */
  const Initial: State := State(0, Stopped, 0, None)

  /**
   * The user intents the screen forwards (add time, reset, start, stop) and
   * the two callbacks the platform countdown delivers (tick, finish).
   */
  datatype Event =
    | AddTime(time: nat, unit: TimeUnit)
    | Reset
    | Start
    | Stop
    | Tick(millisUntilFinished: nat)
    | Finish

  /** `timer?.cancel()`. */
  function Cancel(timer: Option<Countdown>): Option<Countdown> {
    match timer
    case None => None
    case Some(c) => Some(c.(cancelled := true))
  }

  function Step(s: State, e: Event): State {
    match e
    case AddTime(time, unit) => s.(setTime := s.setTime + ToSeconds(time, unit))
    case Reset => s.(setTime := 0)
    case Start =>
      State(s.setTime, Started, s.setTime * 1000,
            Some(Countdown(s.setTime * 1000, TickIntervalMillis, false)))
    case Stop => s.(timer := Cancel(s.timer), status := Stopped)
    case Tick(v) => s.(remaining := v)
    case Finish => s.(status := Stopped)
  }

  /** The state after the events of `es`, first to last. */
  function Run(s: State, es: seq<Event>): State
    decreases |es|
  {
    if es == [] then s else Run(Step(s, es[0]), es[1..])
  }

  predicate WritesSetTime(e: Event) { e.AddTime? || e.Reset? }
  predicate WritesRemaining(e: Event) { e.Start? || e.Tick? }
  predicate WritesStatus(e: Event) { e.Start? || e.Stop? || e.Finish? }
  predicate Halts(e: Event) { e.Stop? || e.Finish? }

  /** Seconds an event adds to the configured duration. */
  function Amount(e: Event): nat {
    if e.AddTime? then ToSeconds(e.time, e.unit) else 0
  }

  /** Sum of the seconds the events of `es` add. */
  function Total(es: seq<Event>): nat
    decreases |es|
  {
    if es == [] then 0 else Amount(es[0]) + Total(es[1..])
  }

  // ---- one event at a time ----

  lemma AddTimeEffect(s: State, time: nat, unit: TimeUnit)
    ensures var r := Step(s, AddTime(time, unit));
      && (unit == Hours ==> r.setTime == s.setTime + time * 3600)
      && (unit == Minutes ==> r.setTime == s.setTime + time * 60)
      && (unit == Seconds ==> r.setTime == s.setTime + time)
      && r.status == s.status && r.remaining == s.remaining && r.timer == s.timer
  {
  }

  lemma ResetEffect(s: State)
    ensures var r := Step(s, Reset);
      r.setTime == 0 && r.status == s.status && r.remaining == s.remaining && r.timer == s.timer
  {
  }

  /** There is no guard on the configured duration: a zero duration starts a zero-length countdown. */
  lemma StartEffect(s: State)
    ensures var r := Step(s, Start);
      && r.status == Started && r.setTime == s.setTime && r.remaining == s.setTime * 1000
      && r.timer == Some(Countdown(s.setTime * 1000, TickIntervalMillis, false))
  {
  }

  lemma TickEffect(s: State, v: nat)
    ensures Step(s, Tick(v)) == s.(remaining := v)
  {
  }

  lemma FinishEffect(s: State)
    ensures var r := Step(s, Finish);
      r.status == Stopped && r.setTime == s.setTime && r.remaining == s.remaining && r.timer == s.timer
  {
  }

  /** Stop stops from either status, keeps the duration and the remaining time, and is idempotent. */
  lemma StopEffect(s: State)
    ensures var r := Step(s, Stop);
      && r.status == Stopped && r.setTime == s.setTime && r.remaining == s.remaining
      && (s.timer.None? <==> r.timer.None?)
      && (r.timer.Some? ==> r.timer.value.cancelled)
      && Step(r, Stop) == r
  {
  }

  // ---- traces ----

  lemma {:induction false} RunAppend(s: State, a: seq<Event>, b: seq<Event>)
    ensures Run(s, a + b) == Run(Run(s, a), b)
    decreases |a|
  {
    if a != [] {
      assert (a + b)[0] == a[0];
      assert (a + b)[1..] == a[1..] + b;
      RunAppend(Step(s, a[0]), a[1..], b);
    } else {
      assert a + b == b;
    }
  }

  lemma RunSnoc(s: State, es: seq<Event>, e: Event)
    ensures Run(s, es + [e]) == Step(Run(s, es), e)
  {
    RunAppend(s, es, [e]);
    assert Run(Run(s, es), [e]) == Run(Step(Run(s, es), e), []);
  }

  lemma {:induction false} TotalAppend(a: seq<Event>, b: seq<Event>)
    ensures Total(a + b) == Total(a) + Total(b)
    decreases |a|
  {
    if a != [] {
      assert (a + b)[0] == a[0];
      assert (a + b)[1..] == a[1..] + b;
      TotalAppend(a[1..], b);
    } else {
      assert a + b == b;
    }
  }

  /**
   * After any sequence of additions the configured duration has grown by
   * exactly the sum of the converted amounts, and nothing else has changed.
   */
  lemma {:induction false} AddsAccumulate(s: State, es: seq<Event>)
    requires forall i | 0 <= i < |es| :: es[i].AddTime?
    ensures Run(s, es) == s.(setTime := s.setTime + Total(es))
    decreases |es|
  {
    if es != [] {
      AddsAccumulate(Step(s, es[0]), es[1..]);
    }
  }

  /** Resetting and then adding leaves exactly the sum of what was added. */
  lemma ResetThenAdds(s: State, es: seq<Event>)
    requires forall i | 0 <= i < |es| :: es[i].AddTime?
    ensures Run(s, [Reset] + es).setTime == Total(es)
  {
    assert ([Reset] + es)[0] == Reset && ([Reset] + es)[1..] == es;
    AddsAccumulate(Step(s, Reset), es);
  }

  /**
   * A field changes only through the events that write it: the duration only
   * through AddTime and Reset, the remaining time only through Start and Tick,
   * the status only through Start, Stop and Finish.
   */
  lemma {:induction false} Frames(s: State, es: seq<Event>)
    ensures (forall i | 0 <= i < |es| :: !WritesSetTime(es[i])) ==> Run(s, es).setTime == s.setTime
    ensures (forall i | 0 <= i < |es| :: !WritesRemaining(es[i])) ==> Run(s, es).remaining == s.remaining
    ensures (forall i | 0 <= i < |es| :: !WritesStatus(es[i])) ==> Run(s, es).status == s.status
    decreases |es|
  {
    if es != [] {
      Frames(Step(s, es[0]), es[1..]);
      assert forall i | 0 <= i < |es| - 1 :: es[1..][i] == es[i + 1];
    }
  }

  /**
   * The status is Started exactly when the last status-changing event was a
   * Start, or when there was none and it was Started to begin with.
   */
  ghost predicate StartedAfter(initial: TimerStatus, es: seq<Event>) {
    || (exists i | 0 <= i < |es| :: es[i].Start? && forall j | i < j < |es| :: !Halts(es[j]))
    || (initial == Started && forall j | 0 <= j < |es| :: !WritesStatus(es[j]))
  }

  lemma {:induction false} StatusFollowsLastControl(s: State, es: seq<Event>)
    ensures Run(s, es).status == Started <==> StartedAfter(s.status, es)
    decreases |es|
  {
    if es != [] {
      var n := |es|;
      var p, e := es[..n - 1], es[n - 1];
      assert es == p + [e];
      StatusFollowsLastControl(s, p);
      RunSnoc(s, p, e);
      if e.Start? {
        assert es[n - 1].Start?;
      } else if Halts(e) {
        forall i | 0 <= i < n && es[i].Start?
          ensures exists j | i < j < n :: Halts(es[j])
        {
          assert i < n - 1 && Halts(es[n - 1]);
        }
      } else {
        assert forall j | 0 <= j < n - 1 :: p[j] == es[j];
        if StartedAfter(s.status, es) {
          if i :| 0 <= i < n && es[i].Start? && forall j | i < j < n :: !Halts(es[j]) {
            assert i < n - 1 && p[i].Start?;
            assert forall j | i < j < n - 1 :: !Halts(p[j]);
          }
          assert StartedAfter(s.status, p);
        }
        if StartedAfter(s.status, p) {
          if i :| 0 <= i < n - 1 && p[i].Start? && forall j | i < j < n - 1 :: !Halts(p[j]) {
            assert es[i].Start? && forall j | i < j < n :: !Halts(es[j]);
          }
          assert StartedAfter(s.status, es);
        }
      }
    }
  }
}
