/**
 * The remembered state of the `SetTime()` composable and its lambdas, as an
 * object whose methods update its fields in place. Each method states its
 * whole new state and is proved to take the step TimerModel.Step describes.
 */
module Controller {
  import opened Options
  import opened TimeUnits
  import opened TimerModel
  import Display

  class TimerController {
    var setTime: nat
    var status: TimerStatus
    var remaining: nat
    var timer: Option<Countdown>

    function Snapshot(): State
      reads this
    {
      State(setTime, status, remaining, timer)
    }

    /** The text the screen shows for the current state. */
    function Text(): string
      reads this
    {
      Display.View(Snapshot())
    }

    constructor ()
      ensures Snapshot() == Initial
      ensures Text() == "00:00:00"
    {
      setTime, status, remaining, timer := 0, Stopped, 0, None;
      new;
      assert Display.ClockFields(0) == (0, 0, 0);
    }

    /** `onAddTime`: no guard on the status; the screen only offers it while stopped. */
    method AddTime(time: nat, unit: TimeUnit)
      modifies this
      ensures setTime == old(setTime) + ToSeconds(time, unit)
      ensures status == old(status) && remaining == old(remaining) && timer == old(timer)
      ensures Snapshot() == Step(old(Snapshot()), Event.AddTime(time, unit))
    {
      setTime := setTime + ToSeconds(time, unit);
    }

    /** The RESET lambda. */
    method Reset()
      modifies this
      ensures setTime == 0
      ensures status == old(status) && remaining == old(remaining) && timer == old(timer)
      ensures Snapshot() == Step(old(Snapshot()), Event.Reset)
    {
      setTime := 0;
    }

    /** `onStart`: a new countdown of the whole duration, ticking every 10 ms; no guard on a zero duration. */
    method Start()
      modifies this
      ensures timer == Some(Countdown(old(setTime) * 1000, TickIntervalMillis, false))
      ensures remaining == old(setTime) * 1000 && status == Started && setTime == old(setTime)
      ensures Snapshot() == Step(old(Snapshot()), Event.Start)
      ensures Text() == Display.Clock(setTime) + ".0"
    {
      timer := Some(Countdown(setTime * 1000, TickIntervalMillis, false));
      remaining := setTime * 1000;
      status := Started;
      Display.StartShowsConfigured(old(Snapshot()));
    }

    /** `onStop`: cancel the countdown if there is one, and stop. */
    method Stop()
      modifies this
      ensures timer == Cancel(old(timer)) && status == Stopped
      ensures setTime == old(setTime) && remaining == old(remaining)
      ensures Snapshot() == Step(old(Snapshot()), Event.Stop)
    {
      timer := Cancel(timer);
      status := Stopped;
    }

    /** The countdown's `onTick(p0)`. */
    method OnTick(millisUntilFinished: nat)
      modifies this
      ensures remaining == millisUntilFinished
      ensures setTime == old(setTime) && status == old(status) && timer == old(timer)
      ensures Snapshot() == Step(old(Snapshot()), Event.Tick(millisUntilFinished))
    {
      remaining := millisUntilFinished;
    }

    /** The countdown's `onFinish()`. */
    method OnFinish()
      modifies this
      ensures status == Stopped
      ensures setTime == old(setTime) && remaining == old(remaining) && timer == old(timer)
      ensures Snapshot() == Step(old(Snapshot()), Event.Finish)
    {
      status := Stopped;
    }
  }
}
