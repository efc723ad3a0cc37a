/**
 * The time text the `SetTime(...)` composable shows: `HH:MM:SS` of the
 * configured duration while stopped, `HH:MM:SS.d` of the remaining time while
 * started. A reader that takes such a text back to a number shows that the
 * rendering loses nothing but the sub-decisecond part.
 */
module Display {
  import opened Options
  import opened Decimal
  import opened TimerModel

  /** Whole hours, minutes within the hour and seconds within the minute of `t` seconds. */
  function ClockFields(t: nat): (f: (nat, nat, nat))
    ensures f.1 < 60 && f.2 < 60
    ensures f.0 * 3600 + f.1 * 60 + f.2 == t
  {
    (t / 3600, t % 3600 / 60, t % 60)
  }

  /** `"%02d:%02d:%02d"` of the fields; the hours field is not wrapped at 24. */
  function Clock(t: nat): string {
    var (h, m, s) := ClockFields(t);
    Pad2(h) + ":" + Pad2(m) + ":" + Pad2(s)
  }

  /** The running text: the clock of the whole seconds left, a dot, and the decisecond digit. */
  function RunningText(remaining: nat): string {
    Clock(remaining / 1000) + "." + Digits(remaining % 1000 / 100)
  }

  /** The `when (status)` block. */
  function Render(status: TimerStatus, setTime: nat, remaining: nat): string {
    match status
    case Stopped => Clock(setTime)
    case Started => RunningText(remaining)
  }

  function View(s: State): string {
    Render(s.status, s.setTime, s.remaining)
  }

  /** Reads an `H..H:MM:SS` text (at least two hour digits) back to seconds. */
  function ParseClock(text: string): Option<nat> {
    var n := |text|;
    if n < 8 || text[n - 6] != ':' || text[n - 3] != ':' then None
    else
      var hh, mm, ss := text[..n - 6], text[n - 5..n - 3], text[n - 2..];
      if !(AllDigits(hh) && AllDigits(mm) && AllDigits(ss)) then None
      else
        var h, m, s := ParseDigits(hh), ParseDigits(mm), ParseDigits(ss);
        if m < 60 && s < 60 then Some(h * 3600 + m * 60 + s) else None
  }

  /** Reads an `H..H:MM:SS.d` text back to deciseconds. */
  function ParseRunning(text: string): Option<nat> {
    var n := |text|;
    if n < 2 || text[n - 2] != '.' || !IsDigit(text[n - 1]) then None
    else
      match ParseClock(text[..n - 2])
      case None => None
      case Some(secs) => Some(secs * 10 + DigitValue(text[n - 1]))
  }

  /**
   * The stopped text is two-digit minutes and seconds after an hours field of
   * at least two digits, and reads back as exactly the configured seconds.
   */
  lemma ClockRoundTrip(t: nat)
    ensures |Clock(t)| == |Pad2(t / 3600)| + 6
    ensures ParseClock(Clock(t)) == Some(t)
  {
    var (h, m, s) := ClockFields(t);
    var text := Clock(t);
    var n := |text|;
    assert |Pad2(m)| == 2 && |Pad2(s)| == 2;
    assert text[..n - 6] == Pad2(h);
    assert text[n - 5..n - 3] == Pad2(m);
    assert text[n - 2..] == Pad2(s);
  }

  /** Two durations are shown alike only when they are equal. */
  lemma ClockInjective(a: nat, b: nat)
    requires Clock(a) == Clock(b)
    ensures a == b
  {
    ClockRoundTrip(a);
    ClockRoundTrip(b);
  }

  /** The stopped text is exactly eight characters long precisely below 100 hours. */
  lemma ClockWidth(t: nat)
    ensures |Clock(t)| == 8 <==> t < 360000
  {
    ClockRoundTrip(t);
  }

  lemma DecisecondSplit(r: nat)
    ensures r / 1000 * 10 + r % 1000 / 100 == r / 100
  {
    var q, k := r / 1000, r % 1000;
    assert r == 100 * (10 * q + k / 100) + k % 100;
  }

  /**
   * The running text is the clock of the whole seconds left, a dot and one
   * digit 0..9, and reads back as the remaining time in whole deciseconds.
   */
  lemma RunningRoundTrip(r: nat)
    ensures r % 1000 / 100 < 10
    ensures |RunningText(r)| == |Clock(r / 1000)| + 2
    ensures RunningText(r)[..|RunningText(r)| - 2] == Clock(r / 1000)
    ensures RunningText(r)[|RunningText(r)| - 1] == DigitChar(r % 1000 / 100)
    ensures ParseRunning(RunningText(r)) == Some(r / 100)
  {
    var text := RunningText(r);
    var n := |text|;
    assert text[..n - 2] == Clock(r / 1000);
    ClockRoundTrip(r / 1000);
    DecisecondSplit(r);
  }

  /** What the screen shows reads back as the configured seconds when stopped, the remaining deciseconds when started. */
  lemma RenderReadsBack(status: TimerStatus, setTime: nat, remaining: nat)
    ensures status == Stopped ==> ParseClock(Render(status, setTime, remaining)) == Some(setTime)
    ensures status == Started ==> ParseRunning(Render(status, setTime, remaining)) == Some(remaining / 100)
  {
    ClockRoundTrip(setTime);
    RunningRoundTrip(remaining);
  }

  lemma StoppedExample()
    ensures Clock(3661) == "01:01:01"
  {
    assert ClockFields(3661) == (1, 1, 1);
  }

  lemma RunningExample()
    ensures RunningText(3725000) == "01:02:05.0"
  {
    assert ClockFields(3725) == (1, 2, 5);
  }

  /** Right after Start the screen shows the configured duration followed by ".0". */
  lemma StartShowsConfigured(s: State)
    ensures View(Step(s, Start)) == Clock(s.setTime) + ".0"
  {
    var t := s.setTime;
    assert t * 1000 / 1000 == t;
    assert t * 1000 % 1000 == 0;
  }

  /** Once finished or stopped, the screen shows the configured duration again. */
  lemma HaltShowsConfigured(s: State, e: Event)
    requires Halts(e)
    ensures View(Step(s, e)) == Clock(s.setTime)
  {
  }
}
