/**
 * Which intents the screen offers in each status (`ActionButtons` and the
 * increment row of `SetTime(...)`), the increments of each `ButtonsColumn`,
 * and the labels `IncreaseTimeButton` puts on them.
 */
module Controls {
  import opened Options
  import opened Decimal
  import opened TimeUnits
  import opened TimerModel

  /** The amounts of one column of increment buttons, top to bottom. */
  const Increments: seq<nat> := [10, 5, 1]

  function Column(unit: TimeUnit): seq<Event> {
    [AddTime(Increments[0], unit), AddTime(Increments[1], unit), AddTime(Increments[2], unit)]
  }

  /** The hours, minutes and seconds columns, left to right. */
  function Grid(): seq<Event> {
    Column(Hours) + Column(Minutes) + Column(Seconds)
  }

  /** Column k of the grid is hours, minutes, seconds for k = 0, 1, 2, each offering +10, +5, +1 in that order. */
  lemma GridOrder(k: nat, i: nat)
    requires k < 3 && i < 3
    ensures |Grid()| == 9
    ensures Grid()[3 * k + i] == AddTime([10, 5, 1][i], [Hours, Minutes, Seconds][k])
  {
  }

  /** The intents the screen dispatches in a status: increments, RESET and START, or STOP alone. */
  function Intents(status: TimerStatus): (r: seq<Event>)
    ensures Start in r <==> status == Stopped
    ensures Stop in r <==> status == Started
    ensures Reset in r <==> status == Stopped
    ensures forall e | e in r :: e.AddTime? ==> status == Stopped && IsClockUnit(e.unit) && e.time in Increments
    ensures status == Stopped ==> forall i | 0 <= i < |Grid()| :: Grid()[i] in r
    ensures forall e | e in r :: !e.Tick? && !e.Finish?
  {
    match status
    case Stopped => Grid() + [Reset, Start]
    case Started => [Stop]
  }

  /** Exactly one of START and STOP is on screen. */
  lemma StartOrStop(status: TimerStatus)
    ensures (Start in Intents(status)) != (Stop in Intents(status))
  {
  }

  /** An event may happen now: the countdown's callbacks always, a user intent when it is offered. */
  predicate Permitted(status: TimerStatus, e: Event) {
    e.Tick? || e.Finish? || e in Intents(status)
  }

  /** Every event of `es`, taken in order from `s`, is permitted in the state it meets. */
  predicate Admissible(s: State, es: seq<Event>)
    decreases |es|
  {
    es == [] || (Permitted(s.status, es[0]) && Admissible(Step(s, es[0]), es[1..]))
  }

  /**
   * The lambdas themselves do not guard the duration, but through the screen
   * it cannot change while the countdown runs: until a Stop or a Finish, the
   * status stays Started and the duration stays as it was.
   */
  lemma {:induction false} DurationFrozenWhileStarted(s: State, es: seq<Event>)
    requires s.status == Started && Admissible(s, es)
    requires forall i | 0 <= i < |es| :: !Halts(es[i])
    ensures Run(s, es).setTime == s.setTime && Run(s, es).status == Started
    decreases |es|
  {
    if es != [] {
      assert es[0].Tick?;
      DurationFrozenWhileStarted(Step(s, es[0]), es[1..]);
    }
  }

  /** `"s"`, `"m"`, `"h"` for the clock units, nothing for any other. */
  function UnitSuffix(unit: TimeUnit): string {
    match unit
    case Hours => "h"
    case Minutes => "m"
    case Seconds => "s"
    case _ => ""
  }

  /** The text of an increment button. */
  function Label(time: nat, unit: TimeUnit): string {
    "+" + Digits(time) + UnitSuffix(unit)
  }

  function SuffixUnit(c: char): Option<TimeUnit> {
    if c == 'h' then Some(Hours)
    else if c == 'm' then Some(Minutes)
    else if c == 's' then Some(Seconds)
    else None
  }

  /** Reads a button label made of '+', digits and one unit letter back to its amount and unit. */
  function ParseLabel(text: string): Option<(nat, TimeUnit)> {
    var n := |text|;
    if n < 3 || text[0] != '+' || !AllDigits(text[1..n - 1]) then None
    else
      match SuffixUnit(text[n - 1])
      case None => None
      case Some(unit) => Some((ParseDigits(text[1..n - 1]), unit))
  }

  /** A clock-unit label reads back as the amount and unit the button adds. */
  lemma LabelRoundTrip(time: nat, unit: TimeUnit)
    requires IsClockUnit(unit)
    ensures ParseLabel(Label(time, unit)) == Some((time, unit))
  {
    var d := Digits(time);
    var c := if unit == Hours then 'h' else if unit == Minutes then 'm' else 's';
    assert UnitSuffix(unit) == [c];
    var text := "+" + d + [c];
    assert Label(time, unit) == text;
    assert text[1..|text| - 1] == d;
    assert text[|text| - 1] == c && SuffixUnit(c) == Some(unit);
    ParseDigitsOfDigits(time);
  }

  /** Any other unit gets a bare "+n" label that names no unit. */
  lemma OtherUnitLabel(time: nat, unit: TimeUnit)
    requires !IsClockUnit(unit)
    ensures Label(time, unit) == "+" + Digits(time)
    ensures ParseLabel(Label(time, unit)) == None
  {
    var d := Digits(time);
    assert (Label(time, unit))[|d|] == d[|d| - 1];
  }

  /** The nine buttons carry nine different labels. */
  lemma GridLabelsDistinct(i: nat, j: nat)
    requires i < j < |Grid()|
    ensures Label(Grid()[i].time, Grid()[i].unit) != Label(Grid()[j].time, Grid()[j].unit)
  {
    LabelRoundTrip(Grid()[i].time, Grid()[i].unit);
    LabelRoundTrip(Grid()[j].time, Grid()[j].unit);
  }

  lemma GridLabelsExample()
    ensures Label(10, Hours) == "+10h" && Label(5, Minutes) == "+5m" && Label(1, Seconds) == "+1s"
  {
    assert Digits(10) == "10";
  }

  /** `count` presses of one button. */
  function Repeat(count: nat, e: Event): (es: seq<Event>)
    ensures |es| == count && forall i | 0 <= i < count :: es[i] == e
    decreases count
  {
    if count == 0 then [] else [e] + Repeat(count - 1, e)
  }

  /** Presses of +1h, +1m and +1s that make up a duration of `t` seconds. */
  function Compose(t: nat): seq<Event> {
    var (h, m, s) := (t / 3600, t % 3600 / 60, t % 60);
    Repeat(h, AddTime(1, Hours)) + Repeat(m, AddTime(1, Minutes)) + Repeat(s, AddTime(1, Seconds))
  }

  lemma {:induction false} TotalRepeat(count: nat, e: Event)
    ensures Total(Repeat(count, e)) == count * Amount(e)
    decreases count
  {
    if count > 0 {
      var a, r := Amount(e), Repeat(count - 1, e);
      assert Repeat(count, e) == [e] + r;
      assert ([e] + r)[0] == e && ([e] + r)[1..] == r;
      TotalRepeat(count - 1, e);
      assert Total([e] + r) == a + (count - 1) * a;
      assert a + (count - 1) * a == count * a;
    }
  }

  /** Pressing only increment buttons from a stopped state is always permitted and keeps it stopped. */
  lemma {:induction false} GridPressesAdmissible(s: State, es: seq<Event>)
    requires s.status == Stopped
    requires forall i | 0 <= i < |es| :: es[i] in Grid()
    ensures Admissible(s, es) && Run(s, es).status == Stopped
    decreases |es|
  {
    if es != [] {
      GridPressesAdmissible(Step(s, es[0]), es[1..]);
    }
  }

  /** The presses of Compose are grid buttons and add up to `t` seconds. */
  lemma ComposeAddsUp(t: nat)
    ensures forall i | 0 <= i < |Compose(t)| :: Compose(t)[i] in Grid()
    ensures Total(Compose(t)) == t
  {
    var (h, m, sec) := (t / 3600, t % 3600 / 60, t % 60);
    var eh, em, es := AddTime(1, Hours), AddTime(1, Minutes), AddTime(1, Seconds);
    var a, b, c := Repeat(h, eh), Repeat(m, em), Repeat(sec, es);
    assert Compose(t) == a + b + c;
    assert Grid()[2] == eh && Grid()[5] == em && Grid()[8] == es;
    assert Amount(eh) == 3600 && Amount(em) == 60 && Amount(es) == 1;
    TotalAppend(a + b, c);
    TotalAppend(a, b);
    TotalRepeat(h, eh);
    TotalRepeat(m, em);
    TotalRepeat(sec, es);
    assert Total(Compose(t)) == h * 3600 + m * 60 + sec;
    assert h * 3600 + m * 60 + sec == t;
  }

  /** Every duration can be set through the screen: RESET, then increment buttons. */
  lemma AnyDurationComposable(s: State, t: nat)
    requires s.status == Stopped
    ensures Admissible(s, [Reset] + Compose(t))
    ensures Run(s, [Reset] + Compose(t)).setTime == t
  {
    var es := Compose(t);
    ComposeAddsUp(t);
    GridPressesAdmissible(Step(s, Reset), es);
    ResetThenAdds(s, es);
    assert ([Reset] + es)[0] == Reset && ([Reset] + es)[1..] == es;
  }
}
