/**
 When a pulse next runs: the first moment from the current minute on that the schedule and the
 active hours allow, read in a timezone that keeps one offset.
 */
module PulseSchedule {
  import opened Util
  import opened Reading

  /** A span of the day in minutes, from `start` up to `end`, overnight when `start` is the later. */
  datatype Window = Window(start: nat, end: nat)

  /** `lastRun` is the instant of the last run in milliseconds. */
  datatype Pulse = Pulse(enabled: bool, schedule: Option<string>, activeHours: Option<string>, lastRun: Option<int>)

  // ---- Reading a schedule and its hours ----------------------------------------------------

  /** So many of a unit in milliseconds. */
  function UnitsMs(value: nat, unit: char): Option<nat>
  {
    match unit
    case 's' => Some(value * 1000)
    case 'm' => Some(value * 60_000)
    case 'h' => Some(value * 3_600_000)
    case 'd' => Some(value * 86_400_000)
    case _ => None
  }

  function ScheduleMs(schedule: string): Option<nat>
  {
    if |schedule| < 2 then None
    else
      var value := Number(schedule[..|schedule| - 1]);
      if value.None? || value.value == 0 then None else UnitsMs(value.value, schedule[|schedule| - 1])
  }

  /** The minute of the day an hour and minute name, if they do. */
  function TimeOf(hour: nat, minute: nat): Option<nat>
  {
    if hour > 23 || minute > 59 then None else Some(hour * 60 + minute)
  }

  /** `<hour>:<minute>` in minutes; hours and minutes of no day are refused. */
  function ParseTime(s: string): Option<nat>
  {
    var colon := IndexOf(':', s);
    if colon.None? || colon.value == 0 || colon.value == |s| - 1 then None
    else
      var hour, minute := Number(s[..colon.value]), Number(s[colon.value + 1..]);
      if hour.None? || minute.None? then None else TimeOf(hour.value, minute.value)
  }

  function ParseActiveHours(hours: string): Option<Window>
  {
    var dash := IndexOf('-', hours);
    if dash.None? then None
    else WindowFrom(ParseTime(hours[..dash.value]), ParseTime(hours[dash.value + 1..]))
  }

  function WindowFrom(start: Option<nat>, end: Option<nat>): Option<Window>
  {
    if start.None? || end.None? then None else Some(Window(start.value, end.value))
  }

  /** A written duration reads as what it says, when it is more than nothing. */
  lemma ScheduleRead(n: nat, unit: char)
    ensures ScheduleMs(Digits(n) + [unit])
         == if n == 0 then None
            else if unit == 's' then Some(n * 1000)
            else if unit == 'm' then Some(n * 60_000)
            else if unit == 'h' then Some(n * 3_600_000)
            else if unit == 'd' then Some(n * 86_400_000)
            else None
  {
    DigitsRead(n);
    DigitsOnly(n);
    assert (Digits(n) + [unit])[..|Digits(n)|] == Digits(n);
  }

  /** A schedule is accepted exactly when it is digits, of more than nothing, and a unit. */
  lemma ScheduleAcceptedIff(schedule: string)
    ensures ScheduleMs(schedule).Some? <==>
      && |schedule| >= 2 && (forall i :: 0 <= i < |schedule| - 1 ==> '0' <= schedule[i] <= '9')
      && (exists i :: 0 <= i < |schedule| - 1 && schedule[i] != '0')
      && var unit := schedule[|schedule| - 1]; (unit == 's' || unit == 'm' || unit == 'h' || unit == 'd')
  {
    if |schedule| >= 2 {
      var digits := schedule[..|schedule| - 1];
      NumberIff(digits);
      ZeroIff(digits);
      assert forall i :: 0 <= i < |digits| ==> digits[i] == schedule[i];
    }
  }

  lemma {:induction false} ZeroIff(s: string)
    ensures Number(s) == Some(0) <==> forall i :: 0 <= i < |s| ==> s[i] == '0'
  {
    if s != "" {
      ZeroIff(s[..|s| - 1]);
      assert forall i :: 0 <= i < |s| - 1 ==> s[..|s| - 1][i] == s[i];
      if IsDigit(s[|s| - 1]) {
        assert DigitValue(s[|s| - 1]) == 0 <==> s[|s| - 1] == '0';
      }
    }
  }

  function TimeText(hour: nat, minute: nat): string
  {
    Digits(hour) + [':'] + Digits(minute)
  }

  lemma TimeReads(hour: string, minute: string)
    requires ':' !in hour && hour != "" && minute != ""
    ensures ParseTime(hour + [':'] + minute) ==
      if Number(hour).None? || Number(minute).None? then None else TimeOf(Number(hour).value, Number(minute).value)
  {
    FirstOccurrence(':', hour, minute);
    Parted(hour, ':', minute);
  }

  lemma TimeRead(hour: nat, minute: nat)
    ensures ParseTime(TimeText(hour, minute)) == TimeOf(hour, minute)
    ensures '-' !in TimeText(hour, minute)
  {
    DigitsRead(hour);
    DigitsOnly(hour);
    DigitsRead(minute);
    DigitsOnly(minute);
    TimeReads(Digits(hour), Digits(minute));
  }

  lemma HoursReads(start: string, end: string)
    requires '-' !in start
    ensures ParseActiveHours(start + ['-'] + end) == WindowFrom(ParseTime(start), ParseTime(end))
  {
    FirstOccurrence('-', start, end);
    Parted(start, '-', end);
  }

  lemma WindowOfTimes(startHour: nat, startMinute: nat, endHour: nat, endMinute: nat)
    ensures WindowFrom(TimeOf(startHour, startMinute), TimeOf(endHour, endMinute))
         == if startHour <= 23 && startMinute <= 59 && endHour <= 23 && endMinute <= 59
            then Some(Window(startHour * 60 + startMinute, endHour * 60 + endMinute))
            else None
  {
  }

  /** Written hours read as the window they say, when both ends are times of a day. */
  lemma {:induction false} HoursRead(startHour: nat, startMinute: nat, endHour: nat, endMinute: nat)
    ensures ParseActiveHours(TimeText(startHour, startMinute) + ['-'] + TimeText(endHour, endMinute))
         == if startHour <= 23 && startMinute <= 59 && endHour <= 23 && endMinute <= 59
            then Some(Window(startHour * 60 + startMinute, endHour * 60 + endMinute))
            else None
  {
    TimeRead(startHour, startMinute);
    TimeRead(endHour, endMinute);
    WindowOfTimes(startHour, startMinute, endHour, endMinute);
    HoursReads(TimeText(startHour, startMinute), TimeText(endHour, endMinute));
  }

  /** Digits, and at least one. */
  predicate IsDigits(s: string)
  {
    s != "" && forall i :: 0 <= i < |s| ==> '0' <= s[i] <= '9'
  }

  /** Two numbers with a colon between them, leading zeros or not, say a time. */
  ghost predicate TimeSays(s: string, time: nat)
  {
    exists hour, minute :: IsDigits(hour) && IsDigits(minute) && s == hour + ":" + minute && MinutesOf(hour, minute, time)
  }

  ghost predicate MinutesOf(hour: string, minute: string, time: nat)
  {
    && Number(hour).Some? && Number(minute).Some?
    && time == Number(hour).value * 60 + Number(minute).value
  }

  lemma TimeForm(s: string)
    requires ParseTime(s).Some?
    ensures TimeSays(s, ParseTime(s).value)
  {
    var colon := IndexOf(':', s).value;
    var hour, minute := s[..colon], s[colon + 1..];
    NumberIff(hour);
    NumberIff(minute);
    assert s == hour + ":" + minute && MinutesOf(hour, minute, ParseTime(s).value);
  }

  /** Hours that are accepted are two times with a dash between them, and mean what those say. */
  lemma HoursForm(hours: string) returns (start: string, end: string)
    requires ParseActiveHours(hours).Some?
    ensures hours == start + "-" + end
    ensures var window := ParseActiveHours(hours).value; TimeSays(start, window.start) && TimeSays(end, window.end)
  {
    start, end := HoursParts(hours);
    TimeForm(start);
    TimeForm(end);
  }

  lemma HoursParts(hours: string) returns (start: string, end: string)
    requires ParseActiveHours(hours).Some?
    ensures hours == start + "-" + end
    ensures var window := ParseActiveHours(hours).value;
            ParseTime(start) == Some(window.start) && ParseTime(end) == Some(window.end)
  {
    var dash := IndexOf('-', hours).value;
    start, end := hours[..dash], hours[dash + 1..];
  }

  lemma HoursAreOfADay(hours: string)
    ensures ParseActiveHours(hours).Some? ==> OfADay(ParseActiveHours(hours).value)
  {
  }

  predicate OfADay(window: Window)
  {
    window.start < 1440 && window.end < 1440
  }

  predicate Whole(ms: int)
  {
    ms % 1000 == 0
  }

  lemma ThousandsWhole(n: nat)
    ensures Whole(n * 1000)
  {
  }

  lemma UnitsWhole(value: nat, unit: char)
    requires UnitsMs(value, unit).Some?
    ensures Whole(UnitsMs(value, unit).value) && (value > 0 ==> UnitsMs(value, unit).value > 0)
  {
    ThousandsWhole(value);
    ThousandsWhole(value * 60);
    ThousandsWhole(value * 3600);
    ThousandsWhole(value * 86_400);
  }

  lemma WholeSeconds(schedule: string)
    ensures ScheduleMs(schedule).Some? ==> ScheduleMs(schedule).value > 0 && Whole(ScheduleMs(schedule).value)
  {
    if ScheduleMs(schedule).Some? {
      UnitsWhole(Number(schedule[..|schedule| - 1]).value, schedule[|schedule| - 1]);
    }
  }

  // ---- The calculation ---------------------------------------------------------------------

  /** The start of the second, the minute and the day a moment is in. */
  function FloorSecond(ms: int): int
  {
    ms / 1000 * 1000
  }

  function FloorMinute(ms: int): int
  {
    ms / 60_000 * 60_000
  }

  function FloorDay(ms: int): int
  {
    ms / 86_400_000 * 86_400_000
  }

  /** The wall clock at an instant, which shows whole seconds. */
  function LocalMs(offset: int, instant: int): int
  {
    FloorSecond(instant) + offset
  }

  function InstantOfLocal(offset: int, local: int): int
  {
    local - offset
  }

  /** Moves `local` forward to the window, today or tomorrow, unless it is inside it. */
  function IntoActiveHours(local: int, window: Window): Option<int>
  {
    if window.start == window.end then None
    else
      var day := FloorDay(local);
      var opensToday := day + window.start * 60_000;
      if Open(window, local - day) then Some(local)
      else Some(if local < opensToday then opensToday else opensToday + 86_400_000)
  }

  /** Whether the window is open `time` milliseconds into the day. */
  predicate Open(window: Window, time: int)
  {
    if window.start < window.end then window.start * 60_000 <= time < window.end * 60_000
    else window.start * 60_000 <= time || time < window.end * 60_000
  }

  function NextPulseRun(pulse: Pulse, now: int, offset: int): Option<int>
  {
    var interval := if pulse.schedule.None? then None else ScheduleMs(pulse.schedule.value);
    var window := if pulse.activeHours.None? then None else ParseActiveHours(pulse.activeHours.value);
    if !pulse.enabled || interval.None? || (pulse.activeHours.Some? && window.None?) then None
    else
      var thisMinute := FloorMinute(now);
      var nowLocal := LocalMs(offset, thisMinute);
      RunFrom(thisMinute, nowLocal, DueLocal(pulse.lastRun, interval.value, nowLocal, offset), window, offset)
  }

  function DueLocal(lastRun: Option<int>, interval: nat, nowLocal: int, offset: int): int
  {
    if lastRun.None? then nowLocal else Max(LocalMs(offset, lastRun.value) + interval, nowLocal)
  }

  function RunFrom(thisMinute: int, nowLocal: int, due: int, window: Option<Window>, offset: int): Option<int>
  {
    var at := FirstAllowed(due, window);
    if at.None? then None
    else Some(if at.value <= nowLocal then thisMinute else InstantOfLocal(offset, at.value))
  }

  /** The first moment from `due` on that the hours, if any, allow. */
  function FirstAllowed(due: int, window: Option<Window>): Option<int>
  {
    if window.None? then Some(due) else IntoActiveHours(due, window.value)
  }

  function Max(a: int, b: int): int
  {
    if a < b then b else a
  }

  // ---- What it promises --------------------------------------------------------------------

  /** Inside the hours, on any day. */
  predicate InHours(window: Window, local: int)
  {
    var time := local % 86_400_000;
    if window.start < window.end then window.start * 60_000 <= time < window.end * 60_000
    else window.start > window.end && (time >= window.start * 60_000 || time < window.end * 60_000)
  }

  /** The pulse runs at all: enabled, with a schedule and hours that are accepted and sometimes open. */
  predicate EverRuns(pulse: Pulse)
  {
    && pulse.enabled && pulse.schedule.Some? && ScheduleMs(pulse.schedule.value).Some?
    && (pulse.activeHours.Some? ==> WindowOf(pulse).Some? && WindowOf(pulse).value.start != WindowOf(pulse).value.end)
  }

  function WindowOf(pulse: Pulse): Option<Window>
  {
    if pulse.activeHours.None? then None else ParseActiveHours(pulse.activeHours.value)
  }

  function Interval(pulse: Pulse): nat
    requires EverRuns(pulse)
  {
    ScheduleMs(pulse.schedule.value).value
  }

  predicate Allowed(window: Option<Window>, local: int)
  {
    window.Some? ==> InHours(window.value, local)
  }

  /** The end of the schedule since the last run, counted from the second the last run was in. */
  predicate IntervalOver(lastRun: Option<int>, interval: nat, t: int)
  {
    lastRun.Some? ==> t >= FloorSecond(lastRun.value) + interval
  }

  /** An instant the pulse can run at. */
  predicate CanRun(pulse: Pulse, now: int, offset: int, t: int)
    requires EverRuns(pulse)
  {
    && FloorMinute(now) <= t
    && IntervalOver(pulse.lastRun, Interval(pulse), t)
    && Allowed(WindowOf(pulse), LocalMs(offset, t))
  }

  // ---- The hours ---------------------------------------------------------------------------

  lemma WholeIs(ms: int, seconds: int)
    requires ms == 1000 * seconds
    ensures Whole(ms)
  {
  }

  lemma SecondIs(ms: int, start: int)
    requires Whole(start) && start <= ms < start + 1000
    ensures FloorSecond(ms) == start
  {
  }

  lemma SecondBounds(ms: int)
    ensures Whole(FloorSecond(ms)) && FloorSecond(ms) <= ms < FloorSecond(ms) + 1000
  {
  }

  lemma MinuteBounds(ms: int)
    ensures Whole(FloorMinute(ms)) && FloorMinute(ms) <= ms < FloorMinute(ms) + 60_000
  {
  }

  lemma DayBounds(ms: int)
    ensures FloorDay(ms) % 86_400_000 == 0 && Whole(FloorDay(ms)) && FloorDay(ms) <= ms < FloorDay(ms) + 86_400_000
  {
    WholeIs(FloorDay(ms), ms / 86_400_000 * 86_400);
  }

  /** The time of day of a moment of one day or the next. */
  lemma TimeOfDay(day: int, ms: int)
    requires day % 86_400_000 == 0 && day <= ms < day + 2 * 86_400_000
    ensures ms % 86_400_000 == if ms < day + 86_400_000 then ms - day else ms - day - 86_400_000
  {
  }

  lemma WholeSum(a: int, b: int)
    requires Whole(a) && Whole(b)
    ensures Whole(a + b) && Whole(a - b)
  {
    var p, q := a / 1000, b / 1000;
    assert a == 1000 * p && b == 1000 * q;
    WholeIs(a + b, p + q);
    WholeIs(a - b, p - q);
  }

  /** The moment found is the first one inside the hours, overnight hours included. */
  lemma IntoHoursIsLeast(local: int, window: Window, x: int)
    requires OfADay(window)
    ensures IntoActiveHours(local, window).None? <==> window.start == window.end
    ensures IntoActiveHours(local, window).Some? ==>
              local <= IntoActiveHours(local, window).value && InHours(window, IntoActiveHours(local, window).value)
    ensures IntoActiveHours(local, window).Some? && local <= x && InHours(window, x) ==>
              IntoActiveHours(local, window).value <= x
  {
    var day := FloorDay(local);
    DayBounds(local);
    TimeOfDay(day, local);
    var at := IntoActiveHours(local, window);
    if at.Some? {
      TimeOfDay(day, at.value);
      if local <= x < at.value {
        TimeOfDay(day, x);
      }
    }
  }

  lemma IntoHoursIsWhole(local: int, window: Window)
    requires Whole(local) && IntoActiveHours(local, window).Some?
    ensures Whole(IntoActiveHours(local, window).value)
  {
    DayBounds(local);
    WholeIs(window.start * 60_000, window.start * 60);
    WholeSum(FloorDay(local), window.start * 60_000);
    WholeSum(FloorDay(local) + window.start * 60_000, 86_400_000);
  }

  /** A window the pulse's hours can be: one that opens. */
  predicate Opens(window: Option<Window>)
  {
    window.Some? ==> OfADay(window.value) && window.value.start != window.value.end
  }

  lemma FirstAllowedIsLeast(due: int, window: Option<Window>, x: int)
    requires Opens(window)
    ensures FirstAllowed(due, window).Some?
    ensures due <= FirstAllowed(due, window).value && Allowed(window, FirstAllowed(due, window).value)
    ensures due <= x && Allowed(window, x) ==> FirstAllowed(due, window).value <= x
  {
    if window.Some? {
      IntoHoursIsLeast(due, window.value, x);
    }
  }

  lemma FirstAllowedIsWhole(due: int, window: Option<Window>)
    requires Opens(window) && Whole(due) && FirstAllowed(due, window).Some?
    ensures Whole(FirstAllowed(due, window).value)
  {
    if window.Some? {
      IntoHoursIsWhole(due, window.value);
    }
  }

  lemma WindowOpens(pulse: Pulse)
    requires EverRuns(pulse)
    ensures Opens(WindowOf(pulse))
  {
    if pulse.activeHours.Some? {
      HoursAreOfADay(pulse.activeHours.value);
    }
  }

  // ---- The run -----------------------------------------------------------------------------

  /** On whole seconds, an instant is reached when its wall clock is. */
  lemma Reached(offset: int, second: int, t: int)
    requires Whole(second)
    ensures second <= t <==> second + offset <= LocalMs(offset, t)
  {
    SecondBounds(t);
  }

  lemma LocalOf(offset: int, second: int)
    requires Whole(second)
    ensures LocalMs(offset, second) == second + offset
  {
    SecondIs(second, second);
  }

  /** A moment is due exactly when the minute has begun and the interval is over. */
  lemma DueFrom(lastRun: Option<int>, interval: nat, minute: int, offset: int, t: int)
    requires Whole(minute) && Whole(interval)
    ensures DueLocal(lastRun, interval, minute + offset, offset) <= LocalMs(offset, t)
       <==> minute <= t && IntervalOver(lastRun, interval, t)
  {
    Reached(offset, minute, t);
    if lastRun.Some? {
      SecondBounds(lastRun.value);
      WholeSum(FloorSecond(lastRun.value), interval);
      Reached(offset, FloorSecond(lastRun.value) + interval, t);
    }
  }

  lemma DueIsWhole(lastRun: Option<int>, interval: nat, nowLocal: int, offset: int)
    requires Whole(offset) && Whole(interval) && Whole(nowLocal)
    ensures Whole(DueLocal(lastRun, interval, nowLocal, offset))
  {
    if lastRun.Some? {
      SecondBounds(lastRun.value);
      WholeSum(FloorSecond(lastRun.value), offset);
      WholeSum(FloorSecond(lastRun.value) + offset, interval);
    }
  }

  /** The run is at the instant of the first moment allowed. */
  lemma RunIs(minute: int, due: int, window: Option<Window>, offset: int)
    requires Opens(window) && minute + offset <= due
    ensures FirstAllowed(due, window).Some?
    ensures RunFrom(minute, minute + offset, due, window, offset) == Some(FirstAllowed(due, window).value - offset)
  {
    FirstAllowedIsLeast(due, window, due);
  }

  /** The least instant whose wall clock is due and allowed. */
  lemma {:induction false} RunIsLeast(minute: int, due: int, window: Option<Window>, offset: int, t: int)
    requires Opens(window) && minute + offset <= due && Whole(due) && Whole(offset)
    ensures RunFrom(minute, minute + offset, due, window, offset).Some?
    ensures var run := RunFrom(minute, minute + offset, due, window, offset).value;
            Whole(run) && due <= LocalMs(offset, run) && Allowed(window, LocalMs(offset, run))
    ensures due <= LocalMs(offset, t) && Allowed(window, LocalMs(offset, t)) ==>
              RunFrom(minute, minute + offset, due, window, offset).value <= t
  {
    RunIs(minute, due, window, offset);
    FirstAllowedIsLeast(due, window, LocalMs(offset, t));
    FirstAllowedIsWhole(due, window);
    var run := FirstAllowed(due, window).value - offset;
    WholeSum(run + offset, offset);
    LocalOf(offset, run);
    SecondBounds(t);
  }

  lemma NextRunAgainst(pulse: Pulse, now: int, offset: int, t: int)
    requires Whole(offset) && EverRuns(pulse)
    ensures NextPulseRun(pulse, now, offset).Some? && Whole(NextPulseRun(pulse, now, offset).value)
    ensures CanRun(pulse, now, offset, NextPulseRun(pulse, now, offset).value)
    ensures CanRun(pulse, now, offset, t) ==> NextPulseRun(pulse, now, offset).value <= t
  {
    var minute, interval, window := FloorMinute(now), Interval(pulse), WindowOf(pulse);
    MinuteBounds(now);
    LocalOf(offset, minute);
    WholeSum(minute, offset);
    WholeSeconds(pulse.schedule.value);
    WindowOpens(pulse);
    var due := DueLocal(pulse.lastRun, interval, minute + offset, offset);
    DueIsWhole(pulse.lastRun, interval, minute + offset, offset);
    var run := RunFrom(minute, minute + offset, due, window, offset);
    RunIsLeast(minute, due, window, offset, t);
    DueFrom(pulse.lastRun, interval, minute, offset, run.value);
    DueFrom(pulse.lastRun, interval, minute, offset, t);
  }

  /**
   The run reported is the least instant that is not before the current minute, not before the
   interval since the last run's second is over, and inside the active hours; none is reported
   exactly for a pulse that never runs.
   */
  lemma NextRunIsLeast(pulse: Pulse, now: int, offset: int)
    requires Whole(offset)
    ensures NextPulseRun(pulse, now, offset).Some? <==> EverRuns(pulse)
    ensures EverRuns(pulse) ==> CanRun(pulse, now, offset, NextPulseRun(pulse, now, offset).value)
    ensures forall t :: EverRuns(pulse) && CanRun(pulse, now, offset, t) ==> NextPulseRun(pulse, now, offset).value <= t
  {
    if EverRuns(pulse) {
      NextRunAgainst(pulse, now, offset, 0);
      forall t | CanRun(pulse, now, offset, t) ensures NextPulseRun(pulse, now, offset).value <= t {
        NextRunAgainst(pulse, now, offset, t);
      }
    }
  }

  /** What is reported stands, asked again at any time until the minute it names. */
  lemma ReportStands(pulse: Pulse, now: int, later: int, offset: int)
    requires Whole(offset) && EverRuns(pulse) && NextPulseRun(pulse, now, offset).Some?
    requires now <= later && FloorMinute(later) <= NextPulseRun(pulse, now, offset).value
    ensures NextPulseRun(pulse, later, offset) == NextPulseRun(pulse, now, offset)
  {
    NextRunAgainst(pulse, now, offset, 0);
    NextRunAgainst(pulse, later, offset, NextPulseRun(pulse, now, offset).value);
    NextRunAgainst(pulse, now, offset, NextPulseRun(pulse, later, offset).value);
    MinutesInOrder(now, later);
  }

  lemma MinutesInOrder(a: int, b: int)
    requires a <= b
    ensures FloorMinute(a) <= FloorMinute(b)
  {
  }

  // ---- The interval to the millisecond -----------------------------------------------------

  /** The wall clock drops the last run's milliseconds, so the interval can end up to a second early. */
  predicate HoldsInterval(pulse: Pulse, t: int)
    requires EverRuns(pulse)
  {
    pulse.lastRun.Some? ==> t >= pulse.lastRun.value + Interval(pulse)
  }

  /** The last run was on a whole second, or its interval is over already, or it ends outside the hours. */
  predicate IntervalSafe(pulse: Pulse, now: int, offset: int)
    requires EverRuns(pulse)
  {
    pulse.lastRun.Some? ==>
      || Whole(pulse.lastRun.value)
      || pulse.lastRun.value + Interval(pulse) <= FloorMinute(now)
      || !Allowed(WindowOf(pulse), LocalMs(offset, pulse.lastRun.value + Interval(pulse)))
  }

  /** The run reported keeps the whole interval exactly when the flooring to seconds does not decide it. */
  lemma KeepsIntervalIff(pulse: Pulse, now: int, offset: int)
    requires EverRuns(pulse) && Whole(offset) && NextPulseRun(pulse, now, offset).Some?
    ensures HoldsInterval(pulse, NextPulseRun(pulse, now, offset).value) <==> IntervalSafe(pulse, now, offset)
  {
    if pulse.lastRun.Some? {
      var run := NextPulseRun(pulse, now, offset).value;
      var last, interval := pulse.lastRun.value, Interval(pulse);
      var ends := FloorSecond(last) + interval;
      NextRunAgainst(pulse, now, offset, ends);
      WholeSeconds(pulse.schedule.value);
      SecondOf(last, interval);
      LocalOf(offset, ends);
      NotBetween(ends, run, last + interval);
      MinuteBounds(now);
      NotBetween(ends, FloorMinute(now), last + interval);
    }
  }

  /** The last run's interval ends, by the wall clock, within the second it really ends in. */
  lemma SecondOf(last: int, interval: int)
    requires Whole(interval)
    ensures var ends := FloorSecond(last) + interval;
            Whole(ends) && ends <= last + interval < ends + 1000 && FloorSecond(last + interval) == ends
    ensures Whole(last) <==> FloorSecond(last) == last
  {
    SecondBounds(last);
    WholeSum(FloorSecond(last), interval);
    SecondIs(last + interval, FloorSecond(last) + interval);
  }

  /** No whole second lies between a moment and the start of its second. */
  lemma NotBetween(second: int, t: int, moment: int)
    requires Whole(second) && Whole(t) && second <= moment < second + 1000
    ensures t <= second || t > moment
  {
  }

  /** An hourly pulse that last ran half a second into one is reported half a second early. */
  lemma HalfASecondEarly()
    ensures var pulse := Pulse(true, Some("1h"), None, Some(500));
            EverRuns(pulse) && NextPulseRun(pulse, 0, 0) == Some(3_600_000) && !HoldsInterval(pulse, 3_600_000)
  {
    assert Digits(1) + ['h'] == "1h";
    ScheduleRead(1, 'h');
  }
}
