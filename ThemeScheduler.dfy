/** The time-of-day schedule: which mode a wall-clock reading belongs to,
    which mode comes next and how long until it starts, and the checks on
    mode names that go with them.

    The source reads the clock as `hours + minutes / 60` (a number of hours);
    here the same reading is a number of minutes since midnight, which is
    exact: 7 h is 420, 17.5 h is 1050 and 19 h is 1140. */
module ThemeScheduler {
  import opened Wrappers
  import opened Modes
  import opened Strings

  const MinutesPerDay: int := 1440
  const MsPerMinute: int := 60000
  const MsPerHour: int := 3600000
  const MsPerDay: int := 86400000

  /** A wall-clock reading: minutes since local midnight. */
  type MinuteOfDay = m: int | 0 <= m < 1440

  /** The reading `hours + minutes / 60` of a local clock, in minutes. */
  function WallClock(hours: int, minutes: int): MinuteOfDay
    requires 0 <= hours < 24 && 0 <= minutes < 60
  {
    60 * hours + minutes
  }

  /** A half-open interval [start, end) of minutes; `end < start` wraps past midnight. */
  datatype TimeRange = TimeRange(start: int, end: int)

  /** THEME_SCHEDULE. */
  function Schedule(m: Mode): TimeRange {
    match m
    case Day => TimeRange(420, 1050)
    case Evening => TimeRange(1050, 1140)
    case Night => TimeRange(1140, 420)
  }

  /** getCurrentTimeMode: the day range is tested first, then the evening
      range; everything else is night. */
  function CurrentTimeMode(t: MinuteOfDay): Mode {
    if Schedule(Day).start <= t < Schedule(Day).end then Day
    else if Schedule(Evening).start <= t < Schedule(Evening).end then Evening
    else Night
  }

  /** The classifier partitions the day into [7:00, 17:30), [17:30, 19:00)
      and the rest. */
  lemma ClassifierPartition(t: MinuteOfDay)
    ensures CurrentTimeMode(t) == Day <==> 420 <= t < 1050
    ensures CurrentTimeMode(t) == Evening <==> 1050 <= t < 1140
    ensures CurrentTimeMode(t) == Night <==> t < 420 || 1140 <= t
  {
  }

  /** Each boundary belongs to the mode that starts there. */
  lemma ClassifierBoundaries()
    ensures CurrentTimeMode(WallClock(7, 0)) == Day && CurrentTimeMode(WallClock(6, 59)) == Night
    ensures CurrentTimeMode(WallClock(17, 30)) == Evening && CurrentTimeMode(WallClock(17, 29)) == Day
    ensures CurrentTimeMode(WallClock(19, 0)) == Night && CurrentTimeMode(WallClock(18, 59)) == Evening
    ensures CurrentTimeMode(WallClock(0, 0)) == Night && CurrentTimeMode(WallClock(23, 59)) == Night
  {
  }

  /** isValidThemeMode. */
  predicate IsValidThemeMode(s: string) {
    s in ModeNames
  }

  /** The classifier is total and always answers one of the valid names. */
  lemma ClassifierAnswersValidName(t: MinuteOfDay)
    ensures IsValidThemeMode(Name(CurrentTimeMode(t)))
  {
  }

  /** getTimeRangeForMode: the schedule entry, or the error it throws. */
  function GetTimeRangeForMode(s: string): (r: Result<TimeRange>)
    ensures r.Ok? <==> IsValidThemeMode(s)
    ensures r.Ok? ==> Parse(s).Some? && r.value == Schedule(Parse(s).value)
    ensures r.Err? ==> r.message == "Invalid theme mode: " + s
  {
    if !IsValidThemeMode(s) then Err("Invalid theme mode: " + s)
    else Ok(Schedule(Parse(s).value))
  }

  /** isTimeInModeRange: the night range is the one that wraps midnight. */
  function IsTimeInModeRange(s: string, t: MinuteOfDay): (r: Result<bool>)
    ensures r.Err? <==> !IsValidThemeMode(s)
  {
    match GetTimeRangeForMode(s)
    case Err(e) => Err(e)
    case Ok(range) =>
      if s == "night" then Ok(t >= range.start || t < range.end)
      else Ok(range.start <= t < range.end)
  }

  /** Every reading lies in the range of exactly one mode, the one the
      classifier returns. */
  lemma ExactlyOneModeInRange(t: MinuteOfDay, m: Mode)
    ensures IsTimeInModeRange(Name(m), t) == Ok(m == CurrentTimeMode(t))
  {
  }

  /** The mode that follows `m` in the fixed cycle day, evening, night. */
  function Successor(m: Mode): Mode {
    match m
    case Day => Evening
    case Evening => Night
    case Night => Day
  }

  /** What getNextTransition returns. `nextTime` is in minutes of the day
      (the source reports hours). */
  datatype Transition = Transition(nextMode: Mode, nextTime: int, msUntilNext: int, formattedTime: string)

  /** The source's `nextTime` before it is reduced mod 24 h, in minutes: the
      start of the next mode, pushed to the next day for a night that has
      already begun. */
  function TargetMinute(m: Mode, t: MinuteOfDay): int {
    match m
    case Day => Schedule(Evening).start
    case Evening => Schedule(Night).start
    case Night => Schedule(Day).start + (if t >= Schedule(Night).start then MinutesPerDay else 0)
  }

  /** The `H:MM` text of a minute of the day, the hour not zero-padded. */
  function FormatClock(minute: MinuteOfDay): string {
    NatToString(minute / 60) + ":" + Pad2(minute % 60)
  }

  /** getNextTransition(currentMode). A missing or empty `requested` uses the
      schedule's own mode. `None` stands for the record of `undefined` and
      `NaN` fields the source returns for any other unknown name. */
  function NextTransition(requested: Option<string>, t: MinuteOfDay): Option<Transition> {
    var mode := if requested.None? || requested.value == "" then Some(CurrentTimeMode(t)) else Parse(requested.value);
    match mode
    case None => None
    case Some(m) =>
      var target := TargetMinute(m, t);
      var ms := (target - t) * MsPerMinute;
      Some(Transition(Successor(m), target % MinutesPerDay,
                      if ms > 0 then ms else ms + MsPerDay,
                      FormatClock(target % MinutesPerDay)))
  }

  /** A transition is reported exactly for a missing, empty or valid name;
      its successor is fixed, and the wait is whole minutes in (0, 24 h]. */
  lemma NextTransitionBounds(requested: Option<string>, t: MinuteOfDay)
    ensures NextTransition(requested, t).Some? <==>
            requested.None? || requested.value == "" || IsValidThemeMode(requested.value)
    ensures requested.Some? && IsValidThemeMode(requested.value) ==>
            NextTransition(requested, t).value.nextMode == Successor(Parse(requested.value).value)
    ensures NextTransition(requested, t).Some? ==>
            var r := NextTransition(requested, t).value;
            0 < r.msUntilNext <= MsPerDay && r.msUntilNext % MsPerMinute == 0
  {
    if requested.Some? && requested.value != "" {
      ModeNamesAreTheModes(requested.value);
    }
    var mode := if requested.None? || requested.value == "" then Some(CurrentTimeMode(t)) else Parse(requested.value);
    if mode.Some? {
      WaitBounds(mode.value, t);
    }
  }

  /** The wait to the next mode's start, pushed a day on when it is not
      positive, is whole minutes in (0, 24 h]. */
  lemma WaitBounds(m: Mode, t: MinuteOfDay)
    ensures var ms := (TargetMinute(m, t) - t) * MsPerMinute;
            var w := if ms > 0 then ms else ms + MsPerDay;
            0 < w <= MsPerDay && w % MsPerMinute == 0
  {
  }

  /** The schedule's mode `j` minutes after the reading `t`, on a 24-hour clock. */
  function ModeAfter(t: MinuteOfDay, j: nat): Mode {
    CurrentTimeMode((t + j) % MinutesPerDay)
  }

  /** The wait reported for the schedule's own mode and the mode it announces. */
  predicate IsFirstChange(t: MinuteOfDay, r: Transition) {
    var k := r.msUntilNext / MsPerMinute;
    && 0 < k
    && (forall j: nat :: j < k ==> ModeAfter(t, j) == CurrentTimeMode(t))
    && ModeAfter(t, k) == r.nextMode
    && r.nextMode != CurrentTimeMode(t)
  }

  /** For the schedule's own mode the reported wait ends at the first minute
      whose mode differs, and that mode is the reported next one. */
  lemma NextTransitionIsFirstChange(t: MinuteOfDay)
    ensures NextTransition(None, t).Some?
    ensures IsFirstChange(t, NextTransition(None, t).value)
  {
    if t >= Schedule(Night).start {
      LateNightIsFirstChange(t);
    } else {
      SameDayIsFirstChange(t);
    }
  }

  /** From 19:00 to midnight the wait runs past midnight to 7:00. */
  lemma LateNightIsFirstChange(t: MinuteOfDay)
    requires t >= Schedule(Night).start
    ensures NextTransition(None, t).Some?
    ensures IsFirstChange(t, NextTransition(None, t).value)
  {
    var r := NextTransition(None, t).value;
    var k := r.msUntilNext / MsPerMinute;
    assert k == 1860 - t;
    forall j: nat | j < k ensures ModeAfter(t, j) == Night {
      if t + j >= 1440 {
        assert (t + j) % MinutesPerDay == t + j - 1440;
      } else {
        assert (t + j) % MinutesPerDay == t + j;
      }
    }
    assert (t + k) % MinutesPerDay == 420;
  }

  /** Before 19:00 the next mode starts later the same day. */
  lemma SameDayIsFirstChange(t: MinuteOfDay)
    requires t < Schedule(Night).start
    ensures NextTransition(None, t).Some?
    ensures IsFirstChange(t, NextTransition(None, t).value)
  {
    var m := CurrentTimeMode(t);
    var r := NextTransition(None, t).value;
    var k := r.msUntilNext / MsPerMinute;
    assert k == TargetMinute(m, t) - t;
    forall j: nat | j < k ensures ModeAfter(t, j) == m {
      assert (t + j) % MinutesPerDay == t + j;
    }
  }

  /** Night at 20:00: day comes next, at 7:00, in eleven hours. */
  lemma NightAtEightPm()
    ensures NextTransition(None, WallClock(20, 0)) == Some(Transition(Day, 420, 11 * MsPerHour, "7:00"))
  {
    assert NatToString(7) == "7";
    assert Pad2(0) == "00";
    assert FormatClock(420) == "7:00";
  }

  /** The reported `nextTime` is reduced to the day (31 h becomes 7 h) and
      printed as 17:30, 19:00 or 7:00. */
  lemma ReportedNextTimes(requested: Option<string>, t: MinuteOfDay)
    requires NextTransition(requested, t).Some?
    ensures var r := NextTransition(requested, t).value;
            && r.nextTime == Schedule(r.nextMode).start
            && r.formattedTime == (match r.nextMode
                                   case Evening => "17:30"
                                   case Night => "19:00"
                                   case Day => "7:00")
  {
    var m := if requested.None? || requested.value == "" then CurrentTimeMode(t) else Parse(requested.value).value;
    var start := Schedule(Successor(m)).start;
    TargetReduces(m, t);
    assert NextTransition(requested, t).value.formattedTime == FormatClock(start);
    match Successor(m)
    case Evening => EveningStartText();
    case Night => NightStartText();
    case Day => DayStartText();
  }

  /** The target reduced to the day is the start of the next mode. */
  lemma TargetReduces(m: Mode, t: MinuteOfDay)
    ensures TargetMinute(m, t) % MinutesPerDay == Schedule(Successor(m)).start
  {
  }

  lemma EveningStartText()
    ensures FormatClock(Schedule(Evening).start) == "17:30"
  {
    assert NatToString(17) == "17" by {
      assert NatToString(1) == "1";
    }
    assert Pad2(30) == "30" by {
      assert NatToString(3) == "3";
    }
  }

  lemma NightStartText()
    ensures FormatClock(Schedule(Night).start) == "19:00"
  {
    assert NatToString(19) == "19" by {
      assert NatToString(1) == "1";
    }
    assert Pad2(0) == "00";
  }

  lemma DayStartText()
    ensures FormatClock(Schedule(Day).start) == "7:00"
  {
    assert NatToString(7) == "7";
    assert Pad2(0) == "00";
  }

}
