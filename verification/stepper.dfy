/**
 * `calculateNextOccurrence`: the next date of a recurring series, or None
 * when the series stops. Dates are (year, day-of-year) ordinals; JavaScript's
 * `Date` rollover is written out as `FromDayNumber`.
 */
module Stepper {
  import opened Wrappers
  import opened Gregorian
  import opened PhaseCalendar
  import opened EventModel
  import opened DayClassifier

  /** A Phase Calendar week has six days. */
  const WeekLength := 6

  /** `new Date(year, 0)` followed by `setDate(n)`: day `n` counted from
      January 1 of `year`, rolling over into the following years. */
  function FromDayNumber(year: int, n: int): (d: YearDay)
    requires n >= 1
    ensures d.Valid()
    ensures n <= DaysInYear(year) <==> d == YearDay(year, n)
    ensures n > DaysInYear(year) ==> d.year > year
    decreases n
  {
    if n <= DaysInYear(year) then YearDay(year, n)
    else FromDayNumber(year + 1, n - DaysInYear(year))
  }

  /** The date for day `n` of `year`, or None when the Date rolled over into
      another year or day (the subphasely check). */
  function Landed(year: int, n: int): (r: Option<YearDay>)
    requires n >= 1
    ensures r.Some? ==> r.value == YearDay(year, n) && r.value.Valid()
    ensures r.None? <==> n > DaysInYear(year)
  {
    var d := FromDayNumber(year, n);
    if d.year != year || d.day != n then None else Some(d)
  }

  /** The phase that follows phase `i`, wrapping to the first phase. */
  function NextPhase(i: nat): (j: nat)
    requires i < |Phases|
    ensures j < |Phases|
    ensures i + 1 < |Phases| ==> j == i + 1
    ensures i + 1 == |Phases| ==> j == 0
  {
    (i + 1) % |Phases|
  }

  /** The year of the next phase's start: one more when the phases wrap. */
  function NextPhaseYear(i: nat, year: int): int
    requires i < |Phases|
  {
    if NextPhase(i) == 0 then year + 1 else year
  }

  /** The subphasely step. `anchorPhase`/`anchorOffset` are the anchor's phase
      and offset in it (looked up against the current year's length). */
  function SubphaselyStep(current: YearDay, anchorPhase: Option<nat>, anchorOffset: int): (r: Option<YearDay>)
    requires current.Valid()
    requires anchorPhase.Some? ==> anchorOffset >= 0
    ensures r.Some? ==> r.value.Valid()
  {
    if anchorPhase.None? then None
    else
      var anchorHalf :=
        if anchorOffset < DaysPerSection then 0
        else if anchorOffset < 2 * DaysPerSection then 1
        else -1;
      if anchorHalf == -1 then None
      else
        var offsetInHalf := anchorOffset - anchorHalf * DaysPerSection;
        var daysInYear := DaysInYear(current.year);
        match FindPhase(current.day, daysInYear)
        case None => None
        case Some(ci) =>
          var offset := current.day - Phases[ci].startDay;
          var currentHalf :=
            if offset < DaysPerSection then 0
            else if offset < 2 * DaysPerSection then 1
            else -1;
          if currentHalf == -1 then None
          else if currentHalf == 0 then
            var target := Phases[ci].startDay + DaysPerSection + offsetInHalf;
            if target > PhaseEnd(ci, daysInYear) then
              Landed(NextPhaseYear(ci, current.year), Phases[NextPhase(ci)].startDay + offsetInHalf)
            else
              Landed(current.year, target)
          else
            Landed(NextPhaseYear(ci, current.year), Phases[NextPhase(ci)].startDay + offsetInHalf)
  }

  /** The phasely step: the anchor's offset in the phase after the current
      one. The source's second search (for a day it could not place) finds
      nothing for a valid date, so an unplaced day simply stops the series. */
  function PhaselyStep(current: YearDay, anchorOffset: int): (r: Option<YearDay>)
    requires current.Valid()
    requires anchorOffset >= 0
    ensures r.Some? ==> r.value.Valid() && Before(current, r.value)
  {
    match FindPhase(current.day, DaysInYear(current.year))
    case None => None
    case Some(ci) =>
      var n := Phases[NextPhase(ci)].startDay + anchorOffset;
      var d := FromDayNumber(NextPhaseYear(ci, current.year), n);
      if d.day != n || n > DaysInYear(d.year) then None
      else if !Before(current, d) then None
      else Some(d)
  }

  /** The month/day a yearly series lands on in `year`: the anchor's, with
      February 29 falling back to February 28 outside leap years. */
  function YearlyMonthDay(anchor: YearDay, year: int): (md: (int, int))
    requires anchor.Valid()
    ensures 0 <= md.0 < 12 && 1 <= md.1 <= DaysInMonth(year, md.0)
  {
    var original := FromDayNumber(anchor.year, anchor.day);
    var (month, dayOfMonth) := MonthDay(original.year, original.day);
    if month == 1 && dayOfMonth == 29 && !IsLeapYear(year) then (month, 28) else (month, dayOfMonth)
  }

  /** The yearly step: `new Date(currentYear + 1, month, day)`. The day always
      fits its month, so the source's year check never fails. */
  function YearlyStep(current: YearDay, anchor: YearDay): (r: Option<YearDay>)
    requires current.Valid() && anchor.Valid()
    ensures r.Some? ==> r.value.Valid() && Before(current, r.value)
  {
    var nextYear := current.year + 1;
    var md := YearlyMonthDay(anchor, nextYear);
    Some(YearDay(nextYear, GetDayOfYear(nextYear, md.0, md.1)))
  }

  /** The anchor's phase, looked up, as the source does, against the length
      of the current occurrence's year. */
  function AnchorPhase(current: YearDay, anchor: YearDay): Option<nat> {
    FindPhase(anchor.day, DaysInYear(current.year))
  }

  /** The anchor's offset in its phase, 0 when it has none. */
  function AnchorOffset(current: YearDay, anchor: YearDay): (k: int)
    ensures k >= 0
  {
    match AnchorPhase(current, anchor)
    case Some(p) => anchor.day - Phases[p].startDay
    case None => 0
  }

  /** `calculateNextOccurrence(currentDate, recurrencePattern, originalEventKey)`. */
  function NextOccurrence(current: YearDay, pattern: Pattern, anchor: YearDay): (r: Option<YearDay>)
    requires current.Valid() && anchor.Valid()
    ensures r.Some? ==> r.value.Valid() && Before(current, r.value)
  {
    var candidate :=
      match pattern
      case Weekly => Some(FromDayNumber(current.year, current.day + WeekLength))
      case Subphasely => SubphaselyStep(current, AnchorPhase(current, anchor), AnchorOffset(current, anchor))
      case Phasely => PhaselyStep(current, AnchorOffset(current, anchor))
      case Yearly => YearlyStep(current, anchor)
      case _ => None;
    match candidate
    case None => None
    case Some(next) =>
      if next.day > DaysInYear(next.year) && pattern != Yearly then None
      else if !Before(current, next) then None
      else Some(next)
  }

  // ---------------------------------------------------------------------------
  // Properties, pattern by pattern

  /** Reference definition: a day's offset from the start of its phase. */
  function OffsetInPhase(day: int): int
    requires day >= 1
  {
    day - Phases[PhaseIndex(day)].startDay
  }

  /** Weekly: six days later, rolling into the next year when needed. */
  lemma WeeklyIsSixDaysLater(current: YearDay, anchor: YearDay)
    requires current.Valid() && anchor.Valid()
    ensures NextOccurrence(current, Weekly, anchor) ==
      if current.day + WeekLength <= DaysInYear(current.year) then Some(YearDay(current.year, current.day + WeekLength))
      else Some(YearDay(current.year + 1, current.day + WeekLength - DaysInYear(current.year)))
  {
    var n := current.day + WeekLength;
    if n > DaysInYear(current.year) {
      assert FromDayNumber(current.year + 1, n - DaysInYear(current.year)) == YearDay(current.year + 1, n - DaysInYear(current.year));
    }
  }

  /** Every unrecognised pattern (and 'none') ends the series. */
  lemma UnrecognizedPatternStops(current: YearDay, pattern: Pattern, anchor: YearDay)
    requires current.Valid() && anchor.Valid()
    requires pattern == NoRecurrence || pattern.Unrecognized?
    ensures NextOccurrence(current, pattern, anchor) == None
  {
  }

  /** The anchor's phase and offset in closed form, when the anchor is a day
      of the current year. */
  lemma AnchorInCurrentYear(current: YearDay, anchor: YearDay)
    requires current.Valid() && anchor.Valid()
    requires anchor.day <= DaysInYear(current.year)
    ensures AnchorPhase(current, anchor) == Some(PhaseIndex(anchor.day))
    ensures AnchorOffset(current, anchor) == OffsetInPhase(anchor.day)
  {
    LocateValidDay(anchor.day, DaysInYear(current.year));
  }

  /** Subphasely stops exactly when the anchor is not a day of the current
      year, or the anchor or the current day is 72 or more days into its
      phase (a CO day or the leap day). */
  lemma SubphaselyStopsWhen(current: YearDay, anchor: YearDay)
    requires current.Valid() && anchor.Valid()
    ensures NextOccurrence(current, Subphasely, anchor) == None <==>
      anchor.day > DaysInYear(current.year) ||
      OffsetInPhase(anchor.day) >= 2 * DaysPerSection ||
      OffsetInPhase(current.day) >= 2 * DaysPerSection
  {
    var daysInYear := DaysInYear(current.year);
    LocateValidDay(current.day, daysInYear);
    if anchor.day > daysInYear {
      match AnchorPhase(current, anchor)
      case None =>
      case Some(j) =>
        PhaseTableShape(j, daysInYear);
        assert false;
    } else if OffsetInPhase(anchor.day) >= 2 * DaysPerSection || OffsetInPhase(current.day) >= 2 * DaysPerSection {
      AnchorInCurrentYear(current, anchor);
    } else if OffsetInPhase(current.day) < DaysPerSection {
      SubphaselyFromEarlyHalf(current, anchor);
    } else {
      SubphaselyFromLateHalf(current, anchor);
    }
  }

  /** Subphasely from an early-half day: the late half of the same phase, at
      the anchor's offset within its half. */
  lemma SubphaselyFromEarlyHalf(current: YearDay, anchor: YearDay)
    requires current.Valid() && anchor.Valid()
    requires anchor.day <= DaysInYear(current.year) && OffsetInPhase(anchor.day) < 2 * DaysPerSection
    requires OffsetInPhase(current.day) < DaysPerSection
    ensures NextOccurrence(current, Subphasely, anchor) ==
      Some(YearDay(current.year, Phases[PhaseIndex(current.day)].startDay + DaysPerSection + OffsetInPhase(anchor.day) % DaysPerSection))
  {
    LocateValidDay(current.day, DaysInYear(current.year));
    PhaseTableShape(PhaseIndex(current.day), DaysInYear(current.year));
    AnchorInCurrentYear(current, anchor);
    SubphaselyGuards(current, anchor);
  }

  /** Subphasely from a late-half day: the early half of the next phase, at
      the anchor's offset within its half; after the last phase the year
      increments. */
  lemma SubphaselyFromLateHalf(current: YearDay, anchor: YearDay)
    requires current.Valid() && anchor.Valid()
    requires anchor.day <= DaysInYear(current.year) && OffsetInPhase(anchor.day) < 2 * DaysPerSection
    requires DaysPerSection <= OffsetInPhase(current.day) < 2 * DaysPerSection
    ensures var ci := PhaseIndex(current.day);
      NextOccurrence(current, Subphasely, anchor) ==
      Some(YearDay(NextPhaseYear(ci, current.year), Phases[NextPhase(ci)].startDay + OffsetInPhase(anchor.day) % DaysPerSection))
  {
    var daysInYear := DaysInYear(current.year);
    var ci := PhaseIndex(current.day);
    LocateValidDay(current.day, daysInYear);
    PhaseTableShape(ci, daysInYear);
    PhaseTableShape(NextPhase(ci), daysInYear);
    AnchorInCurrentYear(current, anchor);
    var target := YearDay(NextPhaseYear(ci, current.year), Phases[NextPhase(ci)].startDay + OffsetInPhase(anchor.day) % DaysPerSection);
    assert Landed(target.year, target.day) == Some(target);
    assert SubphaselyStep(current, AnchorPhase(current, anchor), AnchorOffset(current, anchor)) == Some(target);
    assert Before(current, target);
    SubphaselyGuards(current, anchor);
  }

  /** The guards after the subphasely step keep any date it finds later than
      the current one and drop nothing else. */
  lemma SubphaselyGuards(current: YearDay, anchor: YearDay)
    requires current.Valid() && anchor.Valid()
    ensures var c := SubphaselyStep(current, AnchorPhase(current, anchor), AnchorOffset(current, anchor));
      NextOccurrence(current, Subphasely, anchor) == if c.Some? && Before(current, c.value) then c else None
  {
  }

  /** A subphasely series anchored on a CO day (by either rule) never steps. */
  lemma SubphaselyNeverFromCODay(current: YearDay, anchor: YearDay)
    requires current.Valid() && anchor.Valid()
    requires IsCODay(anchor.day, anchor.year) || CalendarCode(anchor.day, anchor.year).Closing?
    ensures NextOccurrence(current, Subphasely, anchor) == None
  {
    IsCODayExactly(anchor.day, anchor.year);
    ClosingDays(anchor.day, anchor.year);
    SubphaselyStopsWhen(current, anchor);
  }

  /** Phasely: the anchor's offset in the phase after the current one,
      wrapping to the first phase of the next year; None exactly when that
      day is past the end of its year. */
  lemma PhaselyStepForm(current: YearDay, anchor: YearDay)
    requires current.Valid() && anchor.Valid()
    ensures var ci := PhaseIndex(current.day);
      var targetYear := NextPhaseYear(ci, current.year);
      var n := Phases[NextPhase(ci)].startDay + AnchorOffset(current, anchor);
      NextOccurrence(current, Phasely, anchor) ==
        if n <= DaysInYear(targetYear) then Some(YearDay(targetYear, n)) else None
  {
    var ci := PhaseIndex(current.day);
    LocateValidDay(current.day, DaysInYear(current.year));
    PhaseTableShape(ci, DaysInYear(current.year));
    PhaseTableShape(NextPhase(ci), DaysInYear(current.year));
  }

  /** Phasely never stops: the target day always exists in its year and is
      later than the current day, so both of the source's guards are dead. */
  lemma PhaselyAlwaysSteps(current: YearDay, anchor: YearDay)
    requires current.Valid() && anchor.Valid()
    ensures NextOccurrence(current, Phasely, anchor).Some?
  {
    PhaselyStepForm(current, anchor);
    var ci := PhaseIndex(current.day);
    PhaseTableShape(NextPhase(ci), DaysInYear(current.year));
    if anchor.day <= DaysInYear(current.year) {
      AnchorInCurrentYear(current, anchor);
    }
  }

  /** Yearly: the anchor's month and day in the next year, with February 29
      falling back to February 28 when that year is not a leap year. */
  lemma YearlyKeepsMonthDay(current: YearDay, anchor: YearDay)
    requires current.Valid() && anchor.Valid()
    ensures var r := NextOccurrence(current, Yearly, anchor);
      var (month, dayOfMonth) := MonthDay(anchor.year, anchor.day);
      && r.Some? && r.value.year == current.year + 1
      && MonthDay(r.value.year, r.value.day) ==
           if month == 1 && dayOfMonth == 29 && !IsLeapYear(current.year + 1) then (1, 28) else (month, dayOfMonth)
  {
    var md := YearlyMonthDay(anchor, current.year + 1);
    MonthDayRoundTrip(current.year + 1, md.0, md.1);
  }

  /** The phasely scenario: Prophase's CO day steps to Metaphase's. */
  lemma PhaselyFromProphaseCO()
    ensures NextOccurrence(YearDay(2025, 73), Phasely, YearDay(2025, 73)) == Some(YearDay(2025, 146))
  {
    PhaselyStepForm(YearDay(2025, 73), YearDay(2025, 73));
    AnchorInCurrentYear(YearDay(2025, 73), YearDay(2025, 73));
  }
}
