/**
 * `isCODay` and the recurrence options the add-event form offers for the
 * selected day.
 */
module DayClassifier {
  import opened Gregorian
  import opened PhaseCalendar
  import opened EventModel

  /** The source's loop from phase `from` on: is `day` the end of some phase's
      span (the day before the next phase starts, or the year's last day)? */
  predicate IsCODayFrom(day: int, year: int, from: nat)
    requires from <= |Phases|
    decreases |Phases| - from
  {
    from < |Phases| && (day == PhaseEnd(from, DaysInYear(year)) || IsCODayFrom(day, year, from + 1))
  }

  /** `isCODay(dayOfYear, year)`. */
  predicate IsCODay(day: int, year: int) {
    IsCODayFrom(day, year, 0)
  }

  /** The CO days by this rule are 73, 146, 219, 292 and the year's last day. */
  lemma {:induction false} IsCODayExactly(day: int, year: int)
    ensures IsCODay(day, year) <==> day in {73, 146, 219, 292, DaysInYear(year)}
  {
    assert IsCODayFrom(day, year, 4) <==> day == DaysInYear(year);
    assert IsCODayFrom(day, year, 3) <==> day == 292 || day == DaysInYear(year);
    assert IsCODayFrom(day, year, 2) <==> day in {219, 292, DaysInYear(year)};
    assert IsCODayFrom(day, year, 1) <==> day in {146, 219, 292, DaysInYear(year)};
  }

  /** Exactly five days of every year are CO days by this rule. */
  lemma FiveCODaysPerYear(year: int)
    ensures (set d | 1 <= d <= DaysInYear(year) && IsCODay(d, year)) == {73, 146, 219, 292, DaysInYear(year)}
    ensures |set d | 1 <= d <= DaysInYear(year) && IsCODay(d, year)| == 5
  {
    forall d | 1 <= d <= DaysInYear(year)
      ensures IsCODay(d, year) <==> d in {73, 146, 219, 292, DaysInYear(year)}
    {
      IsCODayExactly(d, year);
    }
    forall d | d in {73, 146, 219, 292, DaysInYear(year)}
      ensures IsCODay(d, year)
    {
      IsCODayExactly(d, year);
    }
  }

  /** In a common year `isCODay` agrees with the CO codes of the calendar. */
  lemma CommonYearAgreement(day: int, year: int)
    requires !IsLeapYear(year)
    ensures IsCODay(day, year) <==> CalendarCode(day, year).Closing?
  {
    IsCODayExactly(day, year);
    ClosingDays(day, year);
  }

  /** In a leap year `isCODay` disagrees with the calendar codes: it calls the
      leap day (coded ICD) a CO day and not day 365 (coded IPCO). */
  lemma LeapYearDisagreement(year: int)
    requires IsLeapYear(year)
    ensures IsCODay(366, year) && CalendarCode(366, year) == LeapDay
    ensures !IsCODay(365, year) && CalendarCode(365, year) == Closing(4)
  {
    IsCODayExactly(366, year);
    IsCODayExactly(365, year);
    ClosingDays(365, year);
  }

  /** The recurrence options offered for a selected day: none, phasely and
      yearly on a CO day; none, weekly, subphasely, phasely and yearly on any
      other day. */
  function RecurrenceOptions(day: int, year: int): (opts: seq<Pattern>)
    ensures |opts| >= 3 && opts[0] == NoRecurrence
    ensures Weekly in opts <==> !IsCODay(day, year)
    ensures Subphasely in opts <==> !IsCODay(day, year)
    ensures Phasely in opts && Yearly in opts
    ensures forall i :: 0 <= i < |opts| ==> !opts[i].Unrecognized?
    ensures forall i, j :: 0 <= i < j < |opts| ==> opts[i] != opts[j]
  {
    if IsCODay(day, year) then [NoRecurrence, Phasely, Yearly]
    else [NoRecurrence, Weekly, Subphasely, Phasely, Yearly]
  }
}
