/**
 * The Phase Calendar: five fixed phases per year, each a 6x6 "early" grid,
 * a 6x6 "late" grid and one closing (CO) day, plus a leap day (ICD) after the
 * last phase in leap years. `NewCalendarDate` gives the symbolic code of a
 * day of the year; `DecodeCalendarDate` reads one back.
 */
module PhaseCalendar {
  import opened Wrappers
  import opened Gregorian

  datatype Phase = Phase(name: string, short: char, startDay: int, co: string)

  /** The fixed phase table: phase i starts on day 1 + 73 * i. */
  const Phases: seq<Phase> := [
    Phase("Prophase", 'P', 1, "PMCO"),
    Phase("Metaphase", 'M', 74, "MACO"),
    Phase("Anaphase", 'A', 147, "ATCO"),
    Phase("Telophase", 'T', 220, "TICO"),
    Phase("Interphase", 'I', 293, "IPCO")
  ]

  const RowLabels: seq<char> := ['R', 'G', 'B', 'C', 'Y', 'V']

  /** Days in one early or late half of a phase. */
  const DaysPerSection := 36

  const LeapDayCode := "ICD"

  // ---------------------------------------------------------------------------
  // JavaScript number helpers

  /** JavaScript's `%` for a positive divisor: the remainder takes the sign of
      the dividend (Dafny's `%` never yields a negative remainder). */
  function JsRem(a: int, b: int): (r: int)
    requires b > 0
    ensures a >= 0 ==> r == a % b
    ensures -b < r < b && (r == 0 || (r < 0 <==> a < 0))
  {
    if a >= 0 then a % b else -((-a) % b)
  }

  /** `Math.ceil(n / k)` for a positive integer divisor. */
  function CeilDiv(n: int, k: int): (q: int)
    requires k > 0
    ensures (q - 1) * k < n <= q * k
  {
    -((-n) / k)
  }

  function Digit(n: int): (c: char)
    requires 0 <= n < 10
    ensures IsDigit(c) && c as int - '0' as int == n
  {
    "0123456789"[n]
  }

  predicate IsDigit(c: char) {
    '0' <= c <= '9'
  }

  predicate AllDigits(s: string) {
    forall k :: 0 <= k < |s| ==> IsDigit(s[k])
  }

  /** Reference definition: the number a string of decimal digits stands for. */
  function DigitsValue(s: string): nat
    requires AllDigits(s)
  {
    if s == [] then 0 else DigitsValue(s[..|s| - 1]) * 10 + (s[|s| - 1] as int - '0' as int)
  }

  /** Decimal rendering of a natural number: digits only, no leading zero,
      standing for `n`. */
  function NatToString(n: nat): (s: string)
    ensures |s| >= 1 && AllDigits(s)
    ensures |s| > 1 ==> s[0] != '0'
    ensures DigitsValue(s) == n
  {
    if n < 10 then [Digit(n)]
    else
      var prefix := NatToString(n / 10);
      var s := prefix + [Digit(n % 10)];
      assert s[..|s| - 1] == prefix;
      s
  }

  /** Decimal rendering of an integer, as a template literal prints it: a
      minus sign exactly for negative numbers, followed by the digits of the
      magnitude. */
  function IntToString(i: int): (s: string)
    ensures |s| >= 1
    ensures i >= 0 ==> AllDigits(s) && DigitsValue(s) == i
    ensures i < 0 ==> |s| >= 2 && s[0] == '-' && AllDigits(s[1..]) && DigitsValue(s[1..]) == -i
  {
    if i < 0 then
      var s := "-" + NatToString(-i);
      assert s[1..] == NatToString(-i);
      s
    else NatToString(i)
  }

  /** Different integers are rendered differently. */
  lemma IntToStringInjective(i: int, j: int)
    requires IntToString(i) == IntToString(j)
    ensures i == j
  {
  }

  // ---------------------------------------------------------------------------
  // Locating the phase of a day

  /** Last day of phase `i`'s span: the day before the next phase starts, or
      the year's last day for the last phase. */
  function PhaseEnd(i: nat, daysInYear: int): int
    requires i < |Phases|
  {
    if i < |Phases| - 1 then Phases[i + 1].startDay - 1 else daysInYear
  }

  predicate InPhase(day: int, i: nat, daysInYear: int)
    requires i < |Phases|
  {
    Phases[i].startDay <= day <= PhaseEnd(i, daysInYear)
  }

  /** The first-match search over the phase table that the source repeats in
      each of its loops, starting at index `from`. */
  function FindPhase(day: int, daysInYear: int, from: nat := 0): (r: Option<nat>)
    requires from <= |Phases|
    ensures r.Some? ==> from <= r.value < |Phases| && InPhase(day, r.value, daysInYear)
    ensures r.None? ==> forall j :: from <= j < |Phases| ==> !InPhase(day, j, daysInYear)
    decreases |Phases| - from
  {
    if from == |Phases| then None
    else if InPhase(day, from, daysInYear) then Some(from)
    else FindPhase(day, daysInYear, from + 1)
  }

  /** Reference definition: the phase of a day in [1, daysInYear]. */
  function PhaseIndex(day: int): nat
    requires day >= 1
  {
    if day <= 292 then (day - 1) / 73 else 4
  }

  /** The table in closed form: phase i starts on day 1 + 73 i, and every
      phase but the last spans exactly 73 days. */
  lemma PhaseTableShape(i: nat, daysInYear: int)
    requires i < |Phases|
    ensures Phases[i].startDay == 1 + 73 * i
    ensures i < |Phases| - 1 ==> PhaseEnd(i, daysInYear) - Phases[i].startDay + 1 == 73
    ensures i == |Phases| - 1 ==> PhaseEnd(i, daysInYear) - Phases[i].startDay + 1 == daysInYear - 292
  {
  }

  /** Every day of a year lies in exactly one phase, the one `PhaseIndex`
      names, and the search finds it; so the source's fall-through after its
      loop is unreachable for an in-range day. */
  lemma LocateValidDay(day: int, daysInYear: int)
    requires daysInYear == 365 || daysInYear == 366
    requires 1 <= day <= daysInYear
    ensures FindPhase(day, daysInYear) == Some(PhaseIndex(day))
    ensures forall j :: 0 <= j < |Phases| && InPhase(day, j, daysInYear) ==> j == PhaseIndex(day)
  {
    var p := PhaseIndex(day);
    assert InPhase(day, p, daysInYear);
    forall j | 0 <= j < |Phases| && InPhase(day, j, daysInYear)
      ensures j == p
    {
      PhaseTableShape(j, daysInYear);
    }
  }

  // ---------------------------------------------------------------------------
  // getNewCalendarDate

  /** The structured form of a Phase Calendar code. `Unlocated` is the
      source's fall-through after its phase loop, shown unreachable below. */
  datatype DayCode =
    | LeapDay
    | Closing(phase: nat)
    | Grid(late: bool, phase: nat, row: int, col: int)
    | InvalidDay(day: int)
    | Unlocated(day: int, year: int)
  {
    predicate WellFormed() {
      match this
      case Closing(p) => p < |Phases|
      case Grid(_, p, row, col) => p < |Phases| && 1 <= row <= 6 && 1 <= col <= 6
      case _ => true
    }
  }

  /** Whether day `dayInPhase` of phase `i` is that phase's CO day: the last
      day of the span, except in the last phase of a leap year, where it is
      the day before the appended leap day. */
  predicate IsClosingDayInPhase(i: nat, dayInPhase: int, phaseLength: int, leap: bool)
  {
    if leap && i == |Phases| - 1 then dayInPhase == phaseLength - 1 else dayInPhase == phaseLength
  }

  function CalendarCode(day: int, year: int): (c: DayCode)
    ensures c.WellFormed()
    ensures c == LeapDay <==> IsLeapYear(year) && day == 366
    ensures c.InvalidDay? <==> day < 1 || day > DaysInYear(year)
  {
    var leap := IsLeapYear(year);
    if leap && day == 366 then LeapDay
    else
      var daysInYear := DaysInYear(year);
      if day < 1 || day > daysInYear then InvalidDay(day)
      else
        match FindPhase(day, daysInYear)
        case None => Unlocated(day, year)
        case Some(i) =>
          var phaseLength :=
            if i < |Phases| - 1 then Phases[i + 1].startDay - Phases[i].startDay
            else daysInYear - Phases[i].startDay + 1;
          var dayInPhase := day - Phases[i].startDay + 1;
          if IsClosingDayInPhase(i, dayInPhase, phaseLength, leap) then Closing(i)
          else
            var late := dayInPhase > DaysPerSection;
            var dayWithinSection := if late then dayInPhase - DaysPerSection else dayInPhase;
            PhaseTableShape(i, daysInYear);
            GridArithmetic(dayWithinSection);
            Grid(late, i, CeilDiv(dayWithinSection, 6), JsRem(dayWithinSection - 1, 6) + 1)
  }

  /** The string the source builds for a code. */
  function Render(c: DayCode): (s: string)
    requires c.WellFormed()
  {
    match c
    case LeapDay => LeapDayCode
    case Closing(p) => Phases[p].co
    case Grid(late, p, row, col) =>
      [if late then 'L' else 'E', Phases[p].short, RowLabels[row - 1], Digit(col)]
    case InvalidDay(d) => "Day " + IntToString(d) + " (Invalid)"
    case Unlocated(d, y) => "Day " + IntToString(d) + " of " + IntToString(y)
  }

  /** `getNewCalendarDate(dayOfYear, year)`. */
  function NewCalendarDate(day: int, year: int): string
  {
    Render(CalendarCode(day, year))
  }

  // ---------------------------------------------------------------------------
  // Reading a code back

  /** The day a phase's CO code stands for in `year`. */
  function ClosingDay(p: nat, year: int): int
    requires p < |Phases|
  {
    if IsLeapYear(year) && p == |Phases| - 1 then PhaseEnd(p, DaysInYear(year)) - 1
    else PhaseEnd(p, DaysInYear(year))
  }

  function PhaseWithCo(s: string, from: nat := 0): (r: Option<nat>)
    requires from <= |Phases|
    ensures r.Some? ==> from <= r.value < |Phases| && Phases[r.value].co == s
    ensures r.None? ==> forall j :: from <= j < |Phases| ==> Phases[j].co != s
    decreases |Phases| - from
  {
    if from == |Phases| then None
    else if Phases[from].co == s then Some(from)
    else PhaseWithCo(s, from + 1)
  }

  function PhaseWithShort(c: char, from: nat := 0): (r: Option<nat>)
    requires from <= |Phases|
    ensures r.Some? ==> from <= r.value < |Phases| && Phases[r.value].short == c
    ensures r.None? ==> forall j :: from <= j < |Phases| ==> Phases[j].short != c
    decreases |Phases| - from
  {
    if from == |Phases| then None
    else if Phases[from].short == c then Some(from)
    else PhaseWithShort(c, from + 1)
  }

  function RowWithLabel(c: char, from: nat := 0): (r: Option<nat>)
    requires from <= |RowLabels|
    ensures r.Some? ==> from <= r.value < |RowLabels| && RowLabels[r.value] == c
    ensures r.None? ==> forall j :: from <= j < |RowLabels| ==> RowLabels[j] != c
    decreases |RowLabels| - from
  {
    if from == |RowLabels| then None
    else if RowLabels[from] == c then Some(from)
    else RowWithLabel(c, from + 1)
  }

  /** The day of the year a code names in `year`, or None for a string that is
      not a code of that year. */
  function DecodeCalendarDate(s: string, year: int): (r: Option<int>)
    ensures r.Some? ==> 1 <= r.value <= DaysInYear(year)
  {
    if s == LeapDayCode then (if IsLeapYear(year) then Some(366) else None)
    else if |s| != 4 then None
    else match PhaseWithCo(s)
      case Some(p) =>
        PhaseTableShape(p, DaysInYear(year));
        Some(ClosingDay(p, year))
      case None =>
        match PhaseWithShort(s[1])
        case None => None
        case Some(p) =>
          match RowWithLabel(s[2])
          case None => None
          case Some(row) =>
            if (s[0] == 'E' || s[0] == 'L') && '1' <= s[3] <= '6' then
              var col := (s[3] as int) - ('0' as int);
              PhaseTableShape(p, DaysInYear(year));
              Some(Phases[p].startDay - 1 + (if s[0] == 'L' then DaysPerSection else 0) + row * 6 + col)
            else None
  }

  // ---------------------------------------------------------------------------
  // Properties

  /** `ICD` is returned exactly for day 366 of a leap year. */
  lemma LeapDayCodeExactly(day: int, year: int)
    ensures NewCalendarDate(day, year) == LeapDayCode <==> IsLeapYear(year) && day == 366
  {
    var c := CalendarCode(day, year);
    if c.InvalidDay? {
      assert |NewCalendarDate(day, year)| > 3;
    } else if c.Unlocated? {
      assert |NewCalendarDate(day, year)| > 3;
    } else if c.Closing? {
      assert |Phases[c.phase].co| == 4;
    }
  }

  /** An out-of-range day gets the explicit invalid marker (nothing is thrown),
      and the marker is not a code of any day. */
  lemma InvalidDayMarker(day: int, year: int)
    requires day < 1 || day > DaysInYear(year)
    ensures NewCalendarDate(day, year) == "Day " + IntToString(day) + " (Invalid)"
    ensures DecodeCalendarDate(NewCalendarDate(day, year), year) == None
  {
    assert |NewCalendarDate(day, year)| > 4;
  }

  /** For an in-range day the fall-through after the phase loop is never
      reached, and the code names the day's phase. */
  lemma NoFallThrough(day: int, year: int)
    requires 1 <= day <= DaysInYear(year)
    ensures !CalendarCode(day, year).Unlocated?
    ensures CalendarCode(day, year).Closing? ==> CalendarCode(day, year).phase == PhaseIndex(day)
    ensures CalendarCode(day, year).Grid? ==> CalendarCode(day, year).phase == PhaseIndex(day)
  {
    LocateValidDay(day, DaysInYear(year));
  }

  /** The CO days of every year are 73, 146, 219, 292 and 365: in a leap
      year the last phase closes one day early so that IPCO stays on 365. */
  lemma ClosingDays(day: int, year: int)
    ensures CalendarCode(day, year).Closing? <==> day == 73 || day == 146 || day == 219 || day == 292 || day == 365
    ensures CalendarCode(day, year).Closing? ==> CalendarCode(day, year).phase == day / 73 - 1
  {
    if 1 <= day <= DaysInYear(year) {
      LocateValidDay(day, DaysInYear(year));
      PhaseTableShape(PhaseIndex(day), DaysInYear(year));
    }
  }

  lemma InterphaseClosesOn365(year: int)
    ensures NewCalendarDate(365, year) == "IPCO"
  {
    ClosingDays(365, year);
  }

  lemma GridArithmetic(w: int)
    requires 1 <= w <= DaysPerSection
    ensures 1 <= CeilDiv(w, 6) <= 6 && 1 <= JsRem(w - 1, 6) + 1 <= 6
    ensures (CeilDiv(w, 6) - 1) * 6 + JsRem(w - 1, 6) + 1 == w
  {
  }

  /** A grid code: the prefix is E exactly for the first 36 days of the phase,
      and (prefix, row, column) spell out the day in the phase. */
  lemma GridShape(day: int, year: int)
    requires CalendarCode(day, year).Grid?
    ensures var c := CalendarCode(day, year);
      var dayInPhase := day - Phases[c.phase].startDay + 1;
      && (c.late <==> dayInPhase > DaysPerSection)
      && 1 <= dayInPhase <= 2 * DaysPerSection
      && dayInPhase == (if c.late then DaysPerSection else 0) + (c.row - 1) * 6 + c.col
  {
    var c := CalendarCode(day, year);
    LocateValidDay(day, DaysInYear(year));
    PhaseTableShape(c.phase, DaysInYear(year));
    var dayInPhase := day - Phases[c.phase].startDay + 1;
    GridArithmetic(if c.late then dayInPhase - DaysPerSection else dayInPhase);
  }

  lemma DecodeClosingCode(day: int, year: int)
    requires CalendarCode(day, year).Closing?
    ensures DecodeCalendarDate(NewCalendarDate(day, year), year) == Some(day)
  {
    var p := CalendarCode(day, year).phase;
    var s := NewCalendarDate(day, year);
    ClosingDays(day, year);
    assert s == Phases[p].co;
    assert PhaseWithCo(s) == Some(p);
    PhaseTableShape(p, DaysInYear(year));
  }

  /** A grid code string names the day at its half, row and column of the phase. */
  lemma DecodeGridString(late: bool, p: nat, row: nat, col: int, year: int, day: int)
    requires p < |Phases| && 1 <= row <= |RowLabels| && 1 <= col <= 6
    requires day == Phases[p].startDay - 1 + (if late then DaysPerSection else 0) + (row - 1) * 6 + col
    ensures DecodeCalendarDate([if late then 'L' else 'E', Phases[p].short, RowLabels[row - 1], Digit(col)], year) == Some(day)
  {
    var s := [if late then 'L' else 'E', Phases[p].short, RowLabels[row - 1], Digit(col)];
    assert PhaseWithCo(s) == None;
    ShortFound(p);
    RowLabelFound(row - 1);
    assert (s[3] as int) - ('0' as int) == col;
  }

  /** Phase letters are distinct, so the search finds a phase by its own. */
  lemma ShortFound(p: nat)
    requires p < |Phases|
    ensures PhaseWithShort(Phases[p].short) == Some(p)
  {
    var r := PhaseWithShort(Phases[p].short);
    assert r.Some?;
  }

  /** Row labels are distinct, so the search finds a row by its own. */
  lemma RowLabelFound(row: nat)
    requires row < |RowLabels|
    ensures RowWithLabel(RowLabels[row]) == Some(row)
  {
    var r := RowWithLabel(RowLabels[row]);
    assert r.Some?;
  }

  lemma DecodeGridCode(day: int, year: int)
    requires CalendarCode(day, year).Grid?
    ensures DecodeCalendarDate(NewCalendarDate(day, year), year) == Some(day)
  {
    var c := CalendarCode(day, year);
    var code := [if c.late then 'L' else 'E', Phases[c.phase].short, RowLabels[c.row - 1], Digit(c.col)];
    assert NewCalendarDate(day, year) == code;
    GridShape(day, year);
    assert Phases[c.phase].startDay - 1 + (if c.late then DaysPerSection else 0) + (c.row - 1) * 6 + c.col == day;
    DecodeGridString(c.late, c.phase, c.row, c.col, year, day);
  }

  /** Round trip: every in-range day's code decodes back to that day. */
  lemma DecodeNewCalendarDate(day: int, year: int)
    requires 1 <= day <= DaysInYear(year)
    ensures DecodeCalendarDate(NewCalendarDate(day, year), year) == Some(day)
  {
    NoFallThrough(day, year);
    var c := CalendarCode(day, year);
    if c.Closing? {
      DecodeClosingCode(day, year);
    } else if c.Grid? {
      DecodeGridCode(day, year);
    }
  }

  /** Distinct in-range days of one year get distinct codes. */
  lemma NewCalendarDateInjective(d1: int, d2: int, year: int)
    requires 1 <= d1 <= DaysInYear(year) && 1 <= d2 <= DaysInYear(year)
    requires NewCalendarDate(d1, year) == NewCalendarDate(d2, year)
    ensures d1 == d2
  {
    DecodeNewCalendarDate(d1, year);
    DecodeNewCalendarDate(d2, year);
  }

  // ---------------------------------------------------------------------------
  // getOrdinalSuffix

  /** `getOrdinalSuffix(day)`: "th" for 4..20, otherwise chosen by the last
      digit (with JavaScript's sign-keeping remainder). For the days of a
      month this is the English ordinal. */
  function OrdinalSuffix(day: int): (s: string)
    ensures 3 < day < 21 ==> s == "th"
    ensures 1 <= day <= 31 ==>
      (s == "st" <==> day in {1, 21, 31}) &&
      (s == "nd" <==> day in {2, 22}) &&
      (s == "rd" <==> day in {3, 23}) &&
      (s == "th" <==> !(day in {1, 2, 3, 21, 22, 23, 31}))
    ensures day < 0 ==> s == "th"
  {
    if day > 3 && day < 21 then "th"
    else
      var last := JsRem(day, 10);
      if last == 1 then "st"
      else if last == 2 then "nd"
      else if last == 3 then "rd"
      else "th"
  }
}
