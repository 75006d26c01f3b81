/**
 * The records the event engine works on: recurrence patterns, master events
 * as the persistence layer returns them, per-occurrence modifications, and
 * the materialized occurrences the presentation layer displays.
 */
module EventModel {
  import opened Wrappers
  import opened Gregorian

  /** A recurrence pattern. `NoRecurrence` stands for `'none'` and for a
      missing or empty pattern (the source's `recurrence_pattern || 'none'`);
      any other unknown text is kept as `Unrecognized`. */
  datatype Pattern = NoRecurrence | Weekly | Subphasely | Phasely | Yearly | Unrecognized(name: string)

  /** The wire name of a pattern. */
  function PatternName(p: Pattern): string {
    match p
    case NoRecurrence => "none"
    case Weekly => "weekly"
    case Subphasely => "subphasely"
    case Phasely => "phasely"
    case Yearly => "yearly"
    case Unrecognized(name) => name
  }

  /** Reads a stored pattern; a missing or empty value is falsy and counts as
      `'none'`. */
  function ParsePattern(raw: Option<string>): (p: Pattern)
    ensures raw.None? || raw == Some("") || raw == Some("none") ==> p == NoRecurrence
    ensures raw.Some? && p != NoRecurrence ==> PatternName(p) == raw.value
  {
    match raw
    case None => NoRecurrence
    case Some(s) =>
      if s == "" || s == "none" then NoRecurrence
      else if s == "weekly" then Weekly
      else if s == "subphasely" then Subphasely
      else if s == "phasely" then Phasely
      else if s == "yearly" then Yearly
      else Unrecognized(s)
  }

  /** Parsing a known pattern's name gives that pattern back. */
  lemma ParsePatternName(p: Pattern)
    requires !p.Unrecognized?
    ensures ParsePattern(Some(PatternName(p))) == p
  {
  }

  /** A master event: the user-authored event anchored on one day. `notes`
      and `category` may be missing; `repeats` is `number_of_repeats`. */
  datatype MasterEvent = MasterEvent(
    id: int,
    key: YearDay,
    description: string,
    notes: Option<string>,
    category: Option<string>,
    pattern: Pattern,
    repeats: Option<int>)

  /** The fields one occurrence's modification overrides. */
  datatype Modification = Modification(description: string, notes: string, category: string)

  /** Whether a materialized occurrence is a master's own anchor entry or an
      instance generated from it (with its back-references). */
  datatype Origin = RecurringMaster | RecurringInstance(originalEventId: int, originalEventKey: YearDay)

  /** One display-ready occurrence. */
  datatype Occurrence = Occurrence(
    id: int,
    description: string,
    key: YearDay,
    notes: string,
    category: string,
    pattern: Pattern,
    repeats: Option<int>,
    origin: Origin,
    isModifiedInstance: bool)

  /** JavaScript's `value || fallback` for an optional string: a missing or
      empty value gives the fallback. */
  function OrDefault(value: Option<string>, fallback: string): (r: string)
    ensures value.Some? && value.value != "" ==> r == value.value
    ensures value.None? || value.value == "" ==> r == fallback
  {
    if value.Some? && value.value != "" then value.value else fallback
  }
}
