# Phase Calendar: a verified model of the date arithmetic and the recurrence engine

The Phase Calendar divides every year into five phases of 73 days: Prophase,
Metaphase, Anaphase, Telophase and Interphase. The last phase absorbs the leap
day. Each phase has two 36-day halves ("early" and "late"), each laid out as a
6×6 grid, and ends on a CO ("closing") day. The front end does two jobs:

- it names every Gregorian day with a Phase Calendar code (`EPA1`, `PMCO`,
  `ICD` for the leap day);
- it expands recurring events into concrete occurrences. A master event has a
  pattern (weekly, subphasely, phasely or yearly) and a repeat count. Its
  occurrences can be excepted (deleted) or modified one by one.

This project models that core in Dafny and proves its properties.

| file | models |
|---|---|
| `wrappers.dfy` | `Option` and `Result` |
| `gregorian.dfy` | the leap rule, month lengths, `getDayOfYear`, and (year, day-of-year) ordinals `YearDay` with their order |
| `phase_calendar.dfy` | the phase table, `getNewCalendarDate` (as a structured code plus its rendering), a decoder that inverts it, and `getOrdinalSuffix` |
| `event_model.dfy` | patterns, master events, modifications and materialized occurrences |
| `day_classifier.dfy` | `isCODay` and the recurrence options the add-event form offers |
| `stepper.dfy` | `calculateNextOccurrence` for each pattern |
| `materializer.dfy` | the materialization loop of `fetchAndRenderEvents`, as imperative methods proved against a fold (`Materialized`); also per-day, soundness, completeness and counting lemmas about that fold |
| `event_forms.dfy` | the panel's category/search filter, `trim`, and the add-event and edit-event validation |
| `app_state.dfy` | the module-level state and its setters as a class `State`, plus `fetchAndRenderEvents` as a method on it |

Modelling conventions:

- A JavaScript `Date` built as `new Date(y, 0)` followed by `setDate(n)`
  becomes the ordinal reached by counting `n` days from January 1 of `y`,
  rolling into later years (`Stepper.FromDayNumber`).
- JavaScript's truncating `%` is written out as `PhaseCalendar.JsRem`.
- `Math.ceil(n / k)` is written out as `PhaseCalendar.CeilDiv`.
- `null`, `undefined` and `NaN` are `None`.
- Event keys `"<year>-<day>"` are already parsed into `YearDay` values.
- The code and its specification disagree on one point, and the model follows
  the code. The specification says the leap day is not a CO day. `isCODay`
  (frontend/js/eventManager.js:36-59) does call day 366 of a leap year a CO
  day, and does not call day 365 one. `getNewCalendarDate` codes those two days
  the other way round (`ICD` for 366, `IPCO` for 365).
  `DayClassifier.LeapYearDisagreement` states the discrepancy, and the option
  menu and the subphasely rule use `isCODay` as written.

## Model

| member | source | states |
|---|---|---|
| Gregorian.DaysInYear | frontend/js/utils.js:81-86 | a year has 366 days exactly when the Gregorian leap rule holds, else 365 |
| Gregorian.DaysInMonth | frontend/js/eventManager.js:1199-1205 | month lengths lie in 28..31; a month has 29 days exactly for February of a leap year |
| Gregorian.MonthsFillYear | frontend/js/utils.js:52-56 | the twelve month lengths add up to the year length |
| Gregorian.DaysBeforeMonthMonotone | frontend/js/utils.js:52-56 | month start offsets increase by at least 28 days per month |
| Gregorian.GetDayOfYear | frontend/js/utils.js:52-56 | the day of the year is 1-based and within the year length; January 1 is 1 and December 31 is the year's last day |
| Gregorian.MonthDayFrom | frontend/js/eventManager.js:1192-1197 | the month search finds a valid (month, day) whose offset equals the requested day |
| Gregorian.MonthDay | frontend/js/eventManager.js:1192-1197 | the (month, day of month) of a valid ordinal is a real calendar date whose day of the year is that ordinal |
| Gregorian.GetDayOfYearInjective | frontend/js/utils.js:52-56 | two calendar dates with the same day of the year are the same date |
| Gregorian.MonthDayRoundTrip | frontend/js/utils.js:52-56 | `MonthDay` inverts `GetDayOfYear` |
| PhaseCalendar.JsRem | frontend/js/utils.js:135 | JavaScript `%`: agrees with the mathematical remainder on non-negative input, is bounded by the divisor, and takes the dividend's sign |
| PhaseCalendar.CeilDiv | frontend/js/utils.js:134 | `Math.ceil(n / k)` is the least q with n ≤ q·k |
| PhaseCalendar.NatToString | frontend/js/utils.js:89 | the decimal rendering is a non-empty digit string without a leading zero whose value (`DigitsValue`) is the number |
| PhaseCalendar.IntToString | frontend/js/utils.js:89 | a non-negative number renders as digits worth the number; a negative one as `-` followed by digits worth its magnitude |
| PhaseCalendar.IntToStringInjective | frontend/js/utils.js:89 | different numbers render differently |
| PhaseCalendar.FindPhase | frontend/js/utils.js:92-102 | the first-match phase search returns a phase containing the day, or None only when no phase from the start index contains it |
| PhaseCalendar.PhaseTableShape | frontend/js/utils.js:19-25 | phase i starts on day 1 + 73i; every phase but the last spans 73 days and the last spans the rest of the year |
| PhaseCalendar.LocateValidDay | frontend/js/utils.js:92-102 | every day of the year lies in exactly one phase, which the search finds |
| PhaseCalendar.CalendarCode | frontend/js/utils.js:80-143 | the code is well formed; it is the leap-day code exactly for day 366 of a leap year, and the invalid marker exactly for days outside the year |
| PhaseCalendar.PhaseWithCo | frontend/js/utils.js:19-25 | looking up a phase by its CO code finds a phase with that code, or None when no phase has it |
| PhaseCalendar.PhaseWithShort | frontend/js/utils.js:19-25 | looking up a phase by its letter finds a phase with that letter, or None when no phase has it |
| PhaseCalendar.RowWithLabel | frontend/js/utils.js:136 | looking up a grid row by its letter finds that row, or None |
| PhaseCalendar.DecodeCalendarDate | frontend/js/utils.js:104-138 | a decoded code always names a day inside the year |
| PhaseCalendar.LeapDayCodeExactly | frontend/js/utils.js:81-84 | `getNewCalendarDate` returns `ICD` exactly for day 366 of a leap year |
| PhaseCalendar.InvalidDayMarker | frontend/js/utils.js:86-90 | an out-of-range day gets the `Day N (Invalid)` marker (nothing is thrown), and that marker decodes to no day |
| PhaseCalendar.NoFallThrough | frontend/js/utils.js:92-142 | for an in-range day the fall-through at the end is unreachable, and the code's phase is the day's phase |
| PhaseCalendar.ClosingDays | frontend/js/utils.js:106-121 | CO codes are given exactly on days 73, 146, 219, 292 and 365, in common and leap years, to phase day/73 − 1 |
| PhaseCalendar.InterphaseClosesOn365 | frontend/js/utils.js:108-116 | day 365 is coded `IPCO` in every year |
| PhaseCalendar.GridArithmetic | frontend/js/utils.js:127-136 | row = ceil(w/6) and col = (w−1)%6+1 are both in 1..6 and give back w = (row−1)·6 + col |
| PhaseCalendar.GridShape | frontend/js/utils.js:123-138 | a grid code has prefix `E` exactly in the first 36 days of its phase; its row and column are in range and determine the day |
| PhaseCalendar.DecodeClosingCode | frontend/js/utils.js:106-121 | a CO code decodes back to its day |
| PhaseCalendar.DecodeGridString | frontend/js/utils.js:123-138 | a grid string decodes to phase start − 1 + (36 if late) + (row−1)·6 + col |
| PhaseCalendar.DecodeGridCode | frontend/js/utils.js:123-138 | a grid code decodes back to its day |
| PhaseCalendar.DecodeNewCalendarDate | frontend/js/utils.js:80-143 | round trip: every in-range day's code decodes back to that day |
| PhaseCalendar.NewCalendarDateInjective | frontend/js/utils.js:80-143 | distinct in-range days of one year get distinct codes |
| PhaseCalendar.OrdinalSuffix | frontend/js/utils.js:59-68 | `th` for 4..20; on the days 1..31, `st` exactly for 1, 21, 31, `nd` exactly for 2, 22, `rd` exactly for 3, 23, `th` for the rest; `th` for every negative day |
| DayClassifier.IsCODayExactly | frontend/js/eventManager.js:36-59 | `isCODay` holds exactly for days 73, 146, 219, 292 and the year's last day |
| DayClassifier.FiveCODaysPerYear | frontend/js/eventManager.js:36-59 | every year has exactly five CO days by this rule |
| DayClassifier.CommonYearAgreement | frontend/js/eventManager.js:36-59 | in a common year `isCODay` agrees with the CO codes of `getNewCalendarDate` |
| DayClassifier.LeapYearDisagreement | frontend/js/eventManager.js:36-59 | in a leap year `isCODay` calls day 366 (coded `ICD`) a CO day and not day 365 (coded `IPCO`) |
| DayClassifier.RecurrenceOptions | frontend/js/eventManager.js:181-216 | 'none' comes first; weekly and subphasely are offered exactly on non-CO days; phasely and yearly are always offered; there are no duplicates |
| EventModel.ParsePattern | frontend/js/eventManager.js:1293 | a missing, empty or 'none' pattern reads as none; any other pattern keeps its name |
| EventModel.ParsePatternName | frontend/js/eventManager.js:1059-1212 | parsing a known pattern's name gives back the pattern |
| EventModel.OrDefault | frontend/js/eventManager.js:1291-1292 | `value \|\| fallback`: a present, non-empty value is kept; otherwise the fallback is used |
| Stepper.FromDayNumber | frontend/js/eventManager.js:1128-1129 | `setDate(n)` from January 1 gives a valid date; it stays in the year exactly when n is within the year length, and rolls into a later year otherwise |
| Stepper.Landed | frontend/js/eventManager.js:1131-1133 | the day-overflow guard accepts exactly the days inside the target year |
| Stepper.NextPhase | frontend/js/eventManager.js:1121 | the phase after phase i is i + 1, and after the last phase (Interphase) it is the first (Prophase) |
| Stepper.SubphaselyStep | frontend/js/eventManager.js:1064-1134 | a subphasely step, when there is one, is a valid date |
| Stepper.PhaselyStep | frontend/js/eventManager.js:1136-1189 | a phasely step, when there is one, is a valid date after the current one |
| Stepper.YearlyMonthDay | frontend/js/eventManager.js:1192-1204 | the yearly month/day is a real date in the target year |
| Stepper.YearlyStep | frontend/js/eventManager.js:1191-1210 | a yearly step is a valid date after the current one |
| Stepper.AnchorOffset | frontend/js/eventManager.js:1038-1057 | the anchor's offset in its phase is never negative |
| Stepper.NextOccurrence | frontend/js/eventManager.js:1029-1230 | any next occurrence is a valid date strictly after the current one |
| Stepper.WeeklyIsSixDaysLater | frontend/js/eventManager.js:1060-1062 | weekly returns the date six days later, rolling into the next year when needed |
| Stepper.UnrecognizedPatternStops | frontend/js/eventManager.js:1212-1229 | 'none' and unrecognised patterns end the series |
| Stepper.AnchorInCurrentYear | frontend/js/eventManager.js:1038-1057 | an anchor day inside the current year's length is located in its phase at its offset |
| Stepper.SubphaselyStopsWhen | frontend/js/eventManager.js:1064-1134 | subphasely returns null exactly when the anchor day is beyond the current year's length, or the anchor's or the current day's phase offset is 72 or more |
| Stepper.SubphaselyFromEarlyHalf | frontend/js/eventManager.js:1112-1120 | from an early-half day the next occurrence is the same phase's start + 36 + the anchor's offset within its half |
| Stepper.SubphaselyFromLateHalf | frontend/js/eventManager.js:1120-1126 | from a late-half day the next occurrence is the next phase's start + the anchor's offset within its half; the year increments after the last phase |
| Stepper.SubphaselyNeverFromCODay | frontend/js/eventManager.js:1070-1076 | a subphasely series anchored on a CO day (by either rule) never steps |
| Stepper.PhaselyStepForm | frontend/js/eventManager.js:1136-1189 | phasely returns the next phase's start + the anchor's offset, wrapping to the next year; it returns None exactly when that day is past the year's end |
| Stepper.PhaselyAlwaysSteps | frontend/js/eventManager.js:1153-1189 | phasely always returns a date: the fallback search and both null guards are unreachable |
| Stepper.YearlyKeepsMonthDay | frontend/js/eventManager.js:1191-1210 | yearly returns the anchor's month and day in the next year; February 29 becomes February 28 when that year is not a leap year |
| Stepper.PhaselyFromProphaseCO | frontend/js/eventManager.js:1136-1189 | phasely from 2025 day 73 (the Prophase CO day) lands on day 146 (the Metaphase CO day) |
| Materializer.ExceptionSet | frontend/js/eventManager.js:1263 | the exception set holds exactly the entries listed under any master |
| Materializer.KeyString | frontend/js/eventManager.js:1284 | a written day key holds no comma |
| Materializer.TagString | frontend/js/eventManager.js:1284 | an entry's string holds a comma exactly when it is an `"id,key"` entry; it is `id,year-day` for those and `year-day` for a bare key |
| Materializer.BareKeyNeverLooksUp | frontend/js/eventManager.js:1284 | a bare day key's string differs from every `"id,key"` lookup string |
| Materializer.PairsToMap | frontend/js/eventManager.js:1264 | `new Map(pairs)` has exactly the keys that occur in the pairs |
| Materializer.PairsToMapLastWins | frontend/js/eventManager.js:1264 | a key maps to the value of its last pair |
| Materializer.StepLimit | frontend/js/eventManager.js:1302-1310 | for an expanding series the loop may turn `number_of_repeats` times when that is at most 5·366, and 5·366 times otherwise; it is zero exactly when the series does not expand |
| Materializer.DelayedStepIsStep | frontend/js/eventManager.js:1310 | the step the series takes from a valid date is `calculateNextOccurrence` from that date |
| Materializer.Series | frontend/js/eventManager.js:1309-1344 | a series has no more dates than are still wanted (`generatedCount < number_of_repeats`) and no more than the turns left (`iterationCounter < 5·366`) |
| Materializer.SeriesIndexNext | frontend/js/eventManager.js:1310-1344 | step k of a series, taken from the date reached after k steps, gives the series' k-th date |
| Materializer.SeriesIndexEnd | frontend/js/eventManager.js:1309-1312 | a series shorter than both of its counters ends where the step from its last date returns null |
| Materializer.GeneratedStep | frontend/js/eventManager.js:1310-1344 | within the step limit, the date the loop stands on after k steps is valid, and the step from it returns the k-th generated date, or null exactly when the generated dates end there |
| Materializer.SeriesIncreasing | frontend/js/eventManager.js:1310-1344 | a series' dates are valid, later than the start, and strictly increasing |
| Materializer.Materialize | frontend/js/eventManager.js:1262-1346 | the dictionary the loop builds equals the fold `Materialized` over the masters |
| Materializer.AddMaster | frontend/js/eventManager.js:1266-1345 | one master's turn: its key gets a list, then its contribution is appended under each occurrence's key |
| Materializer.PushOccurrence | frontend/js/eventManager.js:1320-1340 | an excepted occurrence leaves the dictionary unchanged; otherwise its entry is appended under its key |
| Materializer.PushInstances | frontend/js/eventManager.js:1302-1344 | the `while` loop appends the instance entries of exactly the generated dates, in order |
| Materializer.PushAllAppend | frontend/js/eventManager.js:1287-1339 | appending two lists of occurrences in turn equals appending their concatenation |
| MaterializerProperties.OnDay | frontend/js/eventManager.js:1287-1339 | the occurrences filed for a day are exactly those with that key |
| MaterializerProperties.PushAllAt | frontend/js/eventManager.js:1324-1327 | after appending, a key is present exactly when it was before or gained an occurrence; its list is the old list plus the new occurrences for that day |
| MaterializerProperties.AnchorKeys | frontend/js/eventManager.js:1278-1280 | the anchor keys are exactly the masters' keys |
| MaterializerProperties.MaterializedAt | frontend/js/eventManager.js:1262-1346 | a key is in the dictionary exactly when it is an anchor key or some occurrence falls on it; each day's list is all contributions for that day, in master order |
| MaterializerProperties.AnchorKeysPresent | frontend/js/eventManager.js:1278-1280 | every master's key gets a list, even an empty one |
| MaterializerProperties.FiledUnderOwnKey | frontend/js/eventManager.js:1287-1339 | every occurrence is filed under its own key |
| MaterializerProperties.InstanceEntriesSound | frontend/js/eventManager.js:1320-1339 | every instance entry is a non-excepted generated date with the overriding fields and back-references; every non-excepted date has one |
| MaterializerProperties.ContributionSound | frontend/js/eventManager.js:1283-1339 | every occurrence a master contributes is non-excepted, carries the master's id and pattern, and takes its fields from its modification when one exists (else from the master, with defaults '' and 'General'); `isModifiedInstance` holds exactly when a modification exists |
| MaterializerProperties.ContributionComplete | frontend/js/eventManager.js:1284-1323 | the master entry is present exactly when its key is not excepted, and every non-excepted generated date has an instance |
| MaterializerProperties.CountExcepted | frontend/js/eventManager.js:1320 | at most all of the dates are excepted |
| MaterializerProperties.InstanceCount | frontend/js/eventManager.js:1320-1343 | instances plus excepted dates make up all the dates: excepted occurrences are skipped but still count |
| MaterializerProperties.SeriesCount | frontend/js/eventManager.js:1302-1344 | a master yields at most `number_of_repeats` and at most 5·366 dates; instances plus skipped dates equal the dates; a non-expanding master yields none |
| MaterializerProperties.SeriesFull | frontend/js/eventManager.js:1310-1344 | weekly, phasely and yearly series never stop early: they have as many dates as the smaller of their two counters |
| MaterializerProperties.ExactSeriesLength | frontend/js/eventManager.js:1302-1344 | a weekly, phasely or yearly master generates exactly `number_of_repeats` dates, or 5·366 when it asks for more |
| MaterializerProperties.StandupDates | frontend/js/eventManager.js:1310-1344 | a weekly event on 2025 day 1 with 2 repeats generates days 7 and 13 |
| MaterializerProperties.WeeklyScenario | frontend/js/eventManager.js:1262-1346 | that event materializes to the master on day 1 and one instance each on days 7 and 13 |
| MaterializerProperties.ExceptedOccurrenceScenario | frontend/js/eventManager.js:1320-1323 | excepting day 7 removes that key while day 13 keeps its instance |
| MaterializerProperties.ModifiedOccurrenceScenario | frontend/js/eventManager.js:1321-1334 | a modification of day 7 overrides its description and marks it modified, and leaves the other days as they were |
| MaterializerProperties.ExceptedSingleEvent | frontend/js/eventManager.js:1278-1298 | a non-recurring master whose own key is excepted leaves only an empty list under its key |
| MaterializerProperties.InstanceEntriesWithoutTags | frontend/js/eventManager.js:1320 | instance entries are the same under any exception set without `"id,key"` entries as under none |
| MaterializerProperties.ContributionWithoutTags | frontend/js/eventManager.js:1284-1323 | a master contributes the same under any exception set without `"id,key"` entries as under none |
| MaterializerProperties.BareKeysExceptNothing | frontend/js/eventManager.js:1263-1323 | exception lists holding only bare day keys delete nothing: the dictionary equals the one built without exceptions |
| MaterializerProperties.ModificationMapLookup | frontend/js/eventManager.js:1264 | the modification lookup uses the last entry for a master id and, within it, the last entry for a key |
| EventForms.ToLower | frontend/js/eventManager.js:283-288 | lower-casing keeps the length and lower-cases each character |
| EventForms.IncludesFrom | frontend/js/eventManager.js:286-287 | the search from an index succeeds exactly when the needle occurs at or after it |
| EventForms.Includes | frontend/js/eventManager.js:286-287 | `includes` holds exactly when the needle occurs somewhere |
| EventForms.TrimStart | frontend/js/eventManager.js:823 | the result is a suffix, only white space was dropped, and it does not start with white space |
| EventForms.TrimEnd | frontend/js/eventManager.js:823 | the result is a prefix, only white space was dropped, and it does not end with white space |
| EventForms.Trim | frontend/js/eventManager.js:823-824 | the trimmed text is a slice of the input with only white space before and after it; it neither starts nor ends with white space, and it is empty exactly when the input is all white space |
| EventForms.TrimIdempotent | frontend/js/eventManager.js:823-824 | trimming twice is trimming once |
| EventForms.FilterEvents | frontend/js/eventManager.js:283-291 | the filtered list keeps exactly the events that pass the category and search test, and is no longer than its input |
| EventForms.FilterOne | frontend/js/eventManager.js:283-291 | a one-event list is kept exactly when the event passes |
| EventForms.FilterSnoc | frontend/js/eventManager.js:283-291 | filtering a list with one more event appends that event exactly when it passes |
| EventForms.FilterAppend | frontend/js/eventManager.js:283-291 | filtering a concatenation concatenates the filtered parts, so the filter keeps order and multiplicity |
| EventForms.DefaultFilterShowsAll | frontend/js/eventManager.js:283-291 | with category 'All' and an empty search every event is kept, in order |
| EventForms.CategoryFilterExact | frontend/js/eventManager.js:285 | a category filter other than 'All' keeps only events of that category |
| EventForms.ValidateNewEvent | frontend/js/eventManager.js:823-856 | accepted exactly when a user is logged in, the trimmed name has 1..255 characters, the trimmed notes at most 1000, the repeats are a number ≥ 1 whenever a pattern is chosen, and a date is selected; each error (not logged in, name required, name too long, notes too long, repeats, no date) is returned exactly when the checks before it pass and its own fails; the request carries the user id, the selected key, the trimmed texts, the category, the pattern, and the repeats (none for 'none') |
| EventForms.SentRepeats | frontend/js/eventManager.js:827 | the repeat count sent is none for 'none' and the parsed value otherwise |
| EventForms.ValidateEdit | frontend/js/eventManager.js:710-782 | accepted exactly when a user is logged in, the trimmed description has 1..255 characters, the notes at most 1000, and either master mode has an event id and valid repeats or instance mode has an original id and a key; each error (not logged in, description length, notes too long, no master, repeats, no instance, unknown mode) is returned exactly when the checks before it pass and its own fails; a master edit carries the event id, user id, trimmed texts, category, pattern and repeats sent, an instance edit the original id, the key, the user id, the trimmed texts and the category |
| EventForms.AddAndEditAgreeOnDescriptions | frontend/js/eventManager.js:720-723 | the add form refuses a description exactly when the edit form does |
| AppState.FetchedEvents | frontend/js/eventManager.js:1247-1365 | a guest or a failed fetch leaves an empty dictionary; otherwise each day's list is the masters' contributions for that day |
| AppState.State.constructor | frontend/js/utils.js:1-12 | initial state: nothing selected, the clock's year displayed, no events, no user, filter 'All', empty search, search mode off |
| AppState.State.SetSelectedDayOfYear | frontend/js/utils.js:165-167 | sets the selected day and changes nothing else |
| AppState.State.SetSelectedYear | frontend/js/utils.js:169-171 | sets the selected year and changes nothing else |
| AppState.State.SetDisplayedYear | frontend/js/utils.js:173-175 | sets the displayed year and changes nothing else |
| AppState.State.SetEvents | frontend/js/utils.js:177-179 | replaces the event dictionary and changes nothing else |
| AppState.State.SetCurrentUserId | frontend/js/utils.js:181-183 | sets the user id and changes nothing else |
| AppState.State.SetCurrentUsername | frontend/js/utils.js:185-187 | sets the user name and changes nothing else |
| AppState.State.SetCurrentCategoryFilter | frontend/js/utils.js:190-192 | sets the category filter and changes nothing else |
| AppState.State.SetCurrentSearchTerm | frontend/js/utils.js:194-196 | sets the search term and changes nothing else |
| AppState.State.SetIsSearchModeActive | frontend/js/utils.js:198-200 | sets the search-mode flag and changes nothing else |
| AppState.State.FetchAndRenderEvents | frontend/js/eventManager.js:1238-1369 | the refresh replaces only the event dictionary: with nothing for a guest or a failed fetch, otherwise with the materialization of the fetched masters |
| AppState.State.PanelEvents | frontend/js/eventManager.js:228-296 | search mode shows search results; with no date selected nothing is listed; otherwise the list is the selected day's list filtered by category and search, so by `FilterOne` and `FilterAppend` it keeps the passing events in dictionary order |
| AppState.RefreshedPanelShowsDay | frontend/js/eventManager.js:281-291 | after a refresh, the default filter lists exactly the fetched masters' contributions for that day |

## Left out

- DOM rendering, event wiring, toasts, the loading overlays and inline error display are not modelled; the validators return which message would be shown.
- Network I/O is not modelled. The fetch in `fetchAndRenderEvents` is a `FetchResponse` parameter. A non-ok status, a network error and an unparsable body are all `Failed`, because each ends in `setEvents({})`. The non-ok branch reads an undefined `data`, throws, and lands in the same catch. The `fetch` calls of `saveEventNotes`, `addEvent` and the delete operations are left out: the model stops at the validated request.
- The clock read by `new Date().getFullYear()` is the constructor's `currentYear` parameter.
- Timezone and DST effects of JavaScript `Date` are not modelled. Neither is locale formatting (`formatTraditionalDate`). Dates are exact Gregorian ordinals.
- Parsing the `"<year>-<day>"` key strings is not modelled: master keys arrive as valid `YearDay` values (`Materializer.AllKeysValid`), and instance keys in the edit form are kept as the raw string.
- Exception entries are modelled by the shape of their strings: `Tagged(id, key)` for `"id,key"` and `BareKey(key)` for `"year-day"`. The source flattens the lists and looks up `"id,key"` (frontend/js/eventManager.js:1263, 1284, 1320), while the documented interface describes the lists as bare occurrence keys. The model follows the code, and `MaterializerProperties.BareKeysExceptNothing` shows that bare keys would delete nothing. The server is not part of this model, so which shape it sends is open. Strings of any other shape are not modelled.
- `Stepper.FromDayNumber` does not map the years 0..99 to 1900..1999 as JavaScript's `new Date(y, …)` does (frontend/js/eventManager.js:1128, 1175, 1192, 1205, 1303). For a master keyed in those years the model files its series under the literal year where the source would step from 19yy. The source's yearly step returns null when the next year falls in 0..99 (the `getFullYear` check at frontend/js/eventManager.js:1207), and `Stepper.YearlyStep` does not model that case.
- Overlapping refreshes are not modelled. Each call of `fetchAndRenderEvents` awaits its own fetch and then calls `setEvents`, so the last response to arrive wins, whatever the order of the calls. `AppState.State.FetchAndRenderEvents` models one call running to completion.
- `fetchAndRenderEvents(year)` ignores its `year` argument, so the model has none.
- Search-mode aggregation (frontend/js/eventManager.js:228-272) is not modelled: it collects matches from every key in a window of displayed years and sorts them by date. `AppState.State.PanelEvents` only reports that search results are shown.
- `EventForms.ToLower` lower-cases ASCII letters only: JavaScript's full Unicode case mapping is not modelled.
- `EventForms.IsJsWhitespace` covers the ASCII white space, U+00A0, U+FEFF, U+2028 and U+2029, but not the other Unicode space separators that `trim` also removes.
- String lengths are counted in characters, not UTF-16 code units.
- `parseInt` of the repeat count and of the button's ids is an input: `None` stands for `NaN`.
- Modifications are assumed to carry string fields. A `null` notes value from the server would be copied as is by the source.
- Deleting events, editing through the DOM (`showEditMasterEvent`, `showEditSingleInstance`) and the listeners in frontend/js/main.js are not part of this model.
