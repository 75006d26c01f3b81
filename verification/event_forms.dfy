/**
 * The pure checks of the event panel: the category/search filter applied to
 * a day's events, and the input validation of the add-event and edit-event
 * forms.
 */
module EventForms {
  import opened Wrappers
  import opened Gregorian
  import opened EventModel

  // ---------------------------------------------------------------------------
  // Text helpers

  /** `toLowerCase` on one character (ASCII letters only). */
  function AsciiLower(c: char): char {
    if 'A' <= c <= 'Z' then (c as int - 'A' as int + 'a' as int) as char else c
  }

  function ToLower(s: string): (r: string)
    ensures |r| == |s|
    ensures forall i :: 0 <= i < |s| ==> r[i] == AsciiLower(s[i])
  {
    if s == [] then [] else [AsciiLower(s[0])] + ToLower(s[1..])
  }

  /** `needle` occurs in `hay` starting at index `i`. */
  predicate OccursAt(hay: string, needle: string, i: int) {
    0 <= i && i + |needle| <= |hay| && hay[i..i + |needle|] == needle
  }

  /** `hay.includes(needle)`, searching left to right from index `from`. */
  function IncludesFrom(hay: string, needle: string, from: nat): (b: bool)
    ensures b <==> exists i :: from <= i && OccursAt(hay, needle, i)
    decreases |hay| - from
  {
    if from + |needle| > |hay| then false
    else if hay[from..from + |needle|] == needle then
      assert OccursAt(hay, needle, from);
      true
    else IncludesFrom(hay, needle, from + 1)
  }

  function Includes(hay: string, needle: string): (b: bool)
    ensures b <==> exists i :: OccursAt(hay, needle, i)
  {
    IncludesFrom(hay, needle, 0)
  }

  /** JavaScript white space and line terminators, as `trim` removes them
      (the Unicode space separators other than U+00A0 are left out). */
  predicate IsJsWhitespace(c: char) {
    c == ' ' || c == '\t' || c == '\n' || c == '\r' || c as int == 0x0B || c as int == 0x0C ||
    c as int == 0xA0 || c as int == 0xFEFF || c as int == 0x2028 || c as int == 0x2029
  }

  /** The first index at or after `i` that does not hold white space, or
      `|s|` when there is none. */
  function SpaceEnd(s: string, i: nat): (j: nat)
    requires i <= |s|
    ensures i <= j <= |s|
    ensures forall k :: i <= k < j ==> IsJsWhitespace(s[k])
    ensures j < |s| ==> !IsJsWhitespace(s[j])
    decreases |s| - i
  {
    if i < |s| && IsJsWhitespace(s[i]) then SpaceEnd(s, i + 1) else i
  }

  /** The index just past the last character before `j` that is not white
      space, or 0 when there is none. */
  function SpaceStart(s: string, j: nat): (i: nat)
    requires j <= |s|
    ensures i <= j
    ensures forall k :: i <= k < j ==> IsJsWhitespace(s[k])
    ensures i > 0 ==> !IsJsWhitespace(s[i - 1])
  {
    if j > 0 && IsJsWhitespace(s[j - 1]) then SpaceStart(s, j - 1) else j
  }

  function TrimStart(s: string): (r: string)
    ensures |r| <= |s| && r == s[|s| - |r|..]
    ensures forall k :: 0 <= k < |s| - |r| ==> IsJsWhitespace(s[k])
    ensures r != [] ==> !IsJsWhitespace(r[0])
  {
    s[SpaceEnd(s, 0)..]
  }

  function TrimEnd(s: string): (r: string)
    ensures |r| <= |s| && r == s[..|r|]
    ensures forall k :: |r| <= k < |s| ==> IsJsWhitespace(s[k])
    ensures r != [] ==> !IsJsWhitespace(r[|r| - 1])
  {
    s[..SpaceStart(s, |s|)]
  }

  /** `r` is the slice of `s` that starts at `i`, and everything of `s`
      outside that slice is white space. */
  predicate SliceAmidWhitespace(s: string, r: string, i: int) {
    && 0 <= i && i + |r| <= |s|
    && r == s[i..i + |r|]
    && (forall k :: 0 <= k < i ==> IsJsWhitespace(s[k]))
    && (forall k :: i + |r| <= k < |s| ==> IsJsWhitespace(s[k]))
  }

  /** `s.trim()`: the slice of `s` left after removing white space at both
      ends only; it neither starts nor ends with white space, and is empty
      exactly when `s` is all white space. */
  function Trim(s: string): (r: string)
    ensures exists i :: SliceAmidWhitespace(s, r, i)
    ensures r != [] ==> !IsJsWhitespace(r[0]) && !IsJsWhitespace(r[|r| - 1])
    ensures r == [] <==> forall k :: 0 <= k < |s| ==> IsJsWhitespace(s[k])
  {
    var r := TrimEnd(TrimStart(s));
    TrimBothEnds(s, TrimStart(s), r);
    r
  }

  /** Removing white space from the front and then from the back leaves a
      slice of `s` amid white space that neither starts nor ends with white
      space, and leaves nothing only of an all-white-space `s`. */
  lemma TrimBothEnds(s: string, t: string, r: string)
    requires t == TrimStart(s) && r == TrimEnd(t)
    ensures exists i :: SliceAmidWhitespace(s, r, i)
    ensures r != [] ==> !IsJsWhitespace(r[0]) && !IsJsWhitespace(r[|r| - 1])
    ensures r == [] <==> forall k :: 0 <= k < |s| ==> IsJsWhitespace(s[k])
  {
    TrimSlice(s, t, r);
    TrimBothEndsEmpty(s, t, r);
  }

  lemma TrimSlice(s: string, t: string, r: string)
    requires t == TrimStart(s) && r == TrimEnd(t)
    ensures exists i :: SliceAmidWhitespace(s, r, i)
  {
    PrefixOfSuffix(s, t, r);
    assert SliceAmidWhitespace(s, r, |s| - |t|);
  }

  lemma TrimBothEndsEmpty(s: string, t: string, r: string)
    requires t == TrimStart(s) && r == TrimEnd(t)
    ensures r != [] ==> !IsJsWhitespace(r[0])
    ensures r == [] <==> forall k :: 0 <= k < |s| ==> IsJsWhitespace(s[k])
  {
    if r != [] {
      assert r[0] == t[0];
    } else {
      // an empty `r` leaves `t`, which starts with a non-space, empty too
      assert t == [];
    }
  }

  lemma PrefixOfSuffix(s: string, t: string, r: string)
    requires |t| <= |s| && t == s[|s| - |t|..]
    requires |r| <= |t| && r == t[..|r|]
    ensures r == s[|s| - |t|..|s| - |t| + |r|]
  {
  }

  /** Trimming twice is trimming once. */
  lemma TrimIdempotent(s: string)
    ensures Trim(Trim(s)) == Trim(s)
  {
    var r := Trim(s);
    if r != [] {
      assert TrimStart(r) == r;
      assert TrimEnd(r) == r;
    }
  }

  // ---------------------------------------------------------------------------
  // The day-view filter

  /** The category and search filter of the event panel: the category matches
      (or the filter is 'All') and the lower-cased search term occurs in the
      lower-cased description or notes. */
  predicate MatchesFilter(o: Occurrence, categoryFilter: string, searchTerm: string) {
    var term := ToLower(searchTerm);
    (categoryFilter == "All" || o.category == categoryFilter) &&
    (Includes(ToLower(o.description), term) || Includes(ToLower(o.notes), term))
  }

  /** `dayEvents.filter(...)`: the matching events, in their order. */
  function FilterEvents(os: seq<Occurrence>, categoryFilter: string, searchTerm: string): (r: seq<Occurrence>)
    ensures |r| <= |os|
    ensures forall o :: o in r <==> o in os && MatchesFilter(o, categoryFilter, searchTerm)
  {
    if os == [] then []
    else
      var n := |os| - 1;
      assert os == os[..n] + [os[n]];
      FilterEvents(os[..n], categoryFilter, searchTerm) + (if MatchesFilter(os[n], categoryFilter, searchTerm) then [os[n]] else [])
  }

  /** Filtering a single event keeps it exactly when it passes. */
  lemma FilterOne(o: Occurrence, categoryFilter: string, searchTerm: string)
    ensures FilterEvents([o], categoryFilter, searchTerm) == if MatchesFilter(o, categoryFilter, searchTerm) then [o] else []
  {
    assert [o][..0] == [];
  }

  /** Filtering a list with one more event at its end. */
  lemma FilterSnoc(os: seq<Occurrence>, o: Occurrence, categoryFilter: string, searchTerm: string)
    ensures FilterEvents(os + [o], categoryFilter, searchTerm) ==
      FilterEvents(os, categoryFilter, searchTerm) + (if MatchesFilter(o, categoryFilter, searchTerm) then [o] else [])
  {
    var zs := os + [o];
    assert zs[..|zs| - 1] == os;
  }

  /** Filtering distributes over concatenation: the result keeps the passing
      events in their order and with their repetitions, as `Array.prototype.filter`. */
  lemma {:induction false} FilterAppend(xs: seq<Occurrence>, ys: seq<Occurrence>, categoryFilter: string, searchTerm: string)
    ensures FilterEvents(xs + ys, categoryFilter, searchTerm) ==
      FilterEvents(xs, categoryFilter, searchTerm) + FilterEvents(ys, categoryFilter, searchTerm)
    decreases |ys|
  {
    if ys == [] {
      assert xs + ys == xs;
    } else {
      var n := |ys| - 1;
      var front, y := ys[..n], ys[n];
      var last := if MatchesFilter(y, categoryFilter, searchTerm) then [y] else [];
      assert ys == front + [y];
      assert xs + ys == (xs + front) + [y];
      calc {
        FilterEvents(xs + ys, categoryFilter, searchTerm);
        FilterEvents((xs + front) + [y], categoryFilter, searchTerm);
        { FilterSnoc(xs + front, y, categoryFilter, searchTerm); }
        FilterEvents(xs + front, categoryFilter, searchTerm) + last;
        { FilterAppend(xs, front, categoryFilter, searchTerm); }
        (FilterEvents(xs, categoryFilter, searchTerm) + FilterEvents(front, categoryFilter, searchTerm)) + last;
        FilterEvents(xs, categoryFilter, searchTerm) + (FilterEvents(front, categoryFilter, searchTerm) + last);
        { FilterSnoc(front, y, categoryFilter, searchTerm); }
        FilterEvents(xs, categoryFilter, searchTerm) + FilterEvents(ys, categoryFilter, searchTerm);
      }
    }
  }

  /** With the default filter ('All', empty search) every event is shown, in order. */
  lemma {:induction false} DefaultFilterShowsAll(os: seq<Occurrence>)
    ensures FilterEvents(os, "All", "") == os
  {
    if os != [] {
      var n := |os| - 1;
      var front := os[..n];
      calc {
        FilterEvents(os, "All", "");
        { assert os == front + [os[n]]; }
        FilterEvents(front + [os[n]], "All", "");
        { FilterSnoc(front, os[n], "All", ""); }
        FilterEvents(front, "All", "") + (if MatchesFilter(os[n], "All", "") then [os[n]] else []);
        { DefaultFilterShowsAll(front); DefaultFilterPasses(os[n]); }
        front + [os[n]];
        { assert os == front + [os[n]]; }
        os;
      }
    }
  }

  /** Every event passes the default filter: the empty term occurs anywhere. */
  lemma DefaultFilterPasses(o: Occurrence)
    ensures MatchesFilter(o, "All", "")
  {
    assert OccursAt(ToLower(o.description), ToLower(""), 0);
  }

  /** A category filter other than 'All' shows only events of that category. */
  lemma CategoryFilterExact(os: seq<Occurrence>, category: string, searchTerm: string)
    requires category != "All"
    ensures forall o :: o in FilterEvents(os, category, searchTerm) ==> o.category == category
  {
  }

  // ---------------------------------------------------------------------------
  // Form validation

  const MaxDescriptionLength := 255
  const MaxNotesLength := 1000

  /** Why a form was refused, one constructor per message the forms show. */
  datatype FormError =
    | NotLoggedIn
    | NameRequired
    | NameTooLong
    | DescriptionLength
    | NotesTooLong
    | RepeatsNotPositive
    | NoDateSelected
    | NoMasterSelected
    | NoInstanceSelected
    | InvalidSaveMode

  /** The payload `addEvent` sends. */
  datatype NewEventRequest = NewEventRequest(
    userId: int,
    key: YearDay,
    description: string,
    notes: string,
    category: string,
    pattern: Pattern,
    repeats: Option<int>)

  /** Is a repeat count acceptable for `pattern`: any for 'none', otherwise a
      number (None stands for NaN) of at least 1. */
  predicate RepeatsAccepted(pattern: Pattern, parsedRepeats: Option<int>) {
    pattern == NoRecurrence || (parsedRepeats.Some? && parsedRepeats.value >= 1)
  }

  /** The text checks both forms share: a trimmed description of 1..255
      characters and trimmed notes of at most 1000. */
  predicate TextAccepted(rawDescription: string, rawNotes: string) {
    1 <= |Trim(rawDescription)| <= MaxDescriptionLength && |Trim(rawNotes)| <= MaxNotesLength
  }

  /** The repeat count a form sends: `null` for 'none', else the parsed value. */
  function SentRepeats(pattern: Pattern, parsedRepeats: Option<int>): (r: Option<int>)
    ensures pattern == NoRecurrence ==> r.None?
    ensures pattern != NoRecurrence ==> r == parsedRepeats
  {
    if pattern != NoRecurrence then parsedRepeats else None
  }

  /** The checks of `addEvent`, in the source's order: each error is reported
      exactly when every earlier check passed and its own check fails.
      `parsedRepeats` is `parseInt` of the repeat field; it is only read when
      a pattern is chosen. */
  function ValidateNewEvent(
    userId: Option<int>, rawDescription: string, rawNotes: string, category: string,
    pattern: Pattern, parsedRepeats: Option<int>, selectedDay: Option<int>, selectedYear: Option<int>
  ): (r: Result<NewEventRequest, FormError>)
    ensures r == Err(NotLoggedIn) <==> userId.None?
    ensures r == Err(NameRequired) <==> userId.Some? && Trim(rawDescription) == []
    ensures r == Err(NameTooLong) <==> userId.Some? && |Trim(rawDescription)| > MaxDescriptionLength
    ensures r == Err(NotesTooLong) <==>
      userId.Some? && 1 <= |Trim(rawDescription)| <= MaxDescriptionLength && |Trim(rawNotes)| > MaxNotesLength
    ensures r == Err(RepeatsNotPositive) <==>
      userId.Some? && TextAccepted(rawDescription, rawNotes) && !RepeatsAccepted(pattern, parsedRepeats)
    ensures r == Err(NoDateSelected) <==>
      userId.Some? && TextAccepted(rawDescription, rawNotes) && RepeatsAccepted(pattern, parsedRepeats) &&
      (selectedDay.None? || selectedYear.None?)
    ensures r.Ok? <==>
      && userId.Some?
      && TextAccepted(rawDescription, rawNotes)
      && RepeatsAccepted(pattern, parsedRepeats)
      && selectedDay.Some? && selectedYear.Some?
    ensures r.Ok? ==> r.value == NewEventRequest(
      userId.value, YearDay(selectedYear.value, selectedDay.value), Trim(rawDescription), Trim(rawNotes),
      category, pattern, SentRepeats(pattern, parsedRepeats))
    ensures userId.Some? && (forall k :: 0 <= k < |rawDescription| ==> IsJsWhitespace(rawDescription[k])) ==> r == Err(NameRequired)
  {
    var description := Trim(rawDescription);
    var notes := Trim(rawNotes);
    var numberOfRepeats := SentRepeats(pattern, parsedRepeats);
    if userId.None? then Err(NotLoggedIn)
    else if description == [] then Err(NameRequired)
    else if |description| > MaxDescriptionLength then Err(NameTooLong)
    else if |notes| > MaxNotesLength then Err(NotesTooLong)
    else if pattern != NoRecurrence && (numberOfRepeats.None? || numberOfRepeats.value < 1) then Err(RepeatsNotPositive)
    else if selectedDay.None? || selectedYear.None? then Err(NoDateSelected)
    else Ok(NewEventRequest(userId.value, YearDay(selectedYear.value, selectedDay.value), description, notes, category, pattern, numberOfRepeats))
  }

  /** The payload `saveEventNotes` sends, for the whole series or one occurrence. */
  datatype EditRequest =
    | MasterEdit(eventId: int, userId: int, description: string, notes: string, category: string, pattern: Pattern, repeats: Option<int>)
    | InstanceEdit(originalEventId: int, eventKey: string, userId: int, description: string, notes: string, category: string)

  /** The checks of `saveEventNotes`, in the source's order: each error is
      reported exactly when every earlier check passed and its own check
      fails. `saveMode` is the button's mode; ids are `parseInt` results
      (None for NaN). */
  function ValidateEdit(
    saveMode: string, userId: Option<int>, rawDescription: string, rawNotes: string, category: string,
    eventId: Option<int>, pattern: Pattern, parsedRepeats: Option<int>,
    originalEventId: Option<int>, eventKey: string
  ): (r: Result<EditRequest, FormError>)
    ensures r == Err(NotLoggedIn) <==> userId.None?
    ensures r == Err(DescriptionLength) <==>
      userId.Some? && !(1 <= |Trim(rawDescription)| <= MaxDescriptionLength)
    ensures r == Err(NotesTooLong) <==>
      userId.Some? && 1 <= |Trim(rawDescription)| <= MaxDescriptionLength && |Trim(rawNotes)| > MaxNotesLength
    ensures r == Err(NoMasterSelected) <==>
      userId.Some? && TextAccepted(rawDescription, rawNotes) && saveMode == "master" && eventId.None?
    ensures r == Err(RepeatsNotPositive) <==>
      userId.Some? && TextAccepted(rawDescription, rawNotes) && saveMode == "master" && eventId.Some? &&
      !RepeatsAccepted(pattern, parsedRepeats)
    ensures r == Err(NoInstanceSelected) <==>
      userId.Some? && TextAccepted(rawDescription, rawNotes) && saveMode == "instance" &&
      (originalEventId.None? || eventKey == "")
    ensures r == Err(InvalidSaveMode) <==>
      userId.Some? && TextAccepted(rawDescription, rawNotes) && saveMode != "master" && saveMode != "instance"
    ensures r.Ok? <==>
      && userId.Some?
      && TextAccepted(rawDescription, rawNotes)
      && ((saveMode == "master" && eventId.Some? && RepeatsAccepted(pattern, parsedRepeats)) ||
          (saveMode == "instance" && originalEventId.Some? && eventKey != ""))
    ensures r.Ok? && saveMode == "master" ==> r.value == MasterEdit(
      eventId.value, userId.value, Trim(rawDescription), Trim(rawNotes), category, pattern, SentRepeats(pattern, parsedRepeats))
    ensures r.Ok? && saveMode == "instance" ==> r.value == InstanceEdit(
      originalEventId.value, eventKey, userId.value, Trim(rawDescription), Trim(rawNotes), category)
  {
    var description := Trim(rawDescription);
    var notes := Trim(rawNotes);
    if userId.None? then Err(NotLoggedIn)
    else if description == [] || |description| < 1 || |description| > MaxDescriptionLength then Err(DescriptionLength)
    else if |notes| > MaxNotesLength then Err(NotesTooLong)
    else if saveMode == "master" then
      if eventId.None? then Err(NoMasterSelected)
      else
        var numberOfRepeats := SentRepeats(pattern, parsedRepeats);
        if pattern != NoRecurrence && (numberOfRepeats.None? || numberOfRepeats.value < 1) then Err(RepeatsNotPositive)
        else Ok(MasterEdit(eventId.value, userId.value, description, notes, category, pattern, numberOfRepeats))
    else if saveMode == "instance" then
      if originalEventId.None? || eventKey == "" then Err(NoInstanceSelected)
      else Ok(InstanceEdit(originalEventId.value, eventKey, userId.value, description, notes, category))
    else Err(InvalidSaveMode)
  }

  /** The add and edit forms accept the same descriptions: for a logged-in
      user, the add form refuses a description for its name checks exactly
      when the edit form refuses it for its length check. */
  lemma AddAndEditAgreeOnDescriptions(
    userId: int, rawDescription: string, rawNotes: string, category: string, pattern: Pattern, parsedRepeats: Option<int>,
    selectedDay: Option<int>, selectedYear: Option<int>, saveMode: string, eventId: Option<int>, originalEventId: Option<int>, eventKey: string)
    ensures (ValidateNewEvent(Some(userId), rawDescription, rawNotes, category, pattern, parsedRepeats, selectedDay, selectedYear) in {Err(NameRequired), Err(NameTooLong)}) <==>
      ValidateEdit(saveMode, Some(userId), rawDescription, rawNotes, category, eventId, pattern, parsedRepeats, originalEventId, eventKey) == Err(DescriptionLength)
  {
    var description := Trim(rawDescription);
    var add := ValidateNewEvent(Some(userId), rawDescription, rawNotes, category, pattern, parsedRepeats, selectedDay, selectedYear);
    var edit := ValidateEdit(saveMode, Some(userId), rawDescription, rawNotes, category, eventId, pattern, parsedRepeats, originalEventId, eventKey);
    if description == [] {
      assert add == Err(NameRequired) && edit == Err(DescriptionLength);
    } else if |description| > MaxDescriptionLength {
      assert add == Err(NameTooLong) && edit == Err(DescriptionLength);
    } else {
      assert add != Err(NameRequired) && add != Err(NameTooLong);
      assert edit != Err(DescriptionLength);
    }
  }
}
