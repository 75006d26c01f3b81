/**
 * The series materializer and override resolver inside `fetchAndRenderEvents`:
 * it turns master events, the exception set and the modification map into a
 * dictionary from day keys to the occurrences shown on that day.
 *
 * `Materialized` is the specification (a fold over the masters); the method
 * `Materialize` is the source's in-place loop, proved to compute it.
 */
module Materializer {
  import opened Wrappers
  import opened Gregorian
  import opened EventModel
  import opened PhaseCalendar
  import opened Stepper

  /** The safety cap on the number of steps taken for one series. */
  const MaxIterations := 5 * 366

  /** An entry of the fetched exception lists, by the shape of its string:
      `"id,key"` (a master id, a comma, a day key), the string the lookups
      ask for, or a bare day key `"year-day"`. */
  datatype ExceptionTag = Tagged(id: int, key: YearDay) | BareKey(key: YearDay)

  /** `${year}-${day}`: a day key as the source writes it. */
  function KeyString(d: YearDay): (s: string)
    ensures ',' !in s
  {
    NoCommaInNumber(d.year);
    NoCommaInNumber(d.day);
    IntToString(d.year) + "-" + IntToString(d.day)
  }

  /** A rendered number holds digits and possibly a leading minus sign. */
  lemma NoCommaInNumber(i: int)
    ensures ',' !in IntToString(i)
  {
    var s := IntToString(i);
    if i < 0 {
      assert s == [s[0]] + s[1..];
    }
  }

  /** The string an entry is stored under in the exception set: it holds a
      comma exactly when it is an `"id,key"` entry. */
  function TagString(t: ExceptionTag): (s: string)
    ensures t.Tagged? <==> ',' in s
    ensures t.Tagged? ==> s == IntToString(t.id) + "," + KeyString(t.key)
    ensures t.BareKey? ==> s == KeyString(t.key)
  {
    match t
    case Tagged(id, key) =>
      NoCommaInNumber(id);
      var s := IntToString(id) + "," + KeyString(key);
      assert s[|IntToString(id)|] == ',';
      s
    case BareKey(key) => KeyString(key)
  }

  /** A bare day key never equals the `"id,key"` string a lookup asks for,
      whatever the id and the days. */
  lemma BareKeyNeverLooksUp(id: int, d: YearDay, k: YearDay)
    ensures TagString(BareKey(k)) != TagString(Tagged(id, d))
  {
    assert ',' in TagString(Tagged(id, d));
  }

  /** The day dictionary. */
  type EventMap = map<YearDay, seq<Occurrence>>

  // ---------------------------------------------------------------------------
  // Building the lookup structures from the fetched arrays

  /** `new Set(exceptions.flatMap(([id, keys]) => keys))`: every listed entry,
      whatever master it was listed under. */
  function ExceptionSet(exceptions: seq<(int, seq<ExceptionTag>)>): (s: set<ExceptionTag>)
    ensures forall i, j :: 0 <= i < |exceptions| && 0 <= j < |exceptions[i].1| ==> exceptions[i].1[j] in s
    ensures forall t :: t in s ==> exists i, j :: 0 <= i < |exceptions| && 0 <= j < |exceptions[i].1| && exceptions[i].1[j] == t
  {
    if exceptions == [] then {}
    else
      var n := |exceptions| - 1;
      var s := ExceptionSet(exceptions[..n]) + set t | t in exceptions[n].1;
      assert forall i :: 0 <= i < n ==> exceptions[..n][i] == exceptions[i];
      s
  }

  /** `new Map(pairs)`: a map holding exactly the listed keys. */
  function PairsToMap<K(!new), V>(pairs: seq<(K, V)>): (m: map<K, V>)
    ensures forall k :: k in m <==> exists i :: 0 <= i < |pairs| && pairs[i].0 == k
  {
    if pairs == [] then map[]
    else
      var n := |pairs| - 1;
      var m := PairsToMap(pairs[..n])[pairs[n].0 := pairs[n].1];
      assert forall i :: 0 <= i < n ==> pairs[..n][i] == pairs[i];
      m
  }

  /** For a key listed several times, the last pair listed gives its value. */
  lemma {:induction false} PairsToMapLastWins<K(!new), V>(pairs: seq<(K, V)>, i: nat)
    requires i < |pairs|
    requires forall j :: i < j < |pairs| ==> pairs[j].0 != pairs[i].0
    ensures pairs[i].0 in PairsToMap(pairs) && PairsToMap(pairs)[pairs[i].0] == pairs[i].1
  {
    var n := |pairs| - 1;
    if i < n {
      assert forall j :: i < j < n ==> pairs[..n][j] == pairs[j];
      PairsToMapLastWins(pairs[..n], i);
    }
  }

  /** `new Map(modifications.map(([id, mods]) => [id, new Map(mods)]))`. */
  function ModificationMap(modifications: seq<(int, seq<(YearDay, Modification)>)>): map<int, map<YearDay, Modification>>
  {
    PairsToMap(seq(|modifications|, i requires 0 <= i < |modifications| => (modifications[i].0, PairsToMap(modifications[i].1))))
  }

  /** `modificationMap.has(id) ? modificationMap.get(id).get(key) : null`. */
  function ModificationFor(mods: map<int, map<YearDay, Modification>>, id: int, key: YearDay): Option<Modification>
  {
    if id in mods && key in mods[id] then Some(mods[id][key]) else None
  }

  // ---------------------------------------------------------------------------
  // The override rule and the entries it produces

  /** The displayed (description, notes, category): the modification's when
      there is one, otherwise the master's with notes defaulting to '' and
      category to 'General'. */
  function DisplayedFields(e: MasterEvent, mod: Option<Modification>): (string, string, string)
  {
    match mod
    case Some(m) => (m.description, m.notes, m.category)
    case None => (e.description, OrDefault(e.notes, ""), OrDefault(e.category, "General"))
  }

  /** The entry for a master's own anchor day. */
  function MasterEntry(e: MasterEvent, mod: Option<Modification>): Occurrence
  {
    var (description, notes, category) := DisplayedFields(e, mod);
    Occurrence(e.id, description, e.key, notes, category, e.pattern,
      if e.repeats == Some(0) then None else e.repeats,  // number_of_repeats || null
      RecurringMaster, mod.Some?)
  }

  /** The entry for a generated occurrence on `key`. */
  function InstanceEntry(e: MasterEvent, key: YearDay, mod: Option<Modification>): Occurrence
  {
    var (description, notes, category) := DisplayedFields(e, mod);
    Occurrence(e.id, description, key, notes, category, e.pattern, e.repeats,
      RecurringInstance(e.id, e.key), mod.Some?)
  }

  // ---------------------------------------------------------------------------
  // The series

  /** Does the master recur: a pattern other than none and a positive repeat count? */
  predicate Expands(e: MasterEvent) {
    e.pattern != NoRecurrence && e.repeats.Some? && e.repeats.value > 0
  }

  /** How many steps the loop may take: the repeat count, capped by the
      safety limit; none when the master does not recur. */
  function StepLimit(e: MasterEvent): (n: nat)
    ensures n <= MaxIterations
    ensures Expands(e) ==> n <= e.repeats.value
    ensures Expands(e) && e.repeats.value <= MaxIterations ==> n == e.repeats.value
    ensures Expands(e) && e.repeats.value > MaxIterations ==> n == MaxIterations
    ensures !Expands(e) <==> n == 0
  {
    if !Expands(e) then 0
    else if e.repeats.value < MaxIterations then e.repeats.value
    else MaxIterations
  }

  /** `NextOccurrence` from a valid date, None from any other, reached
      through `delay` recursive calls that change nothing. `Series` steps with
      the number of dates still wanted as the delay: a proof about a series of
      unknown length then sees neither the stepper's cases nor the calendar
      arithmetic of date validity unless it asks for them through
      `DelayedStepIsStep` or `DelayedStepAdvances`, which keeps the proofs
      about whole series small. */
  function DelayedStep(current: YearDay, pattern: Pattern, anchor: YearDay, delay: nat): Option<YearDay>
    decreases delay
  {
    if delay > 0 then DelayedStep(current, pattern, anchor, delay - 1)
    else if current.Valid() && anchor.Valid() then NextOccurrence(current, pattern, anchor)
    else None
  }

  /** From valid dates, whatever the delay, the delayed step is the stepper's step. */
  lemma {:induction false} DelayedStepIsStep(current: YearDay, pattern: Pattern, anchor: YearDay, delay: nat)
    requires current.Valid() && anchor.Valid()
    ensures DelayedStep(current, pattern, anchor, delay) == NextOccurrence(current, pattern, anchor)
    decreases delay
  {
    if delay > 0 {
      DelayedStepIsStep(current, pattern, anchor, delay - 1);
    }
  }

  /** A delayed step, when it yields a date, yields a valid later one. */
  lemma {:induction false} DelayedStepAdvances(current: YearDay, pattern: Pattern, anchor: YearDay, delay: nat)
    ensures var r := DelayedStep(current, pattern, anchor, delay);
      r.Some? ==> r.value.Valid() && Before(current, r.value)
    decreases delay
  {
    if delay > 0 {
      DelayedStepAdvances(current, pattern, anchor, delay - 1);
    }
  }

  /** The dates the stepper produces from `current` while fewer than
      `wanted` dates have been produced and fewer than `cap` steps taken (the
      loop's two counters, which move together), stopping at the first None. */
  function Series(current: YearDay, pattern: Pattern, anchor: YearDay, wanted: nat, cap: nat): (ds: seq<YearDay>)
    ensures |ds| <= wanted && |ds| <= cap
    decreases wanted
  {
    if wanted == 0 || cap == 0 then []
    else
      match DelayedStep(current, pattern, anchor, wanted)
      case None => []
      case Some(next) => [next] + Series(next, pattern, anchor, wanted - 1, cap - 1)
  }

  /** Every date of `ds` is valid and later than `start`. */
  predicate AllValidAfter(start: YearDay, ds: seq<YearDay>) {
    forall i :: 0 <= i < |ds| ==> ds[i].Valid() && Before(start, ds[i])
  }

  /** The dates of `ds` strictly increase. */
  predicate StrictlyIncreasing(ds: seq<YearDay>) {
    forall i, j :: 0 <= i < j < |ds| ==> Before(ds[i], ds[j])
  }

  /** A series holds valid dates, each later than the start and than the one before. */
  lemma {:induction false} SeriesIncreasing(current: YearDay, pattern: Pattern, anchor: YearDay, wanted: nat, cap: nat)
    ensures AllValidAfter(current, Series(current, pattern, anchor, wanted, cap))
    ensures StrictlyIncreasing(Series(current, pattern, anchor, wanted, cap))
    decreases wanted
  {
    if wanted > 0 && cap > 0 {
      var r := DelayedStep(current, pattern, anchor, wanted);
      DelayedStepAdvances(current, pattern, anchor, wanted);
      if r.Some? {
        var next := r.value;
        var rest := Series(next, pattern, anchor, wanted - 1, cap - 1);
        SeriesIncreasing(next, pattern, anchor, wanted - 1, cap - 1);
        SeriesStep(current, pattern, anchor, wanted, cap);
        ConsIncreasing(current, next, rest);
      }
    }
  }

  /** Putting a later first date in front of an increasing run keeps it increasing. */
  lemma ConsIncreasing(start: YearDay, next: YearDay, rest: seq<YearDay>)
    requires next.Valid() && Before(start, next)
    requires AllValidAfter(next, rest) && StrictlyIncreasing(rest)
    ensures AllValidAfter(start, [next] + rest) && StrictlyIncreasing([next] + rest)
  {
    var ds := [next] + rest;
    forall i | 0 <= i < |ds|
      ensures ds[i].Valid() && Before(start, ds[i])
    {
      if i > 0 {
        assert ds[i] == rest[i - 1];
      }
    }
    forall i, j | 0 <= i < j < |ds|
      ensures Before(ds[i], ds[j])
    {
      assert ds[j] == rest[j - 1];
      if i > 0 {
        assert ds[i] == rest[i - 1];
      }
    }
  }

  /** The generated occurrence dates of a master, anchor excluded. */
  function GeneratedDates(e: MasterEvent): seq<YearDay>
    requires e.key.Valid()
  {
    if Expands(e) then Series(e.key, e.pattern, e.key, e.repeats.value, MaxIterations) else []
  }

  /** The master's own entry, unless its anchor day is excepted. */
  function MasterEntries(e: MasterEvent, exc: set<ExceptionTag>, mods: map<int, map<YearDay, Modification>>): seq<Occurrence>
  {
    if Tagged(e.id, e.key) in exc then [] else [MasterEntry(e, ModificationFor(mods, e.id, e.key))]
  }

  /** Instance entries for `dates`, skipping excepted ones. */
  function InstanceEntries(e: MasterEvent, dates: seq<YearDay>, exc: set<ExceptionTag>, mods: map<int, map<YearDay, Modification>>): seq<Occurrence>
  {
    if dates == [] then []
    else
      var d := dates[|dates| - 1];
      InstanceEntries(e, dates[..|dates| - 1], exc, mods) +
        (if Tagged(e.id, d) in exc then [] else [InstanceEntry(e, d, ModificationFor(mods, e.id, d))])
  }

  /** Everything one master contributes, in push order. */
  function Contribution(e: MasterEvent, exc: set<ExceptionTag>, mods: map<int, map<YearDay, Modification>>): seq<Occurrence>
    requires e.key.Valid()
  {
    MasterEntries(e, exc, mods) + InstanceEntries(e, GeneratedDates(e), exc, mods)
  }

  // ---------------------------------------------------------------------------
  // The dictionary

  /** Append `o` to the list under its own key, creating the list if needed. */
  function Push(m: EventMap, o: Occurrence): EventMap {
    m[o.key := (if o.key in m then m[o.key] else []) + [o]]
  }

  function PushAll(m: EventMap, os: seq<Occurrence>): EventMap {
    if os == [] then m else Push(PushAll(m, os[..|os| - 1]), os[|os| - 1])
  }

  /** Make sure `key` has a list, possibly empty. */
  function WithKey(m: EventMap, key: YearDay): EventMap {
    if key in m then m else m[key := []]
  }

  predicate AllKeysValid(masters: seq<MasterEvent>) {
    forall i :: 0 <= i < |masters| ==> masters[i].key.Valid()
  }

  /** The specification of the materialization: masters processed in order,
      each giving its anchor key a list and pushing its contribution. */
  function Materialized(masters: seq<MasterEvent>, exc: set<ExceptionTag>, mods: map<int, map<YearDay, Modification>>): EventMap
    requires AllKeysValid(masters)
  {
    if masters == [] then map[]
    else
      var n := |masters| - 1;
      PushAll(WithKey(Materialized(masters[..n], exc, mods), masters[n].key), Contribution(masters[n], exc, mods))
  }

  /** Pushing a list one more element longer pushes that element last. */
  lemma PushAllSnoc(m: EventMap, os: seq<Occurrence>, o: Occurrence)
    ensures PushAll(m, os + [o]) == Push(PushAll(m, os), o)
  {
    assert (os + [o])[..|os|] == os;
  }

  lemma InstanceEntriesSnoc(e: MasterEvent, dates: seq<YearDay>, d: YearDay, exc: set<ExceptionTag>, mods: map<int, map<YearDay, Modification>>)
    ensures InstanceEntries(e, dates + [d], exc, mods) ==
      InstanceEntries(e, dates, exc, mods) + (if Tagged(e.id, d) in exc then [] else [InstanceEntry(e, d, ModificationFor(mods, e.id, d))])
  {
    assert (dates + [d])[..|dates|] == dates;
  }

  /** One step of a series: the next date, then the rest of the series from it. */
  lemma SeriesStep(current: YearDay, pattern: Pattern, anchor: YearDay, wanted: nat, cap: nat)
    requires wanted > 0 && cap > 0
    ensures DelayedStep(current, pattern, anchor, wanted).None? ==> Series(current, pattern, anchor, wanted, cap) == []
    ensures DelayedStep(current, pattern, anchor, wanted).Some? ==>
      var next := DelayedStep(current, pattern, anchor, wanted).value;
      Series(current, pattern, anchor, wanted, cap) == [next] + Series(next, pattern, anchor, wanted - 1, cap - 1)
  {
  }

  // ---------------------------------------------------------------------------
  // The source's loop

  /** The materialization loop of `fetchAndRenderEvents`, filling the
      dictionary in place. */
  method Materialize(masters: seq<MasterEvent>, exceptionSet: set<ExceptionTag>, modificationMap: map<int, map<YearDay, Modification>>)
    returns (newEvents: EventMap)
    requires AllKeysValid(masters)
    ensures newEvents == Materialized(masters, exceptionSet, modificationMap)
  {
    newEvents := map[];
    for i := 0 to |masters|
      invariant newEvents == Materialized(masters[..i], exceptionSet, modificationMap)
    {
      assert masters[..i + 1][..i] == masters[..i];
      newEvents := AddMaster(newEvents, masters[i], exceptionSet, modificationMap);
    }
    assert masters[..|masters|] == masters;
  }

  /** Pushing two lists in turn pushes their concatenation. */
  lemma {:induction false} PushAllAppend(m: EventMap, xs: seq<Occurrence>, ys: seq<Occurrence>)
    ensures PushAll(PushAll(m, xs), ys) == PushAll(m, xs + ys)
    decreases |ys|
  {
    if ys != [] {
      var n := |ys| - 1;
      assert ys == ys[..n] + [ys[n]];
      assert xs + ys == (xs + ys[..n]) + [ys[n]];
      PushAllAppend(m, xs, ys[..n]);
      PushAllSnoc(m, xs + ys[..n], ys[n]);
      PushAllSnoc(PushAll(m, xs), ys[..n], ys[n]);
    } else {
      assert xs + ys == xs;
    }
  }

  /** The body of the loop for one master: its anchor key, its own entry and
      its generated occurrences. */
  method AddMaster(events: EventMap, e: MasterEvent, exceptionSet: set<ExceptionTag>, modificationMap: map<int, map<YearDay, Modification>>)
    returns (newEvents: EventMap)
    requires e.key.Valid()
    ensures newEvents == PushAll(WithKey(events, e.key), Contribution(e, exceptionSet, modificationMap))
  {
    newEvents := events;
    if e.key !in newEvents {
      newEvents := newEvents[e.key := []];
    }
    ghost var base := newEvents;

    var masterModification := ModificationFor(modificationMap, e.id, e.key);
    var masterIsExcepted := Tagged(e.id, e.key) in exceptionSet;
    if !masterIsExcepted {
      newEvents := newEvents[e.key := newEvents[e.key] + [MasterEntry(e, masterModification)]];
      PushAllSnoc(base, [], MasterEntry(e, masterModification));
    }
    ghost var masterPart := MasterEntries(e, exceptionSet, modificationMap);
    assert newEvents == PushAll(base, masterPart);

    ghost var afterMaster := newEvents;
    if Expands(e) {
      newEvents := PushInstances(newEvents, e, exceptionSet, modificationMap);
    } else {
      assert InstanceEntries(e, GeneratedDates(e), exceptionSet, modificationMap) == [];
    }
    PushAllAppend(base, masterPart, InstanceEntries(e, GeneratedDates(e), exceptionSet, modificationMap));
  }

  /** The date the loop stands on after `k` steps of a series: the start,
      then the series' dates in turn. */
  function SeriesPoint(start: YearDay, ds: seq<YearDay>, k: nat): YearDay
    requires k <= |ds|
  {
    if k == 0 then start else ds[k - 1]
  }

  /** Every point a series passes through is a valid date. */
  lemma SeriesPointValid(start: YearDay, pattern: Pattern, anchor: YearDay, w: nat, c: nat, k: nat)
    requires start.Valid()
    requires k <= |Series(start, pattern, anchor, w, c)|
    ensures SeriesPoint(start, Series(start, pattern, anchor, w, c), k).Valid()
  {
    SeriesIncreasing(start, pattern, anchor, w, c);
    if k > 0 {
      assert Series(start, pattern, anchor, w, c)[k - 1].Valid();
    }
  }

  /** Step `k` of a series, taken from its `k`-th point, yields the series'
      `k`-th date. */
  lemma {:induction false} SeriesIndexNext(start: YearDay, pattern: Pattern, anchor: YearDay, w: nat, c: nat, k: nat)
    requires k < |Series(start, pattern, anchor, w, c)|
    ensures DelayedStep(SeriesPoint(start, Series(start, pattern, anchor, w, c), k), pattern, anchor, w - k) ==
      Some(Series(start, pattern, anchor, w, c)[k])
    decreases k
  {
    SeriesStep(start, pattern, anchor, w, c);
    if k > 0 {
      var next := DelayedStep(start, pattern, anchor, w).value;
      var rest := Series(next, pattern, anchor, w - 1, c - 1);
      PointShift(start, next, rest, k);
      SeriesIndexNext(next, pattern, anchor, w - 1, c - 1, k - 1);
    }
  }

  /** Past the first date of a run, its points are those of the rest of the
      run, started from that date. */
  lemma PointShift(start: YearDay, next: YearDay, rest: seq<YearDay>, k: nat)
    requires 0 < k <= |rest| + 1
    ensures SeriesPoint(start, [next] + rest, k) == SeriesPoint(next, rest, k - 1)
  {
  }

  /** A series that ends before either counter runs out ends where the
      stepper, from its last point, returns None. */
  lemma {:induction false} SeriesIndexEnd(start: YearDay, pattern: Pattern, anchor: YearDay, w: nat, c: nat, k: nat)
    requires k == |Series(start, pattern, anchor, w, c)| && k < w && k < c
    ensures DelayedStep(SeriesPoint(start, Series(start, pattern, anchor, w, c), k), pattern, anchor, w - k).None?
    decreases k
  {
    SeriesStep(start, pattern, anchor, w, c);
    if k > 0 {
      var next := DelayedStep(start, pattern, anchor, w).value;
      var rest := Series(next, pattern, anchor, w - 1, c - 1);
      PointShift(start, next, rest, k);
      SeriesIndexEnd(next, pattern, anchor, w - 1, c - 1, k - 1);
    }
  }

  /** A prefix one longer is the prefix and the next element. */
  lemma TakeOneMore(ds: seq<YearDay>, k: nat)
    requires k < |ds|
    ensures ds[..k + 1] == ds[..k] + [ds[k]]
  {
  }

  /** Step `k` of the loop for `e`, taken from the date it stands on, yields
      the `k`-th generated date, or None exactly where the series was cut
      short of its step limit. */
  lemma GeneratedStep(e: MasterEvent, k: nat)
    requires e.key.Valid() && k < StepLimit(e) && k <= |GeneratedDates(e)|
    ensures SeriesPoint(e.key, GeneratedDates(e), k).Valid()
    ensures NextOccurrence(SeriesPoint(e.key, GeneratedDates(e), k), e.pattern, e.key) ==
      if k < |GeneratedDates(e)| then Some(GeneratedDates(e)[k]) else None
  {
    var w := e.repeats.value;
    SeriesPointValid(e.key, e.pattern, e.key, w, MaxIterations, k);
    if k < |GeneratedDates(e)| {
      SeriesIndexNext(e.key, e.pattern, e.key, w, MaxIterations, k);
    } else {
      SeriesIndexEnd(e.key, e.pattern, e.key, w, MaxIterations, k);
    }
    DelayedStepIsStep(SeriesPoint(e.key, GeneratedDates(e), k), e.pattern, e.key, w - k);
  }

  /** The entries for one more date of `dates`: pushed unless excepted. */
  lemma InstancesOneMore(events: EventMap, e: MasterEvent, dates: seq<YearDay>, k: nat, exc: set<ExceptionTag>, mods: map<int, map<YearDay, Modification>>)
    requires k < |dates|
    ensures PushAll(events, InstanceEntries(e, dates[..k + 1], exc, mods)) ==
      if Tagged(e.id, dates[k]) in exc then PushAll(events, InstanceEntries(e, dates[..k], exc, mods))
      else Push(PushAll(events, InstanceEntries(e, dates[..k], exc, mods)), InstanceEntry(e, dates[k], ModificationFor(mods, e.id, dates[k])))
  {
    TakeOneMore(dates, k);
    InstanceAdvance(events, e, dates[..k], dates[k], exc, mods);
  }

  /** One more date handled by the loop: pushed unless excepted. */
  lemma InstanceAdvance(events: EventMap, e: MasterEvent, done: seq<YearDay>, next: YearDay, exc: set<ExceptionTag>, mods: map<int, map<YearDay, Modification>>)
    ensures PushAll(events, InstanceEntries(e, done + [next], exc, mods)) ==
      if Tagged(e.id, next) in exc then PushAll(events, InstanceEntries(e, done, exc, mods))
      else Push(PushAll(events, InstanceEntries(e, done, exc, mods)), InstanceEntry(e, next, ModificationFor(mods, e.id, next)))
  {
    InstanceEntriesSnoc(e, done, next, exc, mods);
    if Tagged(e.id, next) !in exc {
      var entry := InstanceEntry(e, next, ModificationFor(mods, e.id, next));
      assert InstanceEntries(e, done + [next], exc, mods) == InstanceEntries(e, done, exc, mods) + [entry];
      PushAllSnoc(events, InstanceEntries(e, done, exc, mods), entry);
    } else {
      assert InstanceEntries(e, done, exc, mods) + [] == InstanceEntries(e, done, exc, mods);
    }
  }

  /** Files the generated occurrence on `nextEventKey` unless it is excepted,
      its fields taken from the modification for that day when there is one. */
  method PushOccurrence(events: EventMap, e: MasterEvent, nextEventKey: YearDay, exceptionSet: set<ExceptionTag>, modificationMap: map<int, map<YearDay, Modification>>)
    returns (newEvents: EventMap)
    ensures Tagged(e.id, nextEventKey) in exceptionSet ==> newEvents == events
    ensures Tagged(e.id, nextEventKey) !in exceptionSet ==>
      newEvents == Push(events, InstanceEntry(e, nextEventKey, ModificationFor(modificationMap, e.id, nextEventKey)))
  {
    newEvents := events;
    var isExcepted := Tagged(e.id, nextEventKey) in exceptionSet;
    var modification := ModificationFor(modificationMap, e.id, nextEventKey);
    if !isExcepted {
      if nextEventKey !in newEvents {
        newEvents := newEvents[nextEventKey := []];
      }
      newEvents := newEvents[nextEventKey := newEvents[nextEventKey] + [InstanceEntry(e, nextEventKey, modification)]];
    }
  }

  /** The stepping loop for one recurring master: at most `repeats` steps
      and at most `MaxIterations`, stopping when the stepper returns None,
      pushing every step that is not excepted. */
  method PushInstances(events: EventMap, e: MasterEvent, exceptionSet: set<ExceptionTag>, modificationMap: map<int, map<YearDay, Modification>>)
    returns (newEvents: EventMap)
    requires e.key.Valid() && Expands(e)
    ensures newEvents == PushAll(events, InstanceEntries(e, GeneratedDates(e), exceptionSet, modificationMap))
  {
    ghost var dates := GeneratedDates(e);
    newEvents := events;
    var currentRecurrenceDate := e.key;
    var generatedCount := 0;
    var iterationCounter := 0;
    while generatedCount < e.repeats.value && iterationCounter < MaxIterations
      invariant generatedCount == iterationCounter <= StepLimit(e)
      invariant StepLimit(e) <= e.repeats.value && StepLimit(e) <= MaxIterations
      invariant StepLimit(e) == e.repeats.value || StepLimit(e) == MaxIterations
      invariant generatedCount <= |dates|
      invariant currentRecurrenceDate == SeriesPoint(e.key, dates, generatedCount)
      invariant newEvents == PushAll(events, InstanceEntries(e, dates[..generatedCount], exceptionSet, modificationMap))
    {
      GeneratedStep(e, generatedCount);
      var nextOccurrence := NextOccurrence(currentRecurrenceDate, e.pattern, e.key);
      if nextOccurrence.None? {
        break;
      }
      var nextEventKey := nextOccurrence.value;
      InstancesOneMore(events, e, dates, generatedCount, exceptionSet, modificationMap);
      newEvents := PushOccurrence(newEvents, e, nextEventKey, exceptionSet, modificationMap);
      currentRecurrenceDate := nextEventKey;
      generatedCount := generatedCount + 1;
      iterationCounter := iterationCounter + 1;
    }
    assert generatedCount == |dates|;
    assert dates[..generatedCount] == dates;
  }
}

/** Properties of the materialized dictionary. */
module MaterializerProperties {
  import opened Wrappers
  import opened Gregorian
  import opened EventModel
  import opened Stepper
  import opened Materializer

  /** The list filed under `k`, empty when `k` has none (`events[key] || []`). */
  function ListAt(m: EventMap, k: YearDay): seq<Occurrence> {
    if k in m then m[k] else []
  }

  /** The entries of `os` for day `k`, in order. */
  function OnDay(os: seq<Occurrence>, k: YearDay): (r: seq<Occurrence>)
    ensures forall o :: o in r <==> o in os && o.key == k
  {
    if os == [] then []
    else
      var n := |os| - 1;
      assert os == os[..n] + [os[n]];
      OnDay(os[..n], k) + (if os[n].key == k then [os[n]] else [])
  }

  lemma {:induction false} OnDayAppend(xs: seq<Occurrence>, ys: seq<Occurrence>, k: YearDay)
    ensures OnDay(xs + ys, k) == OnDay(xs, k) + OnDay(ys, k)
    decreases |ys|
  {
    if ys == [] {
      assert xs + ys == xs;
    } else {
      var n := |ys| - 1;
      assert (xs + ys)[..|xs + ys| - 1] == xs + ys[..n];
      OnDayAppend(xs, ys[..n], k);
    }
  }

  /** Pushing a list files each entry at the end of its own day's list, in order. */
  lemma {:induction false} PushAllAt(m: EventMap, os: seq<Occurrence>)
    ensures forall k :: k in PushAll(m, os) <==> k in m || OnDay(os, k) != []
    ensures forall k :: ListAt(PushAll(m, os), k) == ListAt(m, k) + OnDay(os, k)
    decreases |os|
  {
    if os != [] {
      var n := |os| - 1;
      PushAllAt(m, os[..n]);
    }
  }

  /** Every entry of every master, in the order the loop pushes them. */
  function AllContributions(masters: seq<MasterEvent>, exc: set<ExceptionTag>, mods: map<int, map<YearDay, Modification>>): seq<Occurrence>
    requires AllKeysValid(masters)
  {
    if masters == [] then []
    else
      var n := |masters| - 1;
      assert AllKeysValid(masters[..n]) by {
        assert forall i :: 0 <= i < n ==> masters[..n][i] == masters[i];
      }
      AllContributions(masters[..n], exc, mods) + Contribution(masters[n], exc, mods)
  }

  /** The masters' anchor days. */
  function AnchorKeys(masters: seq<MasterEvent>): (keys: set<YearDay>)
    ensures forall i :: 0 <= i < |masters| ==> masters[i].key in keys
    ensures forall k :: k in keys ==> exists i :: 0 <= i < |masters| && masters[i].key == k
  {
    if masters == [] then {}
    else
      var n := |masters| - 1;
      assert forall i :: 0 <= i < n ==> masters[..n][i] == masters[i];
      AnchorKeys(masters[..n]) + {masters[n].key}
  }

  /** The dictionary exactly: a day has a list iff it is some master's anchor
      or some entry falls on it, and its list holds the entries for that day
      in push order. */
  lemma {:induction false} MaterializedAt(masters: seq<MasterEvent>, exc: set<ExceptionTag>, mods: map<int, map<YearDay, Modification>>)
    requires AllKeysValid(masters)
    ensures forall k :: k in Materialized(masters, exc, mods) <==>
      k in AnchorKeys(masters) || OnDay(AllContributions(masters, exc, mods), k) != []
    ensures forall k :: ListAt(Materialized(masters, exc, mods), k) == OnDay(AllContributions(masters, exc, mods), k)
    decreases |masters|
  {
    if masters != [] {
      var n := |masters| - 1;
      var front := masters[..n];
      MaterializedLast(masters, exc, mods);
      MaterializedAt(front, exc, mods);
      var prev := Materialized(front, exc, mods);
      var all := AllContributions(front, exc, mods);
      var c := Contribution(masters[n], exc, mods);
      AddListAt(prev, masters[n].key, c);
      forall k
        ensures OnDay(all + c, k) == OnDay(all, k) + OnDay(c, k)
      {
        OnDayAppend(all, c, k);
      }
    }
  }

  /** The last master's step, unfolded: the dictionary, the entries and the
      anchors of all masters are those of the others plus the last one's. */
  lemma MaterializedLast(masters: seq<MasterEvent>, exc: set<ExceptionTag>, mods: map<int, map<YearDay, Modification>>)
    requires AllKeysValid(masters) && masters != []
    ensures var n := |masters| - 1;
      AllKeysValid(masters[..n]) &&
      Materialized(masters, exc, mods) ==
        PushAll(WithKey(Materialized(masters[..n], exc, mods), masters[n].key), Contribution(masters[n], exc, mods)) &&
      AllContributions(masters, exc, mods) ==
        AllContributions(masters[..n], exc, mods) + Contribution(masters[n], exc, mods) &&
      AnchorKeys(masters) == AnchorKeys(masters[..n]) + {masters[n].key}
  {
    var n := |masters| - 1;
    assert forall i :: 0 <= i < n ==> masters[..n][i] == masters[i];
  }

  /** One master's step: its anchor gets a list and its entries are pushed. */
  lemma AddListAt(prev: EventMap, key: YearDay, c: seq<Occurrence>)
    ensures forall k :: k in PushAll(WithKey(prev, key), c) <==> k in prev || k == key || OnDay(c, k) != []
    ensures forall k :: ListAt(PushAll(WithKey(prev, key), c), k) == ListAt(prev, k) + OnDay(c, k)
  {
    PushAllAt(WithKey(prev, key), c);
    assert forall k :: ListAt(WithKey(prev, key), k) == ListAt(prev, k);
  }

  /** Every master's anchor day has a list, possibly empty. */
  lemma AnchorKeysPresent(masters: seq<MasterEvent>, exc: set<ExceptionTag>, mods: map<int, map<YearDay, Modification>>)
    requires AllKeysValid(masters)
    ensures forall i :: 0 <= i < |masters| ==> masters[i].key in Materialized(masters, exc, mods)
  {
    MaterializedAt(masters, exc, mods);
  }

  /** Every entry is filed under its own day. */
  lemma FiledUnderOwnKey(masters: seq<MasterEvent>, exc: set<ExceptionTag>, mods: map<int, map<YearDay, Modification>>)
    requires AllKeysValid(masters)
    ensures forall k, o :: k in Materialized(masters, exc, mods) && o in Materialized(masters, exc, mods)[k] ==> o.key == k
  {
    MaterializedAt(masters, exc, mods);
    forall k, o | k in Materialized(masters, exc, mods) && o in Materialized(masters, exc, mods)[k]
      ensures o.key == k
    {
      assert o in ListAt(Materialized(masters, exc, mods), k);
    }
  }

  // ---------------------------------------------------------------------------
  // What one master contributes

  /** The override rule: the modification's fields and the modified flag when
      there is a modification, otherwise the master's fields with notes
      defaulting to '' and category to 'General'. */
  predicate FollowsOverride(e: MasterEvent, o: Occurrence, mod: Option<Modification>) {
    && o.isModifiedInstance == mod.Some?
    && (mod.Some? ==> o.description == mod.value.description && o.notes == mod.value.notes && o.category == mod.value.category)
    && (mod.None? ==> o.description == e.description && o.notes == OrDefault(e.notes, "") && o.category == OrDefault(e.category, "General"))
  }

  /** What every entry contributed by master `e` satisfies. */
  predicate EntryOf(e: MasterEvent, o: Occurrence, exc: set<ExceptionTag>, mods: map<int, map<YearDay, Modification>>)
    requires e.key.Valid()
  {
    && o.id == e.id
    && o.pattern == e.pattern
    && Tagged(e.id, o.key) !in exc
    && FollowsOverride(e, o, ModificationFor(mods, e.id, o.key))
    && match o.origin
       case RecurringMaster =>
         o.key == e.key && o.repeats == (if e.repeats == Some(0) then None else e.repeats)
       case RecurringInstance(originalEventId, originalEventKey) =>
         originalEventId == e.id && originalEventKey == e.key && o.key in GeneratedDates(e) && o.repeats == e.repeats
  }

  lemma {:induction false} InstanceEntriesSound(e: MasterEvent, dates: seq<YearDay>, exc: set<ExceptionTag>, mods: map<int, map<YearDay, Modification>>)
    requires e.key.Valid()
    ensures forall o :: o in InstanceEntries(e, dates, exc, mods) ==>
      o.key in dates && o.origin == RecurringInstance(e.id, e.key) && o.id == e.id && o.pattern == e.pattern &&
      o.repeats == e.repeats && Tagged(e.id, o.key) !in exc && FollowsOverride(e, o, ModificationFor(mods, e.id, o.key))
    ensures forall d :: d in dates && Tagged(e.id, d) !in exc ==>
      exists o :: o in InstanceEntries(e, dates, exc, mods) && o.key == d && o.origin.RecurringInstance?
    decreases |dates|
  {
    if dates != [] {
      var n := |dates| - 1;
      InstanceEntriesSound(e, dates[..n], exc, mods);
      assert dates == dates[..n] + [dates[n]];
      forall d | d in dates && Tagged(e.id, d) !in exc
        ensures exists o :: o in InstanceEntries(e, dates, exc, mods) && o.key == d && o.origin.RecurringInstance?
      {
        if d == dates[n] {
          assert InstanceEntry(e, d, ModificationFor(mods, e.id, d)) in InstanceEntries(e, dates, exc, mods);
        } else {
          assert d in dates[..n];
        }
      }
    }
  }

  /** Every entry a master contributes follows the override rule, is not
      excepted, carries the master's id and pattern, and is either the anchor
      entry or an instance on a generated date pointing back at the master. */
  lemma ContributionSound(e: MasterEvent, exc: set<ExceptionTag>, mods: map<int, map<YearDay, Modification>>)
    requires e.key.Valid()
    ensures forall o :: o in Contribution(e, exc, mods) ==> EntryOf(e, o, exc, mods)
  {
    InstanceEntriesSound(e, GeneratedDates(e), exc, mods);
  }

  /** The anchor entry is present iff the anchor is not excepted, and every
      generated date that is not excepted gets an instance entry. */
  lemma ContributionComplete(e: MasterEvent, exc: set<ExceptionTag>, mods: map<int, map<YearDay, Modification>>)
    requires e.key.Valid()
    ensures Tagged(e.id, e.key) !in exc <==> exists o :: o in Contribution(e, exc, mods) && o.origin == RecurringMaster
    ensures forall d :: d in GeneratedDates(e) && Tagged(e.id, d) !in exc ==>
      exists o :: o in Contribution(e, exc, mods) && o.key == d && o.origin.RecurringInstance?
  {
    InstanceEntriesSound(e, GeneratedDates(e), exc, mods);
    if Tagged(e.id, e.key) !in exc {
      assert MasterEntry(e, ModificationFor(mods, e.id, e.key)) in Contribution(e, exc, mods);
    }
  }

  // ---------------------------------------------------------------------------
  // Counting

  /** How many of `dates` are excepted for master `id`. */
  function CountExcepted(id: int, dates: seq<YearDay>, exc: set<ExceptionTag>): (n: nat)
    ensures n <= |dates|
  {
    if dates == [] then 0
    else CountExcepted(id, dates[..|dates| - 1], exc) + (if Tagged(id, dates[|dates| - 1]) in exc then 1 else 0)
  }

  /** Excepted dates are skipped but still use up a step: entries plus
      excepted dates make up the whole series, which is at most the repeat
      count and at most the safety cap. */
  lemma {:induction false} InstanceCount(e: MasterEvent, dates: seq<YearDay>, exc: set<ExceptionTag>, mods: map<int, map<YearDay, Modification>>)
    ensures |InstanceEntries(e, dates, exc, mods)| + CountExcepted(e.id, dates, exc) == |dates|
    decreases |dates|
  {
    if dates != [] {
      InstanceCount(e, dates[..|dates| - 1], exc, mods);
    }
  }

  lemma SeriesCount(e: MasterEvent, exc: set<ExceptionTag>, mods: map<int, map<YearDay, Modification>>)
    requires e.key.Valid()
    ensures |InstanceEntries(e, GeneratedDates(e), exc, mods)| + CountExcepted(e.id, GeneratedDates(e), exc) == |GeneratedDates(e)|
    ensures |GeneratedDates(e)| <= MaxIterations
    ensures Expands(e) ==> |GeneratedDates(e)| <= e.repeats.value
    ensures !Expands(e) ==> GeneratedDates(e) == []
  {
    InstanceCount(e, GeneratedDates(e), exc, mods);
  }

  /** A weekly, phasely or yearly master generates exactly `repeats` dates,
      or `MaxIterations` when it asks for more. */
  lemma ExactSeriesLength(e: MasterEvent)
    requires e.key.Valid() && Expands(e)
    requires e.pattern == Weekly || e.pattern == Phasely || e.pattern == Yearly
    ensures e.repeats.value <= MaxIterations ==> |GeneratedDates(e)| == e.repeats.value
    ensures e.repeats.value > MaxIterations ==> |GeneratedDates(e)| == MaxIterations
  {
    SeriesFull(e.key, e.pattern, e.key, e.repeats.value, MaxIterations);
  }

  /** Weekly, phasely and yearly series never stop early: they run the full
      number of steps. */
  lemma {:induction false} SeriesFull(current: YearDay, pattern: Pattern, anchor: YearDay, wanted: nat, cap: nat)
    requires current.Valid() && anchor.Valid()
    requires pattern == Weekly || pattern == Phasely || pattern == Yearly
    ensures |Series(current, pattern, anchor, wanted, cap)| == if wanted < cap then wanted else cap
    decreases wanted
  {
    if wanted > 0 && cap > 0 {
      match pattern {
        case Weekly => WeeklyIsSixDaysLater(current, anchor);
        case Phasely => PhaselyAlwaysSteps(current, anchor);
        case Yearly => YearlyKeepsMonthDay(current, anchor);
      }
      DelayedStepIsStep(current, pattern, anchor, wanted);
      var next := DelayedStep(current, pattern, anchor, wanted).value;
      SeriesFull(next, pattern, anchor, wanted - 1, cap - 1);
    }
  }

  // ---------------------------------------------------------------------------
  // Scenarios

  /** The weekly event used by the scenarios below: 2025-1, two repeats. */
  function Standup(): MasterEvent {
    MasterEvent(1, YearDay(2025, 1), "Standup", None, None, Weekly, Some(2))
  }

  /** Its series: days 7 and 13 of 2025. */
  lemma StandupDates()
    ensures GeneratedDates(Standup()) == [YearDay(2025, 7), YearDay(2025, 13)]
  {
    WeeklyIsSixDaysLater(YearDay(2025, 1), YearDay(2025, 1));
    WeeklyIsSixDaysLater(YearDay(2025, 7), YearDay(2025, 1));
  }

  /** Two dates, neither excepted, give their two entries in order. */
  lemma TwoInstances(e: MasterEvent, d1: YearDay, d2: YearDay, exc: set<ExceptionTag>, mods: map<int, map<YearDay, Modification>>)
    requires Tagged(e.id, d1) !in exc && Tagged(e.id, d2) !in exc
    ensures InstanceEntries(e, [d1, d2], exc, mods) ==
      [InstanceEntry(e, d1, ModificationFor(mods, e.id, d1)), InstanceEntry(e, d2, ModificationFor(mods, e.id, d2))]
  {
    assert [d1, d2][..1] == [d1];
    assert [d1][..0] == [];
    assert InstanceEntries(e, [d1], exc, mods) == [InstanceEntry(e, d1, ModificationFor(mods, e.id, d1))];
  }

  /** Pushing onto a day without a list starts the list. */
  lemma PushFresh(m: EventMap, o: Occurrence)
    requires o.key !in m
    ensures Push(m, o) == m[o.key := [o]]
  {
    var empty: seq<Occurrence> := [];
    assert empty + [o] == [o];
  }

  /** Pushing two entries for two distinct days gives one list each. */
  lemma PushTwo(key: YearDay, a: Occurrence, b: Occurrence)
    requires a.key == key && a.key != b.key
    ensures PushAll(WithKey(map[], key), [a, b]) == map[a.key := [a], b.key := [b]]
  {
    assert [a, b][..1] == [a];
    assert [a][..0] == [];
    var empty: seq<Occurrence> := [];
    assert WithKey(map[], key) == map[key := empty];
    assert empty + [a] == [a];
    assert PushAll(WithKey(map[], key), [a]) == map[a.key := [a]];
    PushFresh(map[a.key := [a]], b);
  }

  /** Pushing three entries for three distinct days gives one list each. */
  lemma PushThree(key: YearDay, a: Occurrence, b: Occurrence, c: Occurrence)
    requires a.key == key && a.key != b.key && a.key != c.key && b.key != c.key
    ensures PushAll(WithKey(map[], key), [a, b, c]) == map[a.key := [a], b.key := [b], c.key := [c]]
  {
    assert [a, b, c][..2] == [a, b];
    assert [a, b][..1] == [a];
    assert [a][..0] == [];
    var empty: seq<Occurrence> := [];
    assert WithKey(map[], key) == map[key := empty];
    assert empty + [a] == [a];
    assert PushAll(WithKey(map[], key), [a]) == map[a.key := [a]];
    PushFresh(map[a.key := [a]], b);
    assert PushAll(WithKey(map[], key), [a, b]) == map[a.key := [a], b.key := [b]];
    PushFresh(map[a.key := [a], b.key := [b]], c);
  }

  /** A weekly event on 2025-1 with two repeats fills days 1, 7 and 13. */
  lemma WeeklyScenario()
    ensures var e := Standup();
      Materialized([e], {}, map[]) == map[
        YearDay(2025, 1) := [MasterEntry(e, None)],
        YearDay(2025, 7) := [InstanceEntry(e, YearDay(2025, 7), None)],
        YearDay(2025, 13) := [InstanceEntry(e, YearDay(2025, 13), None)]]
  {
    var e := Standup();
    StandupDates();
    TwoInstances(e, YearDay(2025, 7), YearDay(2025, 13), {}, map[]);
    var i7 := InstanceEntry(e, YearDay(2025, 7), None);
    var i13 := InstanceEntry(e, YearDay(2025, 13), None);
    assert Contribution(e, {}, map[]) == [MasterEntry(e, None), i7, i13];
    assert [e][..0] == [];
    assert Materialized([e], {}, map[]) == PushAll(WithKey(map[], e.key), [MasterEntry(e, None), i7, i13]);
    PushThree(e.key, MasterEntry(e, None), i7, i13);
  }

  /** With day 7 excepted, the master and the day-13 instance remain. */
  lemma StandupWithoutDay7()
    ensures var e := Standup();
      Contribution(e, {Tagged(1, YearDay(2025, 7))}, map[]) == [MasterEntry(e, None), InstanceEntry(e, YearDay(2025, 13), None)]
  {
    var e := Standup();
    var exc := {Tagged(1, YearDay(2025, 7))};
    StandupDates();
    assert [YearDay(2025, 7), YearDay(2025, 13)][..1] == [YearDay(2025, 7)];
    assert [YearDay(2025, 7)][..0] == [];
    assert InstanceEntries(e, GeneratedDates(e), exc, map[]) == [InstanceEntry(e, YearDay(2025, 13), None)];
  }

  /** Excepting the second occurrence of that series removes day 7 only:
      the series still ends on day 13. */
  lemma ExceptedOccurrenceScenario()
    ensures var e := Standup();
      var m := Materialized([e], {Tagged(1, YearDay(2025, 7))}, map[]);
      YearDay(2025, 7) !in m && YearDay(2025, 13) in m && m[YearDay(2025, 13)] == [InstanceEntry(e, YearDay(2025, 13), None)]
  {
    var e := Standup();
    var exc := {Tagged(1, YearDay(2025, 7))};
    var i13 := InstanceEntry(e, YearDay(2025, 13), None);
    StandupWithoutDay7();
    assert [e][..0] == [];
    var m := Materialized([e], exc, map[]);
    assert Materialized([e][..0], exc, map[]) == map[];
    assert m == PushAll(WithKey(map[], e.key), [MasterEntry(e, None), i13]);
    PushTwo(e.key, MasterEntry(e, None), i13);
  }

  /** A modification on day 7 of that series changes day 7's entry only. */
  lemma ModifiedOccurrenceScenario()
    ensures var e := Standup();
      var mod := Modification("Retro", "", "Work");
      var m := Materialized([e], {}, map[1 := map[YearDay(2025, 7) := mod]]);
      && YearDay(2025, 1) in m && YearDay(2025, 7) in m && YearDay(2025, 13) in m
      && m[YearDay(2025, 7)] == [InstanceEntry(e, YearDay(2025, 7), Some(mod))]
      && m[YearDay(2025, 7)][0].description == "Retro" && m[YearDay(2025, 7)][0].isModifiedInstance
      && m[YearDay(2025, 13)] == [InstanceEntry(e, YearDay(2025, 13), None)]
      && m[YearDay(2025, 13)][0].description == "Standup" && !m[YearDay(2025, 13)][0].isModifiedInstance
      && m[YearDay(2025, 1)] == [MasterEntry(e, None)] && m[YearDay(2025, 1)][0].category == "General"
  {
    var e := Standup();
    var mod := Modification("Retro", "", "Work");
    var mods := map[1 := map[YearDay(2025, 7) := mod]];
    StandupDates();
    TwoInstances(e, YearDay(2025, 7), YearDay(2025, 13), {}, mods);
    assert ModificationFor(mods, 1, YearDay(2025, 7)) == Some(mod);
    assert ModificationFor(mods, 1, YearDay(2025, 13)) == None;
    assert ModificationFor(mods, 1, YearDay(2025, 1)) == None;
    var i7 := InstanceEntry(e, YearDay(2025, 7), Some(mod));
    var i13 := InstanceEntry(e, YearDay(2025, 13), None);
    assert Contribution(e, {}, mods) == [MasterEntry(e, None), i7, i13];
    assert [e][..0] == [];
    assert Materialized([e], {}, mods) == PushAll(WithKey(map[], e.key), [MasterEntry(e, None), i7, i13]);
    PushThree(e.key, MasterEntry(e, None), i7, i13);
  }

  /** A non-recurring event whose own day is excepted leaves that day with an
      empty list. */
  lemma ExceptedSingleEvent(e: MasterEvent, mods: map<int, map<YearDay, Modification>>)
    requires e.key.Valid() && !Expands(e)
    ensures Materialized([e], {Tagged(e.id, e.key)}, mods) == map[e.key := []]
  {
    assert [e][..0] == [];
    assert GeneratedDates(e) == [];
  }

  // ---------------------------------------------------------------------------
  // Bare day keys in the exception lists

  /** Every listed exception entry is a bare day key. */
  predicate OnlyBareKeys(exceptions: seq<(int, seq<ExceptionTag>)>) {
    forall i, j :: 0 <= i < |exceptions| && 0 <= j < |exceptions[i].1| ==> exceptions[i].1[j].BareKey?
  }

  /** Instance entries depend on the exception set only through the
      `"id,key"` entries of their own dates. */
  lemma {:induction false} InstanceEntriesWithoutTags(e: MasterEvent, dates: seq<YearDay>, exc: set<ExceptionTag>, mods: map<int, map<YearDay, Modification>>)
    requires forall t :: t in exc ==> t.BareKey?
    ensures InstanceEntries(e, dates, exc, mods) == InstanceEntries(e, dates, {}, mods)
    decreases |dates|
  {
    if dates != [] {
      InstanceEntriesWithoutTags(e, dates[..|dates| - 1], exc, mods);
      assert Tagged(e.id, dates[|dates| - 1]) !in exc;
    }
  }

  /** A master's contribution is the same under any exception set that holds
      no `"id,key"` entry. */
  lemma ContributionWithoutTags(e: MasterEvent, exc: set<ExceptionTag>, mods: map<int, map<YearDay, Modification>>)
    requires e.key.Valid()
    requires forall t :: t in exc ==> t.BareKey?
    ensures Contribution(e, exc, mods) == Contribution(e, {}, mods)
  {
    InstanceEntriesWithoutTags(e, GeneratedDates(e), exc, mods);
    assert Tagged(e.id, e.key) !in exc;
  }

  /** Exception lists holding bare day keys only delete nothing: the
      dictionary is the one built with no exceptions at all. */
  lemma {:induction false} BareKeysExceptNothing(masters: seq<MasterEvent>, exceptions: seq<(int, seq<ExceptionTag>)>, mods: map<int, map<YearDay, Modification>>)
    requires AllKeysValid(masters) && OnlyBareKeys(exceptions)
    ensures Materialized(masters, ExceptionSet(exceptions), mods) == Materialized(masters, {}, mods)
    decreases |masters|
  {
    var exc := ExceptionSet(exceptions);
    if masters != [] {
      var n := |masters| - 1;
      assert AllKeysValid(masters[..n]) by {
        assert forall i :: 0 <= i < n ==> masters[..n][i] == masters[i];
      }
      BareKeysExceptNothing(masters[..n], exceptions, mods);
      assert forall t :: t in exc ==> t.BareKey?;
      ContributionWithoutTags(masters[n], exc, mods);
    }
  }

  // ---------------------------------------------------------------------------
  // The lookup structures

  /** The modification looked up for (id, key) is the last one listed for
      that key in the last entry listed for that id. */
  lemma ModificationMapLookup(modifications: seq<(int, seq<(YearDay, Modification)>)>, i: nat, j: nat)
    requires i < |modifications| && j < |modifications[i].1|
    requires forall i' :: i < i' < |modifications| ==> modifications[i'].0 != modifications[i].0
    requires forall j' :: j < j' < |modifications[i].1| ==> modifications[i].1[j'].0 != modifications[i].1[j].0
    ensures ModificationFor(ModificationMap(modifications), modifications[i].0, modifications[i].1[j].0) == Some(modifications[i].1[j].1)
  {
    var pairs := seq(|modifications|, k requires 0 <= k < |modifications| => (modifications[k].0, PairsToMap(modifications[k].1)));
    PairsToMapLastWins(pairs, i);
    PairsToMapLastWins(modifications[i].1, j);
  }
}
