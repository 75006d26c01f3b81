/**
 * The front end's shared state: the selected and displayed dates, the
 * materialized event dictionary, the logged-in user and the filter settings,
 * with their setters, the refresh of the event dictionary from a fetched
 * response, and the event list the panel shows for the selected day.
 */
module AppState {
  import opened Wrappers
  import opened Gregorian
  import opened EventModel
  import opened Materializer
  import opened MaterializerProperties
  import opened EventForms

  /** The values of all the state variables at one moment. */
  datatype StateValues = StateValues(
    selectedDayOfYear: Option<int>,
    selectedYear: Option<int>,
    displayedYear: int,
    events: EventMap,
    currentUserId: Option<int>,
    currentUsername: Option<string>,
    currentCategoryFilter: string,
    currentSearchTerm: string,
    isSearchModeActive: bool)

  /** What the events endpoint answered: the three lists of a successful
      response, or any failure (a non-ok status, a network error or a body
      that does not parse, which all end the same way). */
  datatype FetchResponse =
    | Loaded(masterEvents: seq<MasterEvent>, exceptions: seq<(int, seq<ExceptionTag>)>, modifications: seq<(int, seq<(YearDay, Modification)>)>)
    | Failed

  /** The event dictionary a refresh leaves behind: empty for a guest or a
      failed fetch, else the materialization of the fetched masters. */
  function FetchedEvents(userId: Option<int>, response: FetchResponse): (m: EventMap)
    requires response.Loaded? ==> AllKeysValid(response.masterEvents)
    ensures userId.None? || response.Failed? ==> m == map[]
    ensures userId.Some? && response.Loaded? ==>
      forall k :: ListAt(m, k) ==
        OnDay(AllContributions(response.masterEvents, ExceptionSet(response.exceptions), ModificationMap(response.modifications)), k)
  {
    if userId.None? || response.Failed? then map[]
    else
      var exc := ExceptionSet(response.exceptions);
      var mods := ModificationMap(response.modifications);
      MaterializedAt(response.masterEvents, exc, mods);
      Materialized(response.masterEvents, exc, mods)
  }

  /** What the event panel lists. */
  datatype PanelContent =
    | SearchResults
    | DayEvents(list: seq<Occurrence>)
    | NothingSelected

  class State {
    var selectedDayOfYear: Option<int>
    var selectedYear: Option<int>
    var displayedYear: int
    var events: EventMap
    var currentUserId: Option<int>
    var currentUsername: Option<string>
    var currentCategoryFilter: string
    var currentSearchTerm: string
    var isSearchModeActive: bool

    function Values(): StateValues
      reads this
    {
      StateValues(selectedDayOfYear, selectedYear, displayedYear, events, currentUserId, currentUsername,
                  currentCategoryFilter, currentSearchTerm, isSearchModeActive)
    }

    /** The initial state; `currentYear` is the clock's year. */
    constructor(currentYear: int)
      ensures Values() == StateValues(None, None, currentYear, map[], None, None, "All", "", false)
    {
      selectedDayOfYear := None;
      selectedYear := None;
      displayedYear := currentYear;
      events := map[];
      currentUserId := None;
      currentUsername := None;
      currentCategoryFilter := "All";
      currentSearchTerm := "";
      isSearchModeActive := false;
    }

    method SetSelectedDayOfYear(value: Option<int>)
      modifies this
      ensures Values() == old(Values()).(selectedDayOfYear := value)
    {
      selectedDayOfYear := value;
    }

    method SetSelectedYear(value: Option<int>)
      modifies this
      ensures Values() == old(Values()).(selectedYear := value)
    {
      selectedYear := value;
    }

    method SetDisplayedYear(value: int)
      modifies this
      ensures Values() == old(Values()).(displayedYear := value)
    {
      displayedYear := value;
    }

    method SetEvents(newEvents: EventMap)
      modifies this
      ensures Values() == old(Values()).(events := newEvents)
    {
      events := newEvents;
    }

    method SetCurrentUserId(value: Option<int>)
      modifies this
      ensures Values() == old(Values()).(currentUserId := value)
    {
      currentUserId := value;
    }

    method SetCurrentUsername(value: Option<string>)
      modifies this
      ensures Values() == old(Values()).(currentUsername := value)
    {
      currentUsername := value;
    }

    method SetCurrentCategoryFilter(value: string)
      modifies this
      ensures Values() == old(Values()).(currentCategoryFilter := value)
    {
      currentCategoryFilter := value;
    }

    method SetCurrentSearchTerm(value: string)
      modifies this
      ensures Values() == old(Values()).(currentSearchTerm := value)
    {
      currentSearchTerm := value;
    }

    method SetIsSearchModeActive(value: bool)
      modifies this
      ensures Values() == old(Values()).(isSearchModeActive := value)
    {
      isSearchModeActive := value;
    }

    /** `fetchAndRenderEvents`: rebuilds the event dictionary from the
        response and changes nothing else. */
    method FetchAndRenderEvents(response: FetchResponse)
      requires response.Loaded? ==> AllKeysValid(response.masterEvents)
      modifies this
      ensures Values() == old(Values()).(events := FetchedEvents(old(currentUserId), response))
    {
      if currentUserId.None? {
        SetEvents(map[]);
        return;
      }
      match response
      case Failed =>
        SetEvents(map[]);
      case Loaded(masterEvents, exceptions, modifications) =>
        var exceptionSet := ExceptionSet(exceptions);
        var modificationMap := ModificationMap(modifications);
        var newEvents := Materialize(masterEvents, exceptionSet, modificationMap);
        SetEvents(newEvents);
    }

    /** The panel's list outside search mode: the selected day's events that
        pass the category and search filter, in dictionary order (the order
        `FilterEvents` keeps, by `FilterOne` and `FilterAppend`). */
    function PanelEvents(): (p: PanelContent)
      reads this
      ensures isSearchModeActive <==> p.SearchResults?
      ensures p.NothingSelected? <==> !isSearchModeActive && (selectedDayOfYear.None? || selectedYear.None?)
      ensures p.DayEvents? ==> forall o :: o in p.list <==>
        o in ListAt(events, YearDay(selectedYear.value, selectedDayOfYear.value)) &&
        MatchesFilter(o, currentCategoryFilter, currentSearchTerm)
      ensures p.DayEvents? ==>
        p.list == FilterEvents(ListAt(events, YearDay(selectedYear.value, selectedDayOfYear.value)),
                               currentCategoryFilter, currentSearchTerm)
    {
      if isSearchModeActive then SearchResults
      else if selectedDayOfYear.Some? && selectedYear.Some? then
        DayEvents(FilterEvents(ListAt(events, YearDay(selectedYear.value, selectedDayOfYear.value)),
                               currentCategoryFilter, currentSearchTerm))
      else NothingSelected
    }
  }

  /** After a refresh with the default filter, the panel lists exactly the
      occurrences the fetched masters contribute to the selected day, in the
      order the masters were processed. */
  lemma {:induction false} RefreshedPanelShowsDay(userId: int, response: FetchResponse, day: int, year: int)
    requires response.Loaded? && AllKeysValid(response.masterEvents)
    ensures FilterEvents(ListAt(FetchedEvents(Some(userId), response), YearDay(year, day)), "All", "") ==
      OnDay(AllContributions(response.masterEvents, ExceptionSet(response.exceptions), ModificationMap(response.modifications)), YearDay(year, day))
  {
    var m := FetchedEvents(Some(userId), response);
    DefaultFilterShowsAll(ListAt(m, YearDay(year, day)));
  }
}
