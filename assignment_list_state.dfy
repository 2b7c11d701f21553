/** The state hook of the assignments page: the loaded assignments, courses and
    statistics, the active tab, the view mode, the persistent filters with the search box
    and the course selection, and the handlers that change them. The filters actually sent
    combine the persistent ones with the search, the course and the tab. An awaited API call
    is an `Outcome` parameter, and a loader returns the filters it sent. */
module AssignmentListState {
  import opened Common
  import opened Strings
  import opened FrontData
  import opened AssignmentService

  const LOAD_DATA_FAILED: string := "Failed to load assignments data"
  const LOAD_FAILED: string := "Failed to load assignments"
  const CREATED: string := "Assignment created successfully!"
  const ASSIGNMENTS_PATH: string := "/assignments"
  const DEFAULT_LIMIT: int := 50

  /** The filters the hook starts from: due date ascending, fifty at most. */
  const INITIAL_FILTERS: AssignmentFilters :=
    AssignmentFilters(None, None, None, Some("due_date"), Some("asc"), Some(DEFAULT_LIMIT), None)

  datatype ViewMode = ListView | GridView

  /** `getStatusFilter`: the status of tabs 1 to 3, none for the "all" tab and any other. */
  function GetStatusFilter(tab: int): (r: Option<string>)
    ensures r == Some("overdue") <==> tab == 1
    ensures r == Some("due_soon") <==> tab == 2
    ensures r == Some("upcoming") <==> tab == 3
    ensures r.None? <==> tab != 1 && tab != 2 && tab != 3
  {
    if tab == 1 then Some("overdue")
    else if tab == 2 then Some("due_soon")
    else if tab == 3 then Some("upcoming")
    else None
  }

  /** `prev.order === 'asc' ? 'desc' : 'asc'`. */
  function ToggledOrder(order: Option<string>): (r: Option<string>)
    ensures r == Some("desc") <==> order == Some("asc")
    ensures r == Some("asc") <==> order != Some("asc")
  {
    if order == Some("asc") then Some("desc") else Some("asc")
  }

  /** Toggling twice restores either order; an order that is neither becomes ascending
      after one toggle. */
  lemma ToggledOrderTwice(order: Option<string>)
    ensures order == Some("asc") || order == Some("desc") ==> ToggledOrder(ToggledOrder(order)) == order
    ensures order != Some("asc") && order != Some("desc") ==> ToggledOrder(order) == Some("asc")
  {
  }

  /** `courseId || undefined`, where the empty selection `''` is None. */
  function CourseParam(courseId: Option<int>): (r: Option<int>)
    ensures r.Some? <==> TruthyOptInt(courseId)
    ensures r.Some? ==> r == courseId
  {
    if TruthyOptInt(courseId) then courseId else None
  }

  /** Every state variable of the hook. */
  datatype ListState = ListState(
    assignments: seq<AssignmentListItem>, courses: seq<Course>, stats: Option<AssignmentStats>,
    loading: bool, statsLoading: bool, activeTab: int, viewMode: ViewMode, assignmentDialogOpen: bool,
    filters: AssignmentFilters, searchQuery: string, selectedCourse: Option<int>, snackbar: Snackbar)

  const INITIAL_STATE: ListState :=
    ListState([], [], None, true, true, 0, GridView, false, INITIAL_FILTERS, "", None, CLOSED_SNACKBAR)

  /** What every handler keeps: the persistent filters carry an order that is ascending or
      descending, the limit of fifty, no offset, no search and no status, and a course id
      only when it is truthy. */
  predicate Consistent(s: ListState) {
    (s.filters.order == Some("asc") || s.filters.order == Some("desc"))
    && s.filters.limit == Some(DEFAULT_LIMIT) && s.filters.offset.None?
    && s.filters.search.None? && s.filters.status.None?
    && (s.filters.courseId.Some? ==> s.filters.courseId.value != 0)
  }

  /** `currentFilters` of `loadAssignments`: the persistent filters with the search box,
      the selected course and the tab's status laid over them. */
  function CurrentFilters(s: ListState): AssignmentFilters {
    s.filters.(search := if s.searchQuery != "" then Some(s.searchQuery) else None,
               courseId := CourseParam(s.selectedCourse),
               status := GetStatusFilter(s.activeTab))
  }

  /** The query `loadAssignments` sends: the search text exactly when the box is not
      empty, untrimmed; the course exactly when a truthy one is selected; the status of the
      active tab; the persistent sort key; and, in a consistent state, one of the two orders
      and the limit of fifty, never an offset. */
  lemma CurrentFiltersSent(s: ListState)
    ensures var f := Some(CurrentFilters(s));
            SentValue(f, SearchKey) == (if s.searchQuery != "" then Some(s.searchQuery) else None)
            && SentValue(f, CourseIdKey) == (if TruthyOptInt(s.selectedCourse) then Some(IntToString(s.selectedCourse.value)) else None)
            && SentValue(f, StatusKey) == GetStatusFilter(s.activeTab)
            && SentValue(f, SortByKey) == StrParam(s.filters.sortBy)
    ensures Consistent(s) ==>
            var f := Some(CurrentFilters(s));
            (SentValue(f, OrderKey) == Some("asc") || SentValue(f, OrderKey) == Some("desc"))
            && SentValue(f, LimitKey) == Some("50") && SentValue(f, OffsetKey).None?
  {
    if Consistent(s) {
      assert IntToString(50) == "50" by {
        assert DigitChar(5) == '5' && DigitChar(0) == '0';
        assert NatToString(5) == "5";
        assert NatToString(50) == NatToString(5) + [DigitChar(0)];
      }
    }
  }

  /** The `getAllAssignments` answer taken over, or a fixed error notice. */
  function LoadAssignmentsNext(s: ListState, outcome: Outcome<seq<AssignmentListItem>>): ListState {
    match outcome
    case Succeeded(items) => s.(assignments := items)
    case Failed(_) => s.(snackbar := Snackbar(true, LOAD_FAILED, SnackError))
  }

  /** The filters `loadInitialData` sends: the assignments are only requested when both
      the courses and the statistics arrived. */
  function LoadInitialRequest(s: ListState, initial: Outcome<(seq<Course>, AssignmentStats)>): (r: Option<AssignmentFilters>)
    ensures r.Some? <==> initial.Succeeded?
  {
    if initial.Succeeded? then Some(CurrentFilters(s)) else None
  }

  /** `loadInitialData` with the joint answer of `getCourses` and `getAssignmentStats`
      and the answer of the assignments request. */
  function LoadInitialNext(s: ListState, initial: Outcome<(seq<Course>, AssignmentStats)>,
                           items: Outcome<seq<AssignmentListItem>>): ListState {
    match initial
    case Succeeded((cs, st)) =>
      LoadAssignmentsNext(s.(courses := cs, stats := Some(st), statsLoading := false), items).(loading := false)
    case Failed(_) => s.(snackbar := Snackbar(true, LOAD_DATA_FAILED, SnackError), loading := false, statsLoading := true)
  }

  function TabChangeNext(s: ListState, tab: int): ListState { s.(activeTab := tab) }

  function SearchChangeNext(s: ListState, query: string): ListState { s.(searchQuery := query) }

  /** `handleCourseFilter`: the selection, and the persistent course filter when truthy. */
  function CourseFilterNext(s: ListState, courseId: Option<int>): ListState {
    s.(selectedCourse := courseId, filters := s.filters.(courseId := CourseParam(courseId)))
  }

  /** `handleSortChange`. */
  function SortChangeNext(s: ListState, sortBy: string): ListState {
    s.(filters := s.filters.(sortBy := Some(sortBy)))
  }

  /** `handleOrderChange`. */
  function OrderChangeNext(s: ListState): ListState {
    s.(filters := s.filters.(order := ToggledOrder(s.filters.order)))
  }

  /** `handleViewModeChange`: a deselection (null) keeps the mode. */
  function ViewModeChangeNext(s: ListState, mode: Option<ViewMode>): ListState {
    if mode.None? then s else s.(viewMode := mode.value)
  }

  function CreateAssignmentNext(s: ListState): ListState { s.(assignmentDialogOpen := true) }

  /** `handleAssignmentCreated`: a success notice, then a full reload. */
  function AssignmentCreatedNext(s: ListState, initial: Outcome<(seq<Course>, AssignmentStats)>,
                                 items: Outcome<seq<AssignmentListItem>>): ListState {
    LoadInitialNext(s.(snackbar := Snackbar(true, CREATED, SnackSuccess)), initial, items)
  }

  /** The route and router state `handleAssignmentClick` navigates to. */
  datatype Navigation = Navigation(path: string, from: Option<string>)

  function AssignmentClickTarget(assignmentId: int): (r: Navigation)
    ensures r.from == Some(ASSIGNMENTS_PATH)
    ensures r.path == ASSIGNMENTS_PATH + "/" + IntToString(assignmentId)
  {
    Navigation("/assignments/" + IntToString(assignmentId), Some(ASSIGNMENTS_PATH))
  }

  /** Distinct assignments open distinct routes. */
  lemma AssignmentClickInjective(a: int, b: int)
    requires AssignmentClickTarget(a) == AssignmentClickTarget(b)
    ensures a == b
  {
    var p := "/assignments/";
    assert (p + IntToString(a))[|p|..] == IntToString(a);
    assert (p + IntToString(b))[|p|..] == IntToString(b);
    IntToStringInjective(a, b);
  }

  /** The initial state is consistent and the filter handlers keep it so. */
  lemma FilterHandlersKeepConsistent(s: ListState, tab: int, query: string, courseId: Option<int>, sortBy: string)
    requires Consistent(s)
    ensures Consistent(INITIAL_STATE)
    ensures Consistent(TabChangeNext(s, tab)) && Consistent(SearchChangeNext(s, query))
    ensures Consistent(CourseFilterNext(s, courseId)) && Consistent(SortChangeNext(s, sortBy))
    ensures Consistent(OrderChangeNext(s))
  {
  }

  /** The loaders and the remaining handlers keep the state consistent whatever the
      server answers. */
  lemma LoadHandlersKeepConsistent(s: ListState, mode: Option<ViewMode>, initial: Outcome<(seq<Course>, AssignmentStats)>,
                                   items: Outcome<seq<AssignmentListItem>>)
    requires Consistent(s)
    ensures Consistent(ViewModeChangeNext(s, mode)) && Consistent(CreateAssignmentNext(s))
    ensures Consistent(LoadAssignmentsNext(s, items)) && Consistent(LoadInitialNext(s, initial, items))
    ensures Consistent(AssignmentCreatedNext(s, initial, items))
  {
    assert ViewModeChangeNext(s, mode).filters == s.filters;
    assert CreateAssignmentNext(s).filters == s.filters;
    LoadKeepsFilters(s, items);
    var c := s.(snackbar := Snackbar(true, CREATED, SnackSuccess));
    if initial.Succeeded? {
      var t := s.(courses := initial.value.0, stats := Some(initial.value.1), statsLoading := false);
      LoadKeepsFilters(t, items);
      var tc := c.(courses := initial.value.0, stats := Some(initial.value.1), statsLoading := false);
      LoadKeepsFilters(tc, items);
    }
    assert LoadInitialNext(s, initial, items).filters == s.filters;
    assert AssignmentCreatedNext(s, initial, items).filters == s.filters;
  }

  /** Loading assignments never touches the filters. */
  lemma LoadKeepsFilters(s: ListState, items: Outcome<seq<AssignmentListItem>>)
    ensures LoadAssignmentsNext(s, items).filters == s.filters
  {
  }

  /** Reversing the order twice restores the state; changing the sort key changes
      nothing else; clearing the course filter (`''`, or 0) takes the course out of the
      query. */
  lemma FilterHandlersSpec(s: ListState, sortBy: string, cleared: Option<int>)
    requires Consistent(s)
    ensures OrderChangeNext(OrderChangeNext(s)) == s
    ensures var r := SortChangeNext(s, sortBy);
            r.filters == s.filters.(sortBy := Some(sortBy)) && r.(filters := s.filters) == s
    ensures !TruthyOptInt(cleared) ==>
            var r := CourseFilterNext(s, cleared);
            r.filters.courseId.None? && SentValue(Some(CurrentFilters(r)), CourseIdKey).None?
  {
    ToggledOrderTwice(s.filters.order);
  }

  /** A refresh after a creation reports the creation unless the refresh fails, whose own
      notice then replaces it; a failure of either first request keeps the old lists, and
      the statistics spinner keeps spinning. */
  lemma AssignmentCreatedNotice(s: ListState, initial: Outcome<(seq<Course>, AssignmentStats)>,
                                items: Outcome<seq<AssignmentListItem>>)
    ensures var r := AssignmentCreatedNext(s, initial, items);
            (initial.Succeeded? && items.Succeeded? ==>
               r.snackbar == Snackbar(true, CREATED, SnackSuccess) && r.assignments == items.value
               && r.courses == initial.value.0 && r.stats == Some(initial.value.1) && !r.statsLoading)
            && (initial.Succeeded? && items.Failed? ==> r.snackbar.message == LOAD_FAILED)
            && (initial.Failed? ==>
                  r.snackbar.message == LOAD_DATA_FAILED && r.assignments == s.assignments
                  && r.courses == s.courses && r.statsLoading)
            && !r.loading
  {
  }

  class AssignmentListHook {
    var assignments: seq<AssignmentListItem>
    var courses: seq<Course>
    var stats: Option<AssignmentStats>
    var loading: bool
    var statsLoading: bool
    var activeTab: int
    var viewMode: ViewMode
    var assignmentDialogOpen: bool
    var filters: AssignmentFilters
    var searchQuery: string
    var selectedCourse: Option<int>
    var snackbar: Snackbar

    function State(): ListState
      reads this
    {
      ListState(assignments, courses, stats, loading, statsLoading, activeTab, viewMode, assignmentDialogOpen,
                filters, searchQuery, selectedCourse, snackbar)
    }

    /** The `useState` initial values. */
    constructor ()
      ensures State() == INITIAL_STATE
    {
      assignments, courses, stats, loading, statsLoading := [], [], None, true, true;
      activeTab, viewMode, assignmentDialogOpen := 0, GridView, false;
      filters, searchQuery, selectedCourse, snackbar := INITIAL_FILTERS, "", None, CLOSED_SNACKBAR;
    }

    /** `loadAssignments`, also the effect that reloads after a filter or tab change and
        the search submit: returns the filters sent. */
    method LoadAssignments(outcome: Outcome<seq<AssignmentListItem>>) returns (sent: AssignmentFilters)
      modifies this
      ensures sent == CurrentFilters(old(State()))
      ensures State() == LoadAssignmentsNext(old(State()), outcome)
    {
      sent := filters.(search := if searchQuery != "" then Some(searchQuery) else None,
                       courseId := CourseParam(selectedCourse),
                       status := GetStatusFilter(activeTab));
      if outcome.Succeeded? {
        assignments := outcome.value;
      } else {
        snackbar := Snackbar(true, LOAD_FAILED, SnackError);
      }
    }

    /** `loadInitialData`: returns the filters of the assignments request, if it was made. */
    method LoadInitialData(initial: Outcome<(seq<Course>, AssignmentStats)>, items: Outcome<seq<AssignmentListItem>>)
      returns (sent: Option<AssignmentFilters>)
      modifies this
      ensures sent == LoadInitialRequest(old(State()), initial)
      ensures State() == LoadInitialNext(old(State()), initial, items)
    {
      loading := true;
      statsLoading := true;
      if initial.Succeeded? {
        courses := initial.value.0;
        stats := Some(initial.value.1);
        statsLoading := false;
        var f := LoadAssignments(items);
        sent := Some(f);
      } else {
        snackbar := Snackbar(true, LOAD_DATA_FAILED, SnackError);
        sent := None;
      }
      loading := false;
    }

    method TabChange(tab: int)
      modifies this
      ensures State() == TabChangeNext(old(State()), tab)
    {
      activeTab := tab;
    }

    method SearchChange(query: string)
      modifies this
      ensures State() == SearchChangeNext(old(State()), query)
    {
      searchQuery := query;
    }

    method CourseFilter(courseId: Option<int>)
      modifies this
      ensures State() == CourseFilterNext(old(State()), courseId)
    {
      selectedCourse := courseId;
      filters := filters.(courseId := CourseParam(courseId));
    }

    method SortChange(sortBy: string)
      modifies this
      ensures State() == SortChangeNext(old(State()), sortBy)
    {
      filters := filters.(sortBy := Some(sortBy));
    }

    method OrderChange()
      modifies this
      ensures State() == OrderChangeNext(old(State()))
    {
      filters := filters.(order := if filters.order == Some("asc") then Some("desc") else Some("asc"));
    }

    method ViewModeChange(mode: Option<ViewMode>)
      modifies this
      ensures State() == ViewModeChangeNext(old(State()), mode)
    {
      if mode.Some? {
        viewMode := mode.value;
      }
    }

    method CreateAssignment()
      modifies this
      ensures State() == CreateAssignmentNext(old(State()))
    {
      assignmentDialogOpen := true;
    }

    /** `handleAssignmentCreated`: returns the filters of the reload's assignments request. */
    method AssignmentCreated(initial: Outcome<(seq<Course>, AssignmentStats)>, items: Outcome<seq<AssignmentListItem>>)
      returns (sent: Option<AssignmentFilters>)
      modifies this
      ensures State() == AssignmentCreatedNext(old(State()), initial, items)
    {
      snackbar := Snackbar(true, CREATED, SnackSuccess);
      sent := LoadInitialData(initial, items);
    }
  }
}
