/** The `/assignments` endpoints: the statistics, the upcoming and overdue listings, the
    filtered, sorted and paginated listing, the per-course listing and get/create/update/
    delete with their status codes. Request bodies are validated first (422), responses are
    serialised through the response models last. */
module AssignmentsRouter {
  import opened Common
  import opened Http
  import opened Seqs
  import opened Strings
  import opened Models
  import opened Due
  import opened AssignmentSchemas
  import opened AssignmentCrud

  const ASSIGNMENT_NOT_FOUND: string := "Assignment not found"
  const LIST_LIMIT_DEFAULT: int := 50
  const LIST_LIMIT_MAX: int := 100
  /** The placeholder `get_current_user_id`; no endpoint depends on it. */
  const DUMMY_USER_ID: int := 1

  // ---------------------------------------------------------------- statistics

  /** One group of the `by_course` aggregate: a course and the number of its assignments. */
  datatype CourseGroup = CourseGroup(courseId: nat, courseName: Option<string>, count: nat)

  /** One entry of `by_course` as returned. */
  datatype CourseStat = CourseStat(courseName: Option<string>, count: nat)

  datatype Stats = Stats(totalAssignments: nat, overdue: nat, dueSoon: nat, upcoming: nat,
                         byCourse: seq<CourseStat>)

  /** The inner join of courses with `rows`, grouped by course, for the course ids below `n`
      in id order: a course without assignments forms no group. */
  function Groups(courses: map<nat, Course>, rows: seq<Assignment>, n: nat): seq<CourseGroup> {
    if n == 0 then []
    else
      var c := Count(rows, InCourse(n - 1));
      Groups(courses, rows, n - 1)
      + (if n - 1 in courses && c > 0 then [CourseGroup(n - 1, courses[n - 1].name, c)] else [])
  }

  /** A group of a stored course below `n` with at least one assignment. */
  predicate GroupOk(courses: map<nat, Course>, n: nat, g: CourseGroup) {
    g.count >= 1 && g.courseId < n && g.courseId in courses
  }

  /** The groups come one per course, in course-id order, each of a stored course below
      `n` and with at least one assignment. */
  lemma {:induction false} GroupsShape(courses: map<nat, Course>, rows: seq<Assignment>, n: nat)
    ensures forall i :: 0 <= i < |Groups(courses, rows, n)| ==> GroupOk(courses, n, Groups(courses, rows, n)[i])
    ensures forall i, j :: 0 <= i < j < |Groups(courses, rows, n)| ==>
              Groups(courses, rows, n)[i].courseId < Groups(courses, rows, n)[j].courseId
  {
    if n > 0 {
      GroupsShape(courses, rows, n - 1);
      var prev := Groups(courses, rows, n - 1);
      var c := Count(rows, InCourse(n - 1));
      var tail := if n - 1 in courses && c > 0 then [CourseGroup(n - 1, courses[n - 1].name, c)] else [];
      var r := Groups(courses, rows, n);
      assert r == prev + tail;
      forall i | 0 <= i < |r| ensures GroupOk(courses, n, r[i]) {
        if i < |prev| { assert r[i] == prev[i]; } else { assert r[i] == tail[0]; }
      }
      forall i, j | 0 <= i < j < |r| ensures r[i].courseId < r[j].courseId {
        assert r[i] == prev[i];
        if j < |prev| { assert r[j] == prev[j]; } else { assert r[j] == tail[0]; }
      }
    }
  }

  /** The total of the group counts. */
  function SumCounts(gs: seq<CourseGroup>): nat {
    if gs == [] then 0 else SumCounts(gs[..|gs| - 1]) + gs[|gs| - 1].count
  }

  function CourseIdBelow(n: nat): Assignment -> bool {
    (a: Assignment) => a.courseId < n
  }

  /** A group is formed exactly for each course with at least one assignment, with that
      course's name and count. */
  lemma {:induction false} GroupsMembership(courses: map<nat, Course>, rows: seq<Assignment>, n: nat, g: CourseGroup)
    ensures g in Groups(courses, rows, n)
            <==> g.courseId < n && g.courseId in courses && g.courseName == courses[g.courseId].name
                 && g.count == Count(rows, InCourse(g.courseId)) && g.count >= 1
  {
    if n > 0 {
      GroupsMembership(courses, rows, n - 1, g);
    }
  }

  lemma SumCountsSnoc(gs: seq<CourseGroup>, g: CourseGroup)
    ensures SumCounts(gs + [g]) == SumCounts(gs) + g.count
  {
    assert (gs + [g])[..|gs + [g]| - 1] == gs;
  }

  /** The assignments with a course id below `n` are those below `n - 1` and those of course `n - 1`. */
  lemma CountBelowStep(rows: seq<Assignment>, n: nat)
    requires n > 0
    ensures Count(rows, CourseIdBelow(n)) == Count(rows, CourseIdBelow(n - 1)) + Count(rows, InCourse(n - 1))
  {
    var p, q, r := CourseIdBelow(n), CourseIdBelow(n - 1), InCourse(n - 1);
    forall i | 0 <= i < |rows| ensures (p(rows[i]) <==> q(rows[i]) || r(rows[i])) && !(q(rows[i]) && r(rows[i])) {
    }
    CountSplit(rows, p, q, r);
  }

  /** A course that is not stored has no assignment when every assignment's course is stored. */
  lemma CountMissingCourse(courses: map<nat, Course>, rows: seq<Assignment>, cid: nat)
    requires forall i :: 0 <= i < |rows| ==> rows[i].courseId in courses
    requires cid !in courses
    ensures Count(rows, InCourse(cid)) == 0
  {
    forall i | 0 <= i < |rows| ensures !InCourse(cid)(rows[i]) {
      assert rows[i].courseId in courses;
    }
    CountNone(rows, InCourse(cid));
  }

  /** When every assignment's course is stored, the group counts add up to the number of
      assignments with a course id below `n`. */
  lemma {:induction false} GroupsSum(courses: map<nat, Course>, rows: seq<Assignment>, n: nat)
    requires forall i :: 0 <= i < |rows| ==> rows[i].courseId in courses
    ensures SumCounts(Groups(courses, rows, n)) == Count(rows, CourseIdBelow(n))
  {
    if n == 0 {
      CountNone(rows, CourseIdBelow(0));
    } else {
      GroupsSum(courses, rows, n - 1);
      GroupsSumStep(courses, rows, n);
    }
  }

  /** Going from `n - 1` to `n` adds the assignments of course `n - 1` to both sides. */
  lemma GroupsSumStep(courses: map<nat, Course>, rows: seq<Assignment>, n: nat)
    requires forall i :: 0 <= i < |rows| ==> rows[i].courseId in courses
    requires n > 0
    requires SumCounts(Groups(courses, rows, n - 1)) == Count(rows, CourseIdBelow(n - 1))
    ensures SumCounts(Groups(courses, rows, n)) == Count(rows, CourseIdBelow(n))
  {
    var prev := Groups(courses, rows, n - 1);
    var c := Count(rows, InCourse(n - 1));
    CountBelowStep(rows, n);
    if n - 1 in courses && c > 0 {
      SumCountsSnoc(prev, CourseGroup(n - 1, courses[n - 1].name, c));
    } else {
      assert Groups(courses, rows, n) == prev + [] == prev;
      if n - 1 !in courses {
        CountMissingCourse(courses, rows, n - 1);
      }
    }
  }

  /** The groups of the stored courses and assignments. */
  function CourseGroups(db: Db): seq<CourseGroup>
    reads db
  {
    Groups(db.courses, db.AssignmentRows(), db.nextCourseId)
  }

  /** `get_assignment_statistics` at instant `now`, over every assignment of every owner. */
  function GetAssignmentStatistics(db: Db, now: int): Stats
    reads db
  {
    var rows := db.AssignmentRows();
    var gs := CourseGroups(db);
    Stats(|rows|,
          Count(rows, DueBefore(now)),
          Count(rows, DueWithin(now, now + SOON_WINDOW_US)),
          Count(rows, DueAfter(now + SOON_WINDOW_US)),
          seq(|gs|, i requires 0 <= i < |gs| => CourseStat(gs[i].courseName, gs[i].count)))
  }

  /** The three buckets partition all assignments, and a due date at either end of the
      seven-day window counts as due soon. */
  lemma StatsPartition(db: Db, now: int)
    ensures var s := GetAssignmentStatistics(db, now);
            s.overdue + s.dueSoon + s.upcoming == s.totalAssignments
    ensures DueWithin(now, now + SOON_WINDOW_US)(Assignment(0, None, None, "", now, 0, 0, None))
    ensures DueWithin(now, now + SOON_WINDOW_US)(Assignment(0, None, None, "", now + SOON_WINDOW_US, 0, 0, None))
  {
    var rows := db.AssignmentRows();
    CountPartition3(rows, DueBefore(now), DueWithin(now, now + SOON_WINDOW_US), DueAfter(now + SOON_WINDOW_US));
  }

  /** `by_course` has one entry per course with at least one assignment, and its counts add
      up to the total. */
  lemma StatsByCourse(db: Db, now: int)
    requires db.Valid()
    ensures forall g :: g in CourseGroups(db)
                        <==> g.courseId in db.courses && g.courseName == db.courses[g.courseId].name
                             && g.count == Count(db.AssignmentRows(), InCourse(g.courseId)) && g.count >= 1
    ensures SumCounts(CourseGroups(db)) == GetAssignmentStatistics(db, now).totalAssignments
    ensures |GetAssignmentStatistics(db, now).byCourse| == |CourseGroups(db)|
  {
    var rows := db.AssignmentRows();
    forall g ensures g in CourseGroups(db)
                     <==> g.courseId in db.courses && g.courseName == db.courses[g.courseId].name
                          && g.count == Count(rows, InCourse(g.courseId)) && g.count >= 1
    {
      GroupsMembership(db.courses, rows, db.nextCourseId, g);
    }
    forall i | 0 <= i < |rows| ensures rows[i].courseId in db.courses && rows[i].courseId < db.nextCourseId {
      RowsValues(db.assignments, db.nextAssignmentId, rows[i]);
    }
    GroupsSum(db.courses, rows, db.nextCourseId);
    FilterAll(rows, CourseIdBelow(db.nextCourseId));
  }

  // ---------------------------------------------------------------- listings

  /** `GET /assignments/upcoming`: the upcoming query over every course. */
  function ListUpcoming(db: Db, limit: int, now: int): Result<seq<AssignmentListResponse>>
    reads db
  {
    ListResponses(GetUpcomingAssignments(db, None, None, limit, now), now)
  }

  /** `GET /assignments/overdue`: the overdue query over every course. */
  function ListOverdue(db: Db, now: int): Result<seq<AssignmentListResponse>>
    reads db
  {
    ListResponses(GetOverdueAssignments(db, None, None, now), now)
  }

  /** Without a scope, the upcoming and overdue listings consider every stored assignment. */
  lemma UnscopedListings(db: Db, limit: int, now: int)
    requires db.Valid()
    ensures forall a :: a in GetOverdueAssignments(db, None, None, now) <==> a in db.assignments.Values && a.dueDate < now
    ensures limit < 0 ==> forall a :: a in GetUpcomingAssignments(db, None, None, limit, now)
                                     <==> a in db.assignments.Values && a.dueDate > now
  {
    GetOverdueAssignmentsSpec(db, None, None, now);
    GetUpcomingAssignmentsSpec(db, None, None, limit, now);
  }

  /** The query parameters of `GET /assignments/`. */
  datatype ListQuery = ListQuery(status: Option<string>, courseId: Option<int>, search: Option<string>,
                                 sortBy: string, order: string, limit: int, offset: int)

  /** The parameters when none is given. */
  const DEFAULT_LIST_QUERY: ListQuery := ListQuery(None, None, None, "due_date", "asc", LIST_LIMIT_DEFAULT, 0)

  /** The `le=100` and `ge=0` constraints on `limit` and `offset`. */
  function ValidateListQuery(q: ListQuery): (r: Result<ListQuery>)
    ensures r.Ok? <==> q.limit <= LIST_LIMIT_MAX && q.offset >= 0
    ensures r.Ok? ==> r.value == q
    ensures r.Err? ==> r.error.status == UNPROCESSABLE
  {
    var errs := (if q.limit > LIST_LIMIT_MAX then ["limit"] else []) + (if q.offset < 0 then ["offset"] else []);
    if errs != [] then Err(HttpError(UNPROCESSABLE, Join(errs, ", "))) else Ok(q)
  }

  /** `Assignment.title.ilike('%search%')`: a NULL title matches nothing. */
  function TitleMatches(search: string): Assignment -> bool {
    (a: Assignment) => a.title.Some? && ContainsIgnoreCase(a.title.value, search)
  }

  /** The inner join with `courses`. */
  function HasCourse(cs: map<nat, Course>): Assignment -> bool {
    (a: Assignment) => a.courseId in cs
  }

  /** The rows the filters of `list_all_assignments` keep, in primary-key order: the join,
      then the course (when truthy), the title search (when truthy) and the status (when
      truthy and recognised). */
  function ListFiltered(db: Db, q: ListQuery, now: int): seq<Assignment>
    reads db
  {
    var joined := Filter(db.AssignmentRows(), HasCourse(db.courses));
    var byCourse := if TruthyOptInt(q.courseId) then Filter(joined, InCourse(q.courseId.value)) else joined;
    var bySearch := if TruthyOptStr(q.search) then Filter(byCourse, TitleMatches(q.search.value)) else byCourse;
    var f := if TruthyOptStr(q.status) then StatusFilter(q.status.value, now) else None;
    if f.Some? then Filter(bySearch, f.value) else bySearch
  }

  /** NULL-aware title order: NULL before every string, strings lexicographically. */
  predicate TitleLe(a: Option<string>, b: Option<string>) {
    a.None? || (b.Some? && StrLe(a.value, b.value))
  }

  /** The ascending comparison of the selected sort column; an unknown column is `due_date`. */
  function SortKeyLe(sortBy: string): (Assignment, Assignment) -> bool {
    if sortBy == "title" then (a: Assignment, b: Assignment) => TitleLe(a.title, b.title)
    else if sortBy == "created_at" then (a: Assignment, b: Assignment) => a.createdAt <= b.createdAt
    else (a: Assignment, b: Assignment) => a.dueDate <= b.dueDate
  }

  /** The comparison of the ORDER BY: descending only for `order == "desc"`. */
  function OrderLe(sortBy: string, order: string): (Assignment, Assignment) -> bool {
    var le := SortKeyLe(sortBy);
    if order == "desc" then (a: Assignment, b: Assignment) => le(b, a) else le
  }

  /** Every ORDER BY the endpoint can issue is a total preorder. */
  lemma OrderLeTotal(sortBy: string, order: string)
    ensures TotalPreorder(OrderLe(sortBy, order))
  {
    var le := SortKeyLe(sortBy);
    if sortBy == "title" {
      forall x: Assignment, y: Assignment ensures le(x, y) || le(y, x) {
        if x.title.Some? && y.title.Some? { StrLeTotal(x.title.value, y.title.value); }
      }
      forall x: Assignment, y: Assignment, z: Assignment | le(x, y) && le(y, z) ensures le(x, z) {
        if x.title.Some? { StrLeTrans(x.title.value, y.title.value, z.title.value); }
      }
    }
  }

  /** The filtered rows in the requested order. */
  function ListSorted(db: Db, q: ListQuery, now: int): seq<Assignment>
    reads db
  {
    SortBy(ListFiltered(db, q, now), OrderLe(q.sortBy, q.order))
  }

  /** `list_all_assignments`: validation, filters, ORDER BY, then OFFSET/LIMIT, then the
      response model. A negative `limit` puts no bound on the rows. */
  function ListAllAssignments(db: Db, q: ListQuery, now: int): Result<seq<AssignmentListResponse>>
    reads db
  {
    match ValidateListQuery(q)
    case Err(e) => Err(e)
    case Ok(_) => ListResponses(Page(ListSorted(db, q, now), q.offset, q.limit), now)
  }

  /** A stored assignment passes every filter the query supplies. */
  ghost predicate Selected(db: Db, q: ListQuery, now: int, a: Assignment)
    reads db
  {
    a in db.assignments.Values
    && (TruthyOptInt(q.courseId) ==> a.courseId == q.courseId.value)
    && (TruthyOptStr(q.search) ==> a.title.Some? && ContainsIgnoreCase(a.title.value, q.search.value))
    && (q.status == Some("overdue") ==> IsOverdue(a.dueDate, now))
    && (q.status == Some("due_soon") ==> IsDueSoon(a.dueDate, now))
    && (q.status == Some("upcoming") ==> IsUpcoming(a.dueDate, now))
  }

  /** A row survives the filters exactly when it joins a course and passes each filter the
      query supplies. */
  lemma ListFilteredMember(db: Db, q: ListQuery, now: int, a: Assignment)
    ensures var f := if TruthyOptStr(q.status) then StatusFilter(q.status.value, now) else None;
            a in ListFiltered(db, q, now)
            <==> a in db.AssignmentRows() && a.courseId in db.courses
                 && (TruthyOptInt(q.courseId) ==> a.courseId == q.courseId.value)
                 && (TruthyOptStr(q.search) ==> TitleMatches(q.search.value)(a))
                 && (f.Some? ==> f.value(a))
  {
    var rows := db.AssignmentRows();
    var joined := Filter(rows, HasCourse(db.courses));
    var byCourse := if TruthyOptInt(q.courseId) then Filter(joined, InCourse(q.courseId.value)) else joined;
    var bySearch := if TruthyOptStr(q.search) then Filter(byCourse, TitleMatches(q.search.value)) else byCourse;
    var f := if TruthyOptStr(q.status) then StatusFilter(q.status.value, now) else None;
    FilterMembership(rows, HasCourse(db.courses), a);
    if TruthyOptInt(q.courseId) { FilterMembership(joined, InCourse(q.courseId.value), a); }
    if TruthyOptStr(q.search) { FilterMembership(byCourse, TitleMatches(q.search.value), a); }
    if f.Some? { FilterMembership(bySearch, f.value, a); }
  }

  /** The sorted rows are exactly the selected assignments, in the requested order. */
  lemma ListSortedSpec(db: Db, q: ListQuery, now: int)
    requires db.Valid()
    ensures forall a :: a in ListSorted(db, q, now) <==> Selected(db, q, now, a)
    ensures forall a :: multiset(ListSorted(db, q, now))[a] == if Selected(db, q, now, a) then 1 else 0
    ensures SortedBy(ListSorted(db, q, now), OrderLe(q.sortBy, q.order))
  {
    var sel := ListFiltered(db, q, now);
    forall a ensures a in ListSorted(db, q, now) <==> Selected(db, q, now, a) {
      SelectedMember(db, q, now, a);
      SortByMembership(sel, OrderLe(q.sortBy, q.order), a);
    }
    forall a ensures multiset(ListSorted(db, q, now))[a] == if Selected(db, q, now, a) then 1 else 0 {
      SelectedMember(db, q, now, a);
      ListFilteredOnce(db, q, now, a);
    }
    OrderLeTotal(q.sortBy, q.order);
    SortBySorted(sel, OrderLe(q.sortBy, q.order));
  }

  /** No filter stage repeats a row, so each stored assignment passes at most once. */
  lemma ListFilteredOnce(db: Db, q: ListQuery, now: int, a: Assignment)
    requires db.Valid()
    ensures multiset(ListFiltered(db, q, now))[a] <= 1
  {
    var rows := db.AssignmentRows();
    var joined := Filter(rows, HasCourse(db.courses));
    var byCourse := if TruthyOptInt(q.courseId) then Filter(joined, InCourse(q.courseId.value)) else joined;
    var bySearch := if TruthyOptStr(q.search) then Filter(byCourse, TitleMatches(q.search.value)) else byCourse;
    var f := if TruthyOptStr(q.status) then StatusFilter(q.status.value, now) else None;
    ValidInjective(db);
    RowsOnce(db.assignments, db.nextAssignmentId, a);
    FilterMultiset(rows, HasCourse(db.courses), a);
    if TruthyOptInt(q.courseId) { FilterMultiset(joined, InCourse(q.courseId.value), a); }
    if TruthyOptStr(q.search) { FilterMultiset(byCourse, TitleMatches(q.search.value), a); }
    if f.Some? { FilterMultiset(bySearch, f.value, a); }
  }

  /** In a valid store the filters keep exactly the selected assignments: every stored
      assignment joins its course. */
  lemma SelectedMember(db: Db, q: ListQuery, now: int, a: Assignment)
    requires db.Valid()
    ensures a in ListFiltered(db, q, now) <==> Selected(db, q, now, a)
  {
    RowsValues(db.assignments, db.nextAssignmentId, a);
    ListFilteredMember(db, q, now, a);
    StatusSelected(q, now, a);
    if a in db.assignments.Values {
      var k :| k in db.assignments && db.assignments[k] == a;
    }
  }

  /** The status stage keeps an assignment exactly when it lies in the bucket the status
      names; an empty or unknown status keeps every assignment. */
  lemma StatusSelected(q: ListQuery, now: int, a: Assignment)
    ensures var f := if TruthyOptStr(q.status) then StatusFilter(q.status.value, now) else None;
            (f.Some? ==> f.value(a))
            <==> (q.status == Some("overdue") ==> IsOverdue(a.dueDate, now))
                 && (q.status == Some("due_soon") ==> IsDueSoon(a.dueDate, now))
                 && (q.status == Some("upcoming") ==> IsUpcoming(a.dueDate, now))
  {
    if TruthyOptStr(q.status) { StatusFilterBuckets(q.status.value, now, a); }
  }

  /** A limit above 100 or a negative offset is refused with 422. */
  lemma ListAllAssignmentsRefused(db: Db, q: ListQuery, now: int)
    requires q.limit > LIST_LIMIT_MAX || q.offset < 0
    ensures ListAllAssignments(db, q, now).Err?
    ensures ListAllAssignments(db, q, now).error.status == UNPROCESSABLE
  {
  }

  /** Otherwise the response is the page `sorted[offset .. offset + limit]` of the
      selected assignments: every row on it passes every supplied filter, the page keeps
      the requested order and holds at most `limit` rows. */
  lemma ListAllAssignmentsSpec(db: Db, q: ListQuery, now: int)
    requires db.Valid() && q.limit <= LIST_LIMIT_MAX && q.offset >= 0
    ensures ListAllAssignments(db, q, now) == ListResponses(Page(ListSorted(db, q, now), q.offset, q.limit), now)
    ensures var page := Page(ListSorted(db, q, now), q.offset, q.limit);
            (forall i :: 0 <= i < |page| ==> Selected(db, q, now, page[i]))
            && (q.limit >= 0 ==> |page| <= q.limit)
            && SortedBy(page, OrderLe(q.sortBy, q.order))
  {
    var sorted := ListSorted(db, q, now);
    var page := Page(sorted, q.offset, q.limit);
    OrderLeTotal(q.sortBy, q.order);
    SortBySorted(ListFiltered(db, q, now), OrderLe(q.sortBy, q.order));
    PageSorted(sorted, q.offset, q.limit, OrderLe(q.sortBy, q.order));
    forall i | 0 <= i < |page| ensures Selected(db, q, now, page[i]) {
      assert page[i] == sorted[q.offset + i];
      SelectedMember(db, q, now, page[i]);
      SortByMembership(ListFiltered(db, q, now), OrderLe(q.sortBy, q.order), page[i]);
    }
  }

  /** An unrecognised status selects like no status; an unrecognised column sorts like
      `due_date`; any order other than "desc" sorts like "asc". */
  lemma ListFallbacks(db: Db, q: ListQuery, now: int)
    ensures q.status.Some? && q.status.value !in {"overdue", "due_soon", "upcoming"}
            ==> ListFiltered(db, q, now) == ListFiltered(db, q.(status := None), now)
    ensures q.sortBy !in {"title", "created_at"} ==> OrderLe(q.sortBy, q.order) == OrderLe("due_date", q.order)
    ensures q.order != "desc" ==> OrderLe(q.sortBy, q.order) == OrderLe(q.sortBy, "asc")
  {
  }

  /** `GET /assignments/courses/{course_id}/assignments`; the course is not looked up. */
  function ListAssignmentsForCourse(db: Db, courseId: int, now: int): Result<seq<AssignmentListResponse>>
    reads db
  {
    ListResponses(GetAssignmentsByCourse(db, courseId), now)
  }

  /** An unknown course yields an empty list, not 404. */
  lemma UnknownCourseListsNothing(db: Db, courseId: int, now: int)
    requires db.Valid() && courseId !in db.courses
    ensures ListAssignmentsForCourse(db, courseId, now) == Ok([])
  {
    GetAssignmentsByCourseSpec(db, courseId);
  }

  // ---------------------------------------------------------------- single assignment

  /** `GET /assignments/{assignment_id}`. */
  function GetAssignment(db: Db, id: int, now: int): Result<AssignmentResponse>
    reads db
  {
    match GetAssignmentById(db, id)
    case None => Err(HttpError(NOT_FOUND, ASSIGNMENT_NOT_FOUND))
    case Some(a) => ResponseOf(a, now)
  }

  /** An unknown id gives 404; a stored one is serialised. */
  lemma GetAssignmentSpec(db: Db, id: int, now: int)
    requires db.Valid()
    ensures id !in db.assignments ==> GetAssignment(db, id, now) == Err(HttpError(NOT_FOUND, ASSIGNMENT_NOT_FOUND))
    ensures id in db.assignments ==> GetAssignment(db, id, now) == ResponseOf(db.assignments[id], now)
  {
    GetAssignmentByIdSpec(db, id);
  }

  /** `POST /assignments/`: 422 for a body that fails validation, the crud's 404 for an
      unknown course, otherwise 201 with the stored assignment. */
  method CreateNewAssignment(db: Db, body: AssignmentCreateIn, now: int) returns (r: Result<Reply<AssignmentResponse>>)
    requires db.Valid()
    modifies db
    ensures db.Valid()
    ensures r.Err? && r.error.status == UNPROCESSABLE <==> !CreateAcceptable(body, now)
    ensures r.Ok? <==> CreateAcceptable(body, now) && body.courseId.value in old(db.courses)
    ensures r.Err? && r.error.status != UNPROCESSABLE ==> r.error == HttpError(NOT_FOUND, AssignmentCrud.COURSE_NOT_FOUND)
    ensures r.Err? ==> db.assignments == old(db.assignments)
    ensures r.Ok? ==> r.value.Body? && r.value.code == CREATED
                      && r.value.body.id == old(db.nextAssignmentId) && r.value.body.title == body.title.value
                      && r.value.body.dueDate == ToUtc(body.dueDate.value)
                      && !r.value.body.isOverdue
                      && db.assignments.Keys == old(db.assignments.Keys) + {r.value.body.id}
    ensures db.courses == old(db.courses) && db.users == old(db.users)
  {
    var parsed := ParseAssignmentCreate(body, now);
    if parsed.Err? {
      return Err(parsed.error);
    }
    var created := CreateAssignment(db, parsed.value, now);
    if created.Err? {
      return Err(created.error);
    }
    var resp := ResponseOf(created.value, now);
    r := Ok(Body(CREATED, resp.value));
  }

  /** `PUT /assignments/{assignment_id}`: 422 for a body that fails validation, 404 for an
      unknown id, the crud's 400 for a null prompt or due date, otherwise the updated row. */
  method UpdateExistingAssignment(db: Db, id: int, body: AssignmentUpdateIn, now: int) returns (r: Result<AssignmentResponse>)
    requires db.Valid()
    modifies db
    ensures db.Valid()
    ensures r.Err? && r.error.status == UNPROCESSABLE <==> !UpdateAcceptable(body, now)
    ensures UpdateAcceptable(body, now) && id !in old(db.assignments) ==> r == Err(HttpError(NOT_FOUND, ASSIGNMENT_NOT_FOUND))
    ensures UpdateAcceptable(body, now) && id in old(db.assignments) && (body.prompt.Null? || body.dueDate.Null?)
            ==> r == Err(HttpError(BAD_REQUEST, AssignmentCrud.UPDATE_FAILED))
    ensures UpdateAcceptable(body, now) && id in old(db.assignments) && !body.prompt.Null? && !body.dueDate.Null?
            ==> id in db.assignments && r == ResponseOf(db.assignments[id], now)
                && db.assignments == old(db.assignments)[id := db.assignments[id]]
    ensures r.Err? && r.error.status != SERVER_ERROR ==> db.assignments == old(db.assignments)
    ensures r.Ok? ==> id in old(db.assignments)
    ensures db.courses == old(db.courses) && db.users == old(db.users)
  {
    var parsed := ParseAssignmentUpdate(body, now);
    if parsed.Err? {
      return Err(parsed.error);
    }
    var updated := UpdateAssignment(db, id, parsed.value, now);
    if updated.Err? {
      return Err(updated.error);
    }
    if updated.value.None? {
      return Err(HttpError(NOT_FOUND, ASSIGNMENT_NOT_FOUND));
    }
    // A response that fails validation comes after the commit: the row stays updated.
    r := ResponseOf(updated.value.value, now);
  }

  /** `DELETE /assignments/{assignment_id}`: 404 for an unknown id, the crud's 400 when the
      commit fails, otherwise 204 with no body. */
  method DeleteExistingAssignment(db: Db, id: int, commitFails: bool) returns (r: Result<Reply<()>>)
    requires db.Valid()
    modifies db
    ensures db.Valid()
    ensures r == (if id !in old(db.assignments) then Err(HttpError(NOT_FOUND, ASSIGNMENT_NOT_FOUND))
                  else if commitFails then Err(HttpError(BAD_REQUEST, AssignmentCrud.DELETE_FAILED))
                  else Ok(NoContent))
    ensures r.Err? ==> db.assignments == old(db.assignments)
    ensures r.Ok? ==> db.assignments == old(db.assignments) - {id}
    ensures db.courses == old(db.courses) && db.users == old(db.users)
  {
    var deleted := DeleteAssignment(db, id, commitFails);
    if deleted.Err? {
      return Err(deleted.error);
    }
    if !deleted.value {
      return Err(HttpError(NOT_FOUND, ASSIGNMENT_NOT_FOUND));
    }
    r := Ok(NoContent);
  }
}
