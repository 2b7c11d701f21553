/** The assignment data-access functions: per-course and per-owner listings ordered by due
    date, the upcoming/overdue/status queries with their user-over-course precedence, the
    per-owner counts, and create/update/delete against the session. */
module AssignmentCrud {
  import opened Common
  import opened Http
  import opened Seqs
  import opened Models
  import opened Due
  import opened AssignmentSchemas
  import CourseCrud

  const COURSE_NOT_FOUND: string := "Course not found"
  const UPDATE_FAILED: string := "Failed to update assignment"
  const DELETE_FAILED: string := "Cannot delete assignment with existing drafts"
  const UPCOMING_DEFAULT_LIMIT: int := 10

  /** `order_by(Assignment.due_date.asc())`. */
  predicate DueAsc(a: Assignment, b: Assignment) {
    a.dueDate <= b.dueDate
  }

  /** `order_by(Assignment.due_date.desc())`. */
  predicate DueDesc(a: Assignment, b: Assignment) {
    a.dueDate >= b.dueDate
  }

  /** `Assignment.id == id`. */
  function HasId(id: int): Assignment -> bool {
    (a: Assignment) => a.id == id
  }

  /** `Assignment.course_id == cid`. */
  function InCourse(cid: int): Assignment -> bool {
    (a: Assignment) => a.courseId == cid
  }

  /** `join(Course).filter(Course.user_id == uid)` over the courses `cs`: the inner join
      drops an assignment whose course is missing. */
  function OwnedVia(cs: map<nat, Course>, uid: int): Assignment -> bool {
    (a: Assignment) => a.courseId in cs && cs[a.courseId].userId == uid
  }

  function DueBefore(t: int): Assignment -> bool {
    (a: Assignment) => a.dueDate < t
  }

  function DueAfter(t: int): Assignment -> bool {
    (a: Assignment) => a.dueDate > t
  }

  /** Both ends of the window included. */
  function DueWithin(lo: int, hi: int): Assignment -> bool {
    (a: Assignment) => lo <= a.dueDate <= hi
  }

  /** The due-date filter a status string selects; any other string selects none. */
  function StatusFilter(status: string, now: int): Option<Assignment -> bool> {
    if status == "overdue" then Some(DueBefore(now))
    else if status == "due_soon" then Some(DueWithin(now, now + SOON_WINDOW_US))
    else if status == "upcoming" then Some(DueAfter(now + SOON_WINDOW_US))
    else None
  }

  /** A recognised status filter is exactly its due bucket. */
  lemma StatusFilterBuckets(status: string, now: int, a: Assignment)
    ensures status == "overdue" ==> StatusFilter(status, now).value(a) == IsOverdue(a.dueDate, now)
    ensures status == "due_soon" ==> StatusFilter(status, now).value(a) == IsDueSoon(a.dueDate, now)
    ensures status == "upcoming" ==> StatusFilter(status, now).value(a) == IsUpcoming(a.dueDate, now)
    ensures StatusFilter(status, now).None? <==> status !in {"overdue", "due_soon", "upcoming"}
  {
  }

  /** The stored rows are exactly the stored assignments, each listed once. */
  lemma RowsAreAssignments(db: Db)
    requires db.Valid()
    ensures forall a :: a in db.AssignmentRows() <==> a in db.assignments.Values
    ensures forall a :: multiset(db.AssignmentRows())[a] == if a in db.assignments.Values then 1 else 0
  {
    ValidInjective(db);
    forall a ensures a in db.AssignmentRows() <==> a in db.assignments.Values {
      RowsValues(db.assignments, db.nextAssignmentId, a);
    }
    forall a ensures multiset(db.AssignmentRows())[a] == if a in db.assignments.Values then 1 else 0 {
      RowsOnce(db.assignments, db.nextAssignmentId, a);
    }
  }

  /** Filtering the stored rows and sorting them: exactly the stored assignments that pass,
      each once, ordered by `le`. */
  lemma SelectSpec(db: Db, p: Assignment -> bool, le: (Assignment, Assignment) -> bool)
    requires db.Valid() && TotalPreorder(le)
    ensures forall a :: a in SortBy(Filter(db.AssignmentRows(), p), le) <==> a in db.assignments.Values && p(a)
    ensures forall a :: multiset(SortBy(Filter(db.AssignmentRows(), p), le))[a]
                        == if a in db.assignments.Values && p(a) then 1 else 0
    ensures SortedBy(SortBy(Filter(db.AssignmentRows(), p), le), le)
  {
    var rows := db.AssignmentRows();
    RowsAreAssignments(db);
    forall a ensures a in SortBy(Filter(rows, p), le) <==> a in db.assignments.Values && p(a) {
      FilterMembership(rows, p, a);
      SortByMembership(Filter(rows, p), le, a);
    }
    forall a ensures multiset(SortBy(Filter(rows, p), le))[a] == if a in db.assignments.Values && p(a) then 1 else 0 {
      FilterMultiset(rows, p, a);
    }
    SortBySorted(Filter(rows, p), le);
  }

  /** `get_assignments_by_course`. */
  function GetAssignmentsByCourse(db: Db, cid: int): seq<Assignment>
    reads db
  {
    SortBy(Filter(db.AssignmentRows(), InCourse(cid)), DueAsc)
  }

  /** Exactly the course's assignments, each once, earliest due first. */
  lemma GetAssignmentsByCourseSpec(db: Db, cid: int)
    requires db.Valid()
    ensures forall a :: a in GetAssignmentsByCourse(db, cid) <==> a in db.assignments.Values && a.courseId == cid
    ensures forall a :: multiset(GetAssignmentsByCourse(db, cid))[a]
                        == if a in db.assignments.Values && a.courseId == cid then 1 else 0
    ensures SortedBy(GetAssignmentsByCourse(db, cid), DueAsc)
  {
    SelectSpec(db, InCourse(cid), DueAsc);
  }

  /** `get_assignment_by_id`: the first row with that id. */
  function GetAssignmentById(db: Db, id: int): Option<Assignment>
    reads db
  {
    Find(db.AssignmentRows(), HasId(id))
  }

  lemma GetAssignmentByIdSpec(db: Db, id: int)
    requires db.Valid()
    ensures GetAssignmentById(db, id) == if id in db.assignments then Some(db.assignments[id]) else None
  {
    var rows := db.AssignmentRows();
    var r := Find(rows, HasId(id));
    if id in db.assignments {
      RowsMembership(db.assignments, db.nextAssignmentId, db.assignments[id]);
      var k :| 0 <= k < |rows| && rows[k] == db.assignments[id];
      assert HasId(id)(rows[k]);
      assert r.Some?;
      RowsMembership(db.assignments, db.nextAssignmentId, r.value);
    } else if r.Some? {
      RowsMembership(db.assignments, db.nextAssignmentId, r.value);
    }
  }

  /** `get_assignments_by_user`. */
  function GetAssignmentsByUser(db: Db, uid: int): seq<Assignment>
    reads db
  {
    SortBy(Filter(db.AssignmentRows(), OwnedVia(db.courses, uid)), DueAsc)
  }

  /** Exactly the assignments of the courses the user owns, each once, earliest due first. */
  lemma GetAssignmentsByUserSpec(db: Db, uid: int)
    requires db.Valid()
    ensures forall a :: a in GetAssignmentsByUser(db, uid)
                        <==> a in db.assignments.Values && db.courses[a.courseId].userId == uid
    ensures forall a :: multiset(GetAssignmentsByUser(db, uid))[a]
                        == if a in db.assignments.Values && db.courses[a.courseId].userId == uid then 1 else 0
    ensures SortedBy(GetAssignmentsByUser(db, uid), DueAsc)
  {
    SelectSpec(db, OwnedVia(db.courses, uid), DueAsc);
  }

  /** The scope of the upcoming and overdue queries: the user's courses when `userId` is
      truthy, else the course when `courseId` is truthy, else everything. */
  function Scope(db: Db, userId: Option<int>, courseId: Option<int>): Assignment -> bool
    reads db
  {
    if TruthyOptInt(userId) then OwnedVia(db.courses, userId.value)
    else if TruthyOptInt(courseId) then InCourse(courseId.value)
    else (a: Assignment) => true
  }

  /** The rows `get_upcoming_assignments` selects and orders, before the limit. */
  function UpcomingCandidates(db: Db, userId: Option<int>, courseId: Option<int>, now: int): seq<Assignment>
    reads db
  {
    SortBy(Filter(Filter(db.AssignmentRows(), DueAfter(now)), Scope(db, userId, courseId)), DueAsc)
  }

  /** `get_upcoming_assignments`; a negative limit puts no bound on the rows. */
  function GetUpcomingAssignments(db: Db, userId: Option<int>, courseId: Option<int>, limit: int, now: int)
    : seq<Assignment>
    reads db
  {
    Page(UpcomingCandidates(db, userId, courseId, now), 0, limit)
  }

  /** A stored assignment is a candidate of the upcoming query. */
  ghost predicate UpcomingMatch(db: Db, userId: Option<int>, courseId: Option<int>, now: int, a: Assignment)
    reads db
  {
    a in db.assignments.Values && a.dueDate > now
    && (if TruthyOptInt(userId) then a.courseId in db.courses && db.courses[a.courseId].userId == userId.value
        else TruthyOptInt(courseId) ==> a.courseId == courseId.value)
  }

  /** The candidates are exactly the stored assignments due after `now` and in scope,
      each once, earliest due first. */
  lemma UpcomingCandidatesSpec(db: Db, userId: Option<int>, courseId: Option<int>, now: int)
    requires db.Valid()
    ensures forall a :: a in UpcomingCandidates(db, userId, courseId, now) <==> UpcomingMatch(db, userId, courseId, now, a)
    ensures forall a :: multiset(UpcomingCandidates(db, userId, courseId, now))[a]
                        == if UpcomingMatch(db, userId, courseId, now, a) then 1 else 0
    ensures SortedBy(UpcomingCandidates(db, userId, courseId, now), DueAsc)
  {
    var rows := db.AssignmentRows();
    var scope := Scope(db, userId, courseId);
    var due := Filter(rows, DueAfter(now));
    var scoped := Filter(due, scope);
    var cands := SortBy(scoped, DueAsc);
    RowsAreAssignments(db);
    forall a ensures a in cands <==> a in db.assignments.Values && a.dueDate > now && scope(a) {
      FilterMembership(rows, DueAfter(now), a);
      FilterMembership(due, scope, a);
      SortByMembership(scoped, DueAsc, a);
    }
    forall a ensures scope(a) <==> (if TruthyOptInt(userId) then a.courseId in db.courses && db.courses[a.courseId].userId == userId.value
                                    else TruthyOptInt(courseId) ==> a.courseId == courseId.value) {
    }
    forall a ensures multiset(cands)[a] == if UpcomingMatch(db, userId, courseId, now, a) then 1 else 0 {
      FilterMultiset(rows, DueAfter(now), a);
      FilterMultiset(due, scope, a);
    }
    SortBySorted(scoped, DueAsc);
  }

  /** Every returned assignment is due after `now` and in scope (the user taking precedence
      over the course), the rows are earliest due first, and any candidate left out is due
      no earlier than every one returned; without a limit every candidate is returned. */
  lemma GetUpcomingAssignmentsSpec(db: Db, userId: Option<int>, courseId: Option<int>, limit: int, now: int)
    requires db.Valid()
    ensures forall a :: a in GetUpcomingAssignments(db, userId, courseId, limit, now)
                        ==> UpcomingMatch(db, userId, courseId, now, a)
    ensures SortedBy(GetUpcomingAssignments(db, userId, courseId, limit, now), DueAsc)
    ensures forall a :: UpcomingMatch(db, userId, courseId, now, a)
                        && a !in GetUpcomingAssignments(db, userId, courseId, limit, now)
                        ==> forall x :: x in GetUpcomingAssignments(db, userId, courseId, limit, now)
                                        ==> x.dueDate <= a.dueDate
    ensures limit < 0 ==> forall a :: UpcomingMatch(db, userId, courseId, now, a)
                                      ==> a in GetUpcomingAssignments(db, userId, courseId, limit, now)
  {
    var cands := UpcomingCandidates(db, userId, courseId, now);
    UpcomingCandidatesSpec(db, userId, courseId, now);
    FirstPage(cands, limit, DueAsc);
  }

  /** `.limit(limit)`: the result is the first `limit` candidates, or all of them when there
      are fewer or the limit is negative, and so lists every assignment at most once. */
  lemma GetUpcomingAssignmentsPrefix(db: Db, userId: Option<int>, courseId: Option<int>, limit: int, now: int)
    requires db.Valid()
    ensures GetUpcomingAssignments(db, userId, courseId, limit, now) <= UpcomingCandidates(db, userId, courseId, now)
    ensures var n := |UpcomingCandidates(db, userId, courseId, now)|;
            |GetUpcomingAssignments(db, userId, courseId, limit, now)| == if 0 <= limit < n then limit else n
    ensures forall a :: multiset(GetUpcomingAssignments(db, userId, courseId, limit, now))[a] <= 1
  {
    var cands := UpcomingCandidates(db, userId, courseId, now);
    UpcomingCandidatesSpec(db, userId, courseId, now);
    FirstPage(cands, limit, DueAsc);
  }

  /** A truthy user id makes the course id irrelevant. */
  lemma UpcomingUserPrecedence(db: Db, uid: int, courseId: Option<int>, limit: int, now: int)
    requires uid != 0
    ensures GetUpcomingAssignments(db, Some(uid), courseId, limit, now)
            == GetUpcomingAssignments(db, Some(uid), None, limit, now)
  {
  }

  /** `get_overdue_assignments`. */
  function GetOverdueAssignments(db: Db, userId: Option<int>, courseId: Option<int>, now: int): seq<Assignment>
    reads db
  {
    SortBy(Filter(Filter(db.AssignmentRows(), DueBefore(now)), Scope(db, userId, courseId)), DueDesc)
  }

  /** Every returned assignment is past due and in scope, every such assignment is
      returned once, and the most recently due come first. */
  lemma GetOverdueAssignmentsSpec(db: Db, userId: Option<int>, courseId: Option<int>, now: int)
    requires db.Valid()
    ensures forall a :: a in GetOverdueAssignments(db, userId, courseId, now)
                        <==> a in db.assignments.Values && a.dueDate < now && Scope(db, userId, courseId)(a)
    ensures forall a :: multiset(GetOverdueAssignments(db, userId, courseId, now))[a]
                        == if a in db.assignments.Values && a.dueDate < now && Scope(db, userId, courseId)(a) then 1 else 0
    ensures SortedBy(GetOverdueAssignments(db, userId, courseId, now), DueDesc)
  {
    var rows := db.AssignmentRows();
    var scope := Scope(db, userId, courseId);
    RowsAreAssignments(db);
    forall a ensures a in GetOverdueAssignments(db, userId, courseId, now)
                     <==> a in db.assignments.Values && a.dueDate < now && scope(a) {
      FilterMembership(rows, DueBefore(now), a);
      FilterMembership(Filter(rows, DueBefore(now)), scope, a);
      SortByMembership(Filter(Filter(rows, DueBefore(now)), scope), DueDesc, a);
    }
    forall a ensures multiset(GetOverdueAssignments(db, userId, courseId, now))[a]
                     == if a in db.assignments.Values && a.dueDate < now && scope(a) then 1 else 0 {
      FilterMultiset(rows, DueBefore(now), a);
      FilterMultiset(Filter(rows, DueBefore(now)), scope, a);
    }
    SortBySorted(Filter(Filter(rows, DueBefore(now)), scope), DueDesc);
  }

  /** `get_assignments_with_status`: the user's assignments, narrowed by a recognised status. */
  function GetAssignmentsWithStatus(db: Db, uid: int, status: string, now: int): seq<Assignment>
    reads db
  {
    var owned := Filter(db.AssignmentRows(), OwnedVia(db.courses, uid));
    var f := StatusFilter(status, now);
    SortBy(if f.Some? then Filter(owned, f.value) else owned, DueAsc)
  }

  /** With a recognised status the result is exactly the user's assignments in that bucket;
      with any other status it is all of the user's assignments; each is listed once. */
  lemma GetAssignmentsWithStatusSpec(db: Db, uid: int, status: string, now: int)
    requires db.Valid()
    ensures forall a :: a in GetAssignmentsWithStatus(db, uid, status, now)
                        <==> a in db.assignments.Values && db.courses[a.courseId].userId == uid
                             && (status == "overdue" ==> IsOverdue(a.dueDate, now))
                             && (status == "due_soon" ==> IsDueSoon(a.dueDate, now))
                             && (status == "upcoming" ==> IsUpcoming(a.dueDate, now))
    ensures forall a :: multiset(GetAssignmentsWithStatus(db, uid, status, now))[a] <= 1
    ensures SortedBy(GetAssignmentsWithStatus(db, uid, status, now), DueAsc)
  {
    var rows := db.AssignmentRows();
    var owned := Filter(rows, OwnedVia(db.courses, uid));
    var f := StatusFilter(status, now);
    var sel := if f.Some? then Filter(owned, f.value) else owned;
    RowsAreAssignments(db);
    forall a ensures a in GetAssignmentsWithStatus(db, uid, status, now)
                     <==> a in db.assignments.Values && db.courses[a.courseId].userId == uid
                          && (status == "overdue" ==> IsOverdue(a.dueDate, now))
                          && (status == "due_soon" ==> IsDueSoon(a.dueDate, now))
                          && (status == "upcoming" ==> IsUpcoming(a.dueDate, now))
    {
      FilterMembership(rows, OwnedVia(db.courses, uid), a);
      if f.Some? {
        FilterMembership(owned, f.value, a);
      }
      StatusFilterBuckets(status, now, a);
      SortByMembership(sel, DueAsc, a);
    }
    forall a ensures multiset(GetAssignmentsWithStatus(db, uid, status, now))[a] <= 1 {
      FilterMultiset(rows, OwnedVia(db.courses, uid), a);
      if f.Some? {
        FilterMultiset(owned, f.value, a);
      }
    }
    SortBySorted(sel, DueAsc);
  }

  datatype AssignmentCounts = AssignmentCounts(total: nat, overdue: nat, dueSoon: nat, upcoming: nat)

  /** `get_assignment_count_by_user`. */
  function GetAssignmentCountByUser(db: Db, uid: int, now: int): AssignmentCounts
    reads db
  {
    var owned := Filter(db.AssignmentRows(), OwnedVia(db.courses, uid));
    AssignmentCounts(
      |owned|,
      Count(owned, DueBefore(now)),
      Count(owned, DueWithin(now, now + SOON_WINDOW_US)),
      Count(owned, DueAfter(now + SOON_WINDOW_US)))
  }

  /** The three buckets partition the user's assignments, so their counts add up to the total. */
  lemma {:induction false} CountsPartitionTotal(db: Db, uid: int, now: int)
    ensures var c := GetAssignmentCountByUser(db, uid, now);
            c.overdue + c.dueSoon + c.upcoming == c.total
  {
    var owned := Filter(db.AssignmentRows(), OwnedVia(db.courses, uid));
    CountPartition3(owned, DueBefore(now), DueWithin(now, now + SOON_WINDOW_US), DueAfter(now + SOON_WINDOW_US));
  }

  /** The stored assignment `create_assignment` inserts: a missing description becomes "". */
  function NewAssignment(id: nat, input: AssignmentCreate, now: int): Assignment {
    Assignment(id, Some(input.title), Some(OrStr(input.description, "")), input.prompt, input.dueDate,
               input.courseId, now, None)
  }

  /** `create_assignment`. An unknown course raises 404 and writes nothing. With the course
      present and the prompt and due date given, no constraint can fail, so the 400 branch
      does not arise. */
  method CreateAssignment(db: Db, input: AssignmentCreate, now: int) returns (r: Result<Assignment>)
    requires db.Valid()
    modifies db
    ensures db.Valid()
    ensures r.Ok? <==> input.courseId in old(db.courses)
    ensures r.Err? ==> r.error == HttpError(NOT_FOUND, COURSE_NOT_FOUND)
    ensures r.Err? ==> db.assignments == old(db.assignments) && db.nextAssignmentId == old(db.nextAssignmentId)
    ensures r.Ok? ==> r.value == NewAssignment(old(db.nextAssignmentId), input, now)
    ensures r.Ok? ==> db.assignments == old(db.assignments)[r.value.id := r.value]
                      && db.nextAssignmentId == old(db.nextAssignmentId) + 1
    ensures r.Ok? && (input.description.None? || input.description == Some("")) ==> r.value.description == Some("")
    ensures db.users == old(db.users) && db.courses == old(db.courses)
    ensures db.drafts == old(db.drafts) && db.feedback == old(db.feedback)
    ensures db.nextUserId == old(db.nextUserId) && db.nextCourseId == old(db.nextCourseId)
    ensures db.nextDraftId == old(db.nextDraftId) && db.nextFeedbackId == old(db.nextFeedbackId)
  {
    var course := CourseCrud.GetCourseById(db, input.courseId);
    CourseCrud.GetCourseByIdSpec(db, input.courseId);
    if course.None? {
      return Err(HttpError(NOT_FOUND, COURSE_NOT_FOUND));
    }
    var a := NewAssignment(db.nextAssignmentId, input, now);
    db.PutAssignment(a);
    r := Ok(a);
  }

  /** The columns an update may set, as held by the loaded object: `setattr` can put NULL
      into `prompt` and `due_date`, which only the commit refuses. */
  datatype Editable = Editable(title: Option<string>, description: Option<string>,
                               prompt: Option<string>, dueDate: Option<int>)

  function EditableOf(a: Assignment): Editable {
    Editable(a.title, a.description, Some(a.prompt), Some(a.dueDate))
  }

  /** One entry of `assignment_update.model_dump(exclude_unset=True)`. */
  datatype AssignmentItem = TitleItem(title: Option<string>) | DescriptionItem(description: Option<string>)
                          | PromptItem(prompt: Option<string>) | DueDateItem(dueDate: Option<int>)

  /** The entries a patch dumps: the fields that were sent, null included, in declaration order. */
  function UpdateItems(p: AssignmentUpdate): seq<AssignmentItem> {
    (if p.title.Absent? then [] else [TitleItem(p.title.ApplyTo(None))])
    + (if p.description.Absent? then [] else [DescriptionItem(p.description.ApplyTo(None))])
    + (if p.prompt.Absent? then [] else [PromptItem(p.prompt.ApplyTo(None))])
    + (if p.dueDate.Absent? then [] else [DueDateItem(p.dueDate.ApplyTo(None))])
  }

  /** `setattr(db_assignment, field, value)`. */
  function SetAttr(e: Editable, item: AssignmentItem): Editable {
    match item
    case TitleItem(v) => e.(title := v)
    case DescriptionItem(v) => e.(description := v)
    case PromptItem(v) => e.(prompt := v)
    case DueDateItem(v) => e.(dueDate := v)
  }

  /** Applying a patch changes exactly the fields that were sent, to the value sent. */
  lemma ApplyPatch(e: Editable, p: AssignmentUpdate)
    ensures FoldLeft(SetAttr, e, UpdateItems(p))
            == Editable(p.title.ApplyTo(e.title), p.description.ApplyTo(e.description),
                        p.prompt.ApplyTo(e.prompt), p.dueDate.ApplyTo(e.dueDate))
  {
    var a := if p.title.Absent? then [] else [TitleItem(p.title.ApplyTo(None))];
    var b := if p.description.Absent? then [] else [DescriptionItem(p.description.ApplyTo(None))];
    var c := if p.prompt.Absent? then [] else [PromptItem(p.prompt.ApplyTo(None))];
    var d := if p.dueDate.Absent? then [] else [DueDateItem(p.dueDate.ApplyTo(None))];
    assert UpdateItems(p) == a + b + c + d;
    FoldLeftConcat(SetAttr, e, a + b + c, d);
    FoldLeftConcat(SetAttr, e, a + b, c);
    FoldLeftConcat(SetAttr, e, a, b);
  }

  /** The `setattr` loop over the dumped entries, on the loaded object. */
  method ApplyUpdate(original: Editable, items: seq<AssignmentItem>) returns (e: Editable)
    ensures e == FoldLeft(SetAttr, original, items)
  {
    e := original;
    var i := 0;
    while i < |items|
      invariant 0 <= i <= |items|
      invariant e == FoldLeft(SetAttr, original, items[..i])
    {
      FoldLeftSnoc(SetAttr, original, items[..i], items[i]);
      assert items[..i + 1] == items[..i] + [items[i]];
      e := SetAttr(e, items[i]);
      i := i + 1;
    }
    assert items[..i] == items;
  }

  /** The stored row after a successful update at `now`: `updated_at` is stamped when a
      column changed. */
  function Updated(a: Assignment, e: Editable, now: int): Assignment
    requires e.prompt.Some? && e.dueDate.Some?
  {
    var after := a.(title := e.title, description := e.description, prompt := e.prompt.value, dueDate := e.dueDate.value);
    if after != a then after.(updatedAt := Some(now)) else a
  }

  /** `update_assignment`. None for an unknown id; an explicit null for `prompt` or
      `due_date` violates NOT NULL at commit: rolled back, 400. */
  method UpdateAssignment(db: Db, id: int, patch: AssignmentUpdate, now: int) returns (r: Result<Option<Assignment>>)
    requires db.Valid()
    modifies db
    ensures db.Valid()
    ensures r == Ok(None) <==> id !in old(db.assignments)
    ensures r.Err? <==> id in old(db.assignments) && (patch.prompt.Null? || patch.dueDate.Null?)
    ensures r.Err? ==> r.error == HttpError(BAD_REQUEST, UPDATE_FAILED)
    ensures !(r.Ok? && r.value.Some?) ==> db.assignments == old(db.assignments)
    ensures r.Ok? && r.value.Some? ==>
      var before := old(db.assignments)[id];
      var e := FoldLeft(SetAttr, EditableOf(before), UpdateItems(patch));
      e.prompt.Some? && e.dueDate.Some? && r.value.value == Updated(before, e, now)
      && db.assignments == old(db.assignments)[id := r.value.value]
    ensures db.users == old(db.users) && db.courses == old(db.courses)
    ensures db.drafts == old(db.drafts) && db.feedback == old(db.feedback)
    ensures db.nextUserId == old(db.nextUserId) && db.nextCourseId == old(db.nextCourseId)
    ensures db.nextAssignmentId == old(db.nextAssignmentId)
    ensures db.nextDraftId == old(db.nextDraftId) && db.nextFeedbackId == old(db.nextFeedbackId)
  {
    var found := GetAssignmentById(db, id);
    GetAssignmentByIdSpec(db, id);
    if found.None? {
      return Ok(None);
    }
    var before := found.value;
    var e := ApplyUpdate(EditableOf(before), UpdateItems(patch));
    ApplyPatch(EditableOf(before), patch);
    if e.prompt.None? || e.dueDate.None? {
      return Err(HttpError(BAD_REQUEST, UPDATE_FAILED));
    }
    var row := Updated(before, e, now);
    db.PutAssignment(row);
    r := Ok(Some(row));
  }

  /** An update that sends fields changes those fields and no others. */
  lemma UpdateChangesOnlySentFields(a: Assignment, patch: AssignmentUpdate, now: int)
    requires !patch.prompt.Null? && !patch.dueDate.Null?
    ensures var e := FoldLeft(SetAttr, EditableOf(a), UpdateItems(patch));
            e.prompt.Some? && e.dueDate.Some?
            && var u := Updated(a, e, now);
            u.id == a.id && u.courseId == a.courseId && u.createdAt == a.createdAt
            && (patch.title.Absent? ==> u.title == a.title)
            && (patch.description.Absent? ==> u.description == a.description)
            && (patch.prompt.Absent? ==> u.prompt == a.prompt)
            && (patch.dueDate.Absent? ==> u.dueDate == a.dueDate)
            && (patch.title.Given? ==> u.title == Some(patch.title.value))
            && (patch.prompt.Given? ==> u.prompt == patch.prompt.value)
            && (patch.dueDate.Given? ==> u.dueDate == patch.dueDate.value)
            && (patch == AssignmentUpdate(Absent, Absent, Absent, Absent) ==> u == a)
  {
    ApplyPatch(EditableOf(a), patch);
  }

  /** `delete_assignment`. False for an unknown id; otherwise the assignment goes with its
      drafts and their feedback. `commitFails` stands for an integrity error raised by the
      engine at commit: rolled back, 400. */
  method DeleteAssignment(db: Db, id: int, commitFails: bool) returns (r: Result<bool>)
    requires db.Valid()
    modifies db
    ensures db.Valid()
    ensures r == (if id !in old(db.assignments) then Ok(false)
                  else if commitFails then Err(HttpError(BAD_REQUEST, DELETE_FAILED))
                  else Ok(true))
    ensures r != Ok(true) ==> db.assignments == old(db.assignments)
                              && db.drafts == old(db.drafts) && db.feedback == old(db.feedback)
    ensures r == Ok(true) ==>
      db.assignments == old(db.assignments) - {id}
      && db.drafts == old(db.drafts) - DraftsOfAssignments(old(db.drafts), {id})
      && db.feedback == old(db.feedback) - FeedbackOfDrafts(old(db.feedback), DraftsOfAssignments(old(db.drafts), {id}))
    ensures db.users == old(db.users) && db.courses == old(db.courses)
    ensures db.nextUserId == old(db.nextUserId) && db.nextCourseId == old(db.nextCourseId)
    ensures db.nextAssignmentId == old(db.nextAssignmentId)
    ensures db.nextDraftId == old(db.nextDraftId) && db.nextFeedbackId == old(db.nextFeedbackId)
  {
    var found := GetAssignmentById(db, id);
    GetAssignmentByIdSpec(db, id);
    if found.None? {
      return Ok(false);
    }
    if commitFails {
      return Err(HttpError(BAD_REQUEST, DELETE_FAILED));
    }
    db.DeleteAssignments({id});
    r := Ok(true);
  }
}
