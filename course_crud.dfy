/** The course data-access functions: listing (optionally by owner, newest first), lookup
    by id, and create/update/delete against the session. */
module CourseCrud {
  import opened Common
  import opened Http
  import opened Seqs
  import opened Models
  import opened CourseSchemas

  const CREATE_FAILED: string := "Failed to create course"
  const DELETE_FAILED: string := "Cannot delete course with existing assignments"

  /** `order_by(Course.created_at.desc())`. */
  predicate CreatedAtDesc(a: Course, b: Course) {
    a.createdAt >= b.createdAt
  }

  /** `Course.user_id == uid`. */
  function OwnedBy(uid: int): Course -> bool {
    (c: Course) => c.userId == uid
  }

  /** `Course.id == id`. */
  function HasId(id: int): Course -> bool {
    (c: Course) => c.id == id
  }

  /** The rows `get_courses` selects before ordering: the owner's courses when `userId` is
      truthy, all courses otherwise. */
  function CoursesInScope(db: Db, userId: Option<int>): seq<Course>
    reads db
  {
    if TruthyOptInt(userId) then Filter(db.CourseRows(), OwnedBy(userId.value)) else db.CourseRows()
  }

  /** `get_courses`. */
  function GetCourses(db: Db, userId: Option<int>): seq<Course>
    reads db
  {
    SortBy(CoursesInScope(db, userId), CreatedAtDesc)
  }

  /** `get_courses` returns exactly the stored courses of the owner (all of them when the
      owner is None or 0), each once, newest first. */
  lemma GetCoursesSpec(db: Db, userId: Option<int>)
    requires db.Valid()
    ensures forall c :: c in GetCourses(db, userId)
                        <==> c in db.courses.Values && (TruthyOptInt(userId) ==> c.userId == userId.value)
    ensures forall c :: multiset(GetCourses(db, userId))[c]
                        == if c in db.courses.Values && (TruthyOptInt(userId) ==> c.userId == userId.value) then 1 else 0
    ensures SortedBy(GetCourses(db, userId), CreatedAtDesc)
    ensures !TruthyOptInt(userId) ==> |GetCourses(db, userId)| == |db.CourseRows()|
  {
    var rows := db.CourseRows();
    var scope := CoursesInScope(db, userId);
    forall c
      ensures c in GetCourses(db, userId)
              <==> c in db.courses.Values && (TruthyOptInt(userId) ==> c.userId == userId.value)
    {
      RowsValues(db.courses, db.nextCourseId, c);
      if TruthyOptInt(userId) {
        FilterMembership(rows, OwnedBy(userId.value), c);
      }
      SortByMembership(scope, CreatedAtDesc, c);
    }
    ValidInjective(db);
    forall c ensures multiset(GetCourses(db, userId))[c]
                     == if c in db.courses.Values && (TruthyOptInt(userId) ==> c.userId == userId.value) then 1 else 0
    {
      RowsOnce(db.courses, db.nextCourseId, c);
      if TruthyOptInt(userId) {
        FilterMultiset(rows, OwnedBy(userId.value), c);
      }
    }
    SortBySorted(scope, CreatedAtDesc);
  }

  /** `get_course_by_id`: the first row with that id. */
  function GetCourseById(db: Db, id: int): Option<Course>
    reads db
  {
    Find(db.CourseRows(), HasId(id))
  }

  /** The lookup finds the stored course with that id, or None. */
  lemma GetCourseByIdSpec(db: Db, id: int)
    requires db.Valid()
    ensures GetCourseById(db, id) == if id in db.courses then Some(db.courses[id]) else None
  {
    var rows := db.CourseRows();
    var r := Find(rows, HasId(id));
    if id in db.courses {
      RowsMembership(db.courses, db.nextCourseId, db.courses[id]);
      var k :| 0 <= k < |rows| && rows[k] == db.courses[id];
      assert HasId(id)(rows[k]);
      assert r.Some?;
      RowsMembership(db.courses, db.nextCourseId, r.value);
    } else if r.Some? {
      RowsMembership(db.courses, db.nextCourseId, r.value);
    }
  }

  /** The owner is a stored user: the NOT NULL foreign key `Course.user_id` holds. */
  predicate OwnerExists(db: Db, userId: Option<int>)
    reads db
  {
    userId.Some? && userId.value in db.users
  }

  /** The course `create_course` inserts: a missing description is stored as "". */
  function NewCourse(id: nat, course: CourseCreate, owner: nat, now: int): Course {
    Course(id, Some(course.name), Some(course.term), Some(OrStr(course.description, "")), owner, now, None)
  }

  /** `create_course`. An owner that is None or unknown violates the foreign key: the
      insert is rolled back and 400 is raised. */
  method CreateCourse(db: Db, course: CourseCreate, userId: Option<int>, now: int) returns (r: Result<Course>)
    requires db.Valid()
    modifies db
    ensures db.Valid()
    ensures r.Ok? <==> old(OwnerExists(db, userId))
    ensures r.Err? ==> r.error == HttpError(BAD_REQUEST, CREATE_FAILED)
    ensures r.Err? ==> db.courses == old(db.courses) && db.nextCourseId == old(db.nextCourseId)
    ensures r.Ok? ==> r.value == NewCourse(old(db.nextCourseId), course, userId.value, now)
    ensures r.Ok? ==> db.courses == old(db.courses)[r.value.id := r.value]
                      && db.nextCourseId == old(db.nextCourseId) + 1
    ensures r.Ok? && (course.description.None? || course.description == Some("")) ==> r.value.description == Some("")
    ensures db.users == old(db.users) && db.assignments == old(db.assignments)
    ensures db.drafts == old(db.drafts) && db.feedback == old(db.feedback)
    ensures db.nextUserId == old(db.nextUserId) && db.nextAssignmentId == old(db.nextAssignmentId)
    ensures db.nextDraftId == old(db.nextDraftId) && db.nextFeedbackId == old(db.nextFeedbackId)
  {
    if !(userId.Some? && userId.value in db.users) {
      return Err(HttpError(BAD_REQUEST, CREATE_FAILED));
    }
    var c := NewCourse(db.nextCourseId, course, userId.value, now);
    db.PutCourse(c);
    r := Ok(c);
  }

  /** One entry of `course_update.model_dump(exclude_unset=True)`. */
  datatype CourseItem = NameItem(name: Option<string>) | TermItem(term: Option<string>)
                      | DescriptionItem(description: Option<string>)

  /** The entries a patch dumps: the fields that were sent, null included, in declaration order. */
  function UpdateItems(p: CourseUpdate): seq<CourseItem> {
    (if p.name.Absent? then [] else [NameItem(p.name.ApplyTo(None))])
    + (if p.term.Absent? then [] else [TermItem(p.term.ApplyTo(None))])
    + (if p.description.Absent? then [] else [DescriptionItem(p.description.ApplyTo(None))])
  }

  /** `setattr(db_course, field, value)`. */
  function SetAttr(c: Course, item: CourseItem): Course {
    match item
    case NameItem(v) => c.(name := v)
    case TermItem(v) => c.(term := v)
    case DescriptionItem(v) => c.(description := v)
  }

  /** The row after applying `items` one after the other. */
  function ApplyItems(c: Course, items: seq<CourseItem>): Course {
    FoldLeft(SetAttr, c, items)
  }

  /** Applying a patch changes exactly the fields that were sent, to the value sent (null
      included), and nothing else: id, owner and timestamps are kept. */
  lemma ApplyPatch(c: Course, p: CourseUpdate)
    ensures ApplyItems(c, UpdateItems(p))
            == c.(name := p.name.ApplyTo(c.name), term := p.term.ApplyTo(c.term),
                  description := p.description.ApplyTo(c.description))
  {
    var a := if p.name.Absent? then [] else [NameItem(p.name.ApplyTo(None))];
    var b := if p.term.Absent? then [] else [TermItem(p.term.ApplyTo(None))];
    var d := if p.description.Absent? then [] else [DescriptionItem(p.description.ApplyTo(None))];
    assert UpdateItems(p) == a + b + d;
    FoldLeftConcat(SetAttr, c, a + b, d);
    FoldLeftConcat(SetAttr, c, a, b);
  }

  /** The `setattr` loop over the dumped entries, on the loaded row. */
  method ApplyUpdate(original: Course, items: seq<CourseItem>) returns (row: Course)
    ensures row == ApplyItems(original, items)
    ensures row.id == original.id && row.userId == original.userId
  {
    row := original;
    var i := 0;
    while i < |items|
      invariant 0 <= i <= |items|
      invariant row == ApplyItems(original, items[..i])
      invariant row.id == original.id && row.userId == original.userId
    {
      FoldLeftSnoc(SetAttr, original, items[..i], items[i]);
      assert items[..i + 1] == items[..i] + [items[i]];
      row := SetAttr(row, items[i]);
      i := i + 1;
    }
    assert items[..i] == items;
  }

  /** `onupdate=func.now()`: the UPDATE that changes a column also stamps `updated_at`; a
      patch that changes nothing issues no UPDATE. */
  function Touch(before: Course, after: Course, now: int): Course {
    if after != before then after.(updatedAt := Some(now)) else before
  }

  /** `update_course`. None for an unknown id; otherwise the setattr loop over the sent
      fields. No constraint of the mapping can fail on these columns, so the 400 branch
      does not arise. */
  method UpdateCourse(db: Db, id: int, patch: CourseUpdate, now: int) returns (r: Option<Course>)
    requires db.Valid()
    modifies db
    ensures db.Valid()
    ensures r.None? <==> id !in old(db.courses)
    ensures r.None? ==> db.courses == old(db.courses)
    ensures r.Some? ==> r.value == Touch(old(db.courses)[id], ApplyItems(old(db.courses)[id], UpdateItems(patch)), now)
    ensures r.Some? ==> db.courses == old(db.courses)[id := r.value]
    ensures db.users == old(db.users) && db.assignments == old(db.assignments)
    ensures db.drafts == old(db.drafts) && db.feedback == old(db.feedback)
    ensures db.nextUserId == old(db.nextUserId) && db.nextCourseId == old(db.nextCourseId)
    ensures db.nextAssignmentId == old(db.nextAssignmentId)
    ensures db.nextDraftId == old(db.nextDraftId) && db.nextFeedbackId == old(db.nextFeedbackId)
  {
    var found := GetCourseById(db, id);
    GetCourseByIdSpec(db, id);
    if found.None? {
      return None;
    }
    var original := found.value;
    var row := ApplyUpdate(original, UpdateItems(patch));
    row := Touch(original, row, now);
    db.PutCourse(row);
    r := Some(row);
  }

  /** `delete_course`. False for an unknown id; otherwise the course goes with its
      assignments, their drafts and those drafts' feedback. `commitFails` stands for an
      integrity error raised by the engine at commit: rolled back, 400. */
  method DeleteCourse(db: Db, id: int, commitFails: bool) returns (r: Result<bool>)
    requires db.Valid()
    modifies db
    ensures db.Valid()
    ensures r == (if id !in old(db.courses) then Ok(false)
                  else if commitFails then Err(HttpError(BAD_REQUEST, DELETE_FAILED))
                  else Ok(true))
    ensures r != Ok(true) ==> db.courses == old(db.courses) && db.assignments == old(db.assignments)
                              && db.drafts == old(db.drafts) && db.feedback == old(db.feedback)
    ensures r == Ok(true) ==>
      db.courses == old(db.courses) - {id}
      && db.assignments == old(db.assignments) - AssignmentsOfCourses(old(db.assignments), {id})
      && db.drafts == old(db.drafts) - DraftsOfAssignments(old(db.drafts), AssignmentsOfCourses(old(db.assignments), {id}))
      && db.feedback == old(db.feedback) - FeedbackOfDrafts(old(db.feedback),
           DraftsOfAssignments(old(db.drafts), AssignmentsOfCourses(old(db.assignments), {id})))
    ensures db.users == old(db.users)
    ensures db.nextUserId == old(db.nextUserId) && db.nextCourseId == old(db.nextCourseId)
    ensures db.nextAssignmentId == old(db.nextAssignmentId)
    ensures db.nextDraftId == old(db.nextDraftId) && db.nextFeedbackId == old(db.nextFeedbackId)
  {
    var found := GetCourseById(db, id);
    GetCourseByIdSpec(db, id);
    if found.None? {
      return Ok(false);
    }
    if commitFails {
      return Err(HttpError(BAD_REQUEST, DELETE_FAILED));
    }
    db.DeleteCourses({id});
    r := Ok(true);
  }
}
