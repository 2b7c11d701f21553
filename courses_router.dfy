/** The `/courses` endpoints. Every course is listed whoever asks, and a new course is
    always created without an owner. */
module CoursesRouter {
  import opened Common
  import opened Http
  import opened Seqs
  import opened Models
  import opened CourseSchemas
  import opened CourseCrud

  const COURSE_NOT_FOUND: string := "Course not found"
  /** The placeholder `get_current_user_id`; its value is never passed on. */
  const DUMMY_USER_ID: int := 1

  /** A response list of courses: one failing row fails the whole response. */
  function CourseResponses(rows: seq<Course>): (r: Result<seq<CourseResponse>>)
    ensures r.Ok? <==> forall i :: 0 <= i < |rows| ==> CourseResponseOf(rows[i]).Ok?
    ensures r.Ok? ==> |r.value| == |rows|
                      && forall i :: 0 <= i < |rows| ==> Ok(r.value[i]) == CourseResponseOf(rows[i])
  {
    if rows == [] then Ok([])
    else
      match CourseResponseOf(rows[0])
      case Err(e) => Err(e)
      case Ok(first) =>
        match CourseResponses(rows[1..])
        case Err(e) => Err(e)
        case Ok(rest) => Ok([first] + rest)
  }

  /** `GET /courses/`: `get_courses` without an owner. */
  function ListCourses(db: Db): Result<seq<CourseResponse>>
    reads db
  {
    CourseResponses(GetCourses(db, None))
  }

  /** The listing holds every stored course, whoever owns it, newest first. */
  lemma ListCoursesSpec(db: Db)
    requires db.Valid()
    ensures ListCourses(db).Ok? ==>
      |ListCourses(db).value| == |GetCourses(db, None)|
      && forall i :: 0 <= i < |GetCourses(db, None)| ==> Ok(ListCourses(db).value[i]) == CourseResponseOf(GetCourses(db, None)[i])
    ensures forall c :: c in GetCourses(db, None) <==> c in db.courses.Values
    ensures SortedBy(GetCourses(db, None), CreatedAtDesc)
  {
    GetCoursesSpec(db, None);
  }

  /** `POST /courses/`: 422 for a body that fails validation; otherwise `create_course` is
      called with owner None, the NOT NULL owner column refuses the row and the answer is
      400. No course is ever stored. */
  method CreateNewCourse(db: Db, body: CourseCreateIn, now: int) returns (r: Result<Reply<CourseResponse>>)
    requires db.Valid()
    modifies db
    ensures db.Valid()
    ensures r.Err?
    ensures ParseCourseCreate(body).Err? ==> r.error.status == UNPROCESSABLE
    ensures ParseCourseCreate(body).Ok? ==> r.error == HttpError(BAD_REQUEST, CREATE_FAILED)
    ensures db.courses == old(db.courses) && db.nextCourseId == old(db.nextCourseId)
    ensures db.users == old(db.users) && db.assignments == old(db.assignments)
  {
    var parsed := ParseCourseCreate(body);
    if parsed.Err? {
      return Err(parsed.error);
    }
    var created := CreateCourse(db, parsed.value, None, now);
    if created.Err? {
      return Err(created.error);
    }
    assert false;
    r := Err(HttpError(SERVER_ERROR, ""));
  }

  /** `GET /courses/{course_id}`. */
  function GetCourse(db: Db, id: int): Result<CourseResponse>
    reads db
  {
    match GetCourseById(db, id)
    case None => Err(HttpError(NOT_FOUND, COURSE_NOT_FOUND))
    case Some(c) => CourseResponseOf(c)
  }

  /** An unknown id gives 404; a stored course is serialised. */
  lemma GetCourseSpec(db: Db, id: int)
    requires db.Valid()
    ensures id !in db.courses ==> GetCourse(db, id) == Err(HttpError(NOT_FOUND, COURSE_NOT_FOUND))
    ensures id in db.courses ==> GetCourse(db, id) == CourseResponseOf(db.courses[id])
  {
    GetCourseByIdSpec(db, id);
  }

  /** `PUT /courses/{course_id}`: 422 for a body that fails validation, 404 for an unknown
      id, otherwise the updated course. */
  method UpdateExistingCourse(db: Db, id: int, body: CourseUpdate, now: int) returns (r: Result<CourseResponse>)
    requires db.Valid()
    modifies db
    ensures db.Valid()
    ensures ParseCourseUpdate(body).Err? ==> r.Err? && r.error.status == UNPROCESSABLE && db.courses == old(db.courses)
    ensures ParseCourseUpdate(body).Ok? && id !in old(db.courses)
            ==> r == Err(HttpError(NOT_FOUND, COURSE_NOT_FOUND)) && db.courses == old(db.courses)
    ensures ParseCourseUpdate(body).Ok? && id in old(db.courses) ==>
      var row := Touch(old(db.courses)[id], ApplyItems(old(db.courses)[id], UpdateItems(body)), now);
      db.courses == old(db.courses)[id := row] && r == CourseResponseOf(row)
    ensures db.users == old(db.users) && db.assignments == old(db.assignments)
  {
    var parsed := ParseCourseUpdate(body);
    if parsed.Err? {
      return Err(parsed.error);
    }
    var updated := UpdateCourse(db, id, parsed.value, now);
    if updated.None? {
      return Err(HttpError(NOT_FOUND, COURSE_NOT_FOUND));
    }
    // A response that fails validation comes after the commit: the row stays updated.
    r := CourseResponseOf(updated.value);
  }

  /** `DELETE /courses/{course_id}`: 404 for an unknown id, 400 when the commit fails,
      otherwise 204 with no body and the course gone with its assignments. */
  method DeleteExistingCourse(db: Db, id: int, commitFails: bool) returns (r: Result<Reply<()>>)
    requires db.Valid()
    modifies db
    ensures db.Valid()
    ensures r == (if id !in old(db.courses) then Err(HttpError(NOT_FOUND, COURSE_NOT_FOUND))
                  else if commitFails then Err(HttpError(BAD_REQUEST, DELETE_FAILED))
                  else Ok(NoContent))
    ensures r.Err? ==> db.courses == old(db.courses) && db.assignments == old(db.assignments)
    ensures r.Ok? ==> db.courses == old(db.courses) - {id}
                      && db.assignments == old(db.assignments) - AssignmentsOfCourses(old(db.assignments), {id})
    ensures db.users == old(db.users)
  {
    var deleted := DeleteCourse(db, id, commitFails);
    if deleted.Err? {
      return Err(deleted.error);
    }
    if !deleted.value {
      return Err(HttpError(NOT_FOUND, COURSE_NOT_FOUND));
    }
    r := Ok(NoContent);
  }
}
