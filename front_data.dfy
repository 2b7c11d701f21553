/** The data the frontend works on: the `Course` and `Assignment` interfaces of
    `courseService.ts`, the outcome of an awaited API call, the snackbar every page keeps,
    and the millisecond clock of `Date.getTime()` with the day arithmetic the pages share. */
module FrontData {
  import opened Common
  import opened Seqs

  /** `1000 * 60 * 60 * 24`. */
  const DAY_MS: int := 1000 * 60 * 60 * 24

  /** `Math.ceil((due.getTime() - now.getTime()) / DAY_MS)`: the day difference rounded up. */
  function DiffDays(dueMs: int, nowMs: int): (d: int)
    ensures (d - 1) * DAY_MS < dueMs - nowMs <= d * DAY_MS
  {
    -((nowMs - dueMs) / DAY_MS)
  }

  /** The rounded-up difference is at most `k` exactly when the instant is at most `k` whole
      days ahead; every threshold test on it is a test on the instant. */
  lemma DiffDaysAtMost(dueMs: int, nowMs: int, k: int)
    ensures DiffDays(dueMs, nowMs) <= k <==> dueMs - nowMs <= k * DAY_MS
  {
    var d := DiffDays(dueMs, nowMs);
    if d <= k {
      assert d * DAY_MS <= k * DAY_MS;
    } else {
      assert (d - 1) * DAY_MS >= k * DAY_MS;
    }
  }

  /** Exactly the instants of one day-long interval share a day difference. */
  lemma DiffDaysExactly(dueMs: int, nowMs: int, k: int)
    ensures DiffDays(dueMs, nowMs) == k <==> (k - 1) * DAY_MS < dueMs - nowMs <= k * DAY_MS
  {
    DiffDaysAtMost(dueMs, nowMs, k);
    DiffDaysAtMost(dueMs, nowMs, k - 1);
  }

  /** `Course` of `courseService.ts`; instants are milliseconds. */
  datatype Course = Course(id: int, name: string, term: string, description: Option<string>,
                           userId: Option<int>, createdAt: int, updatedAt: Option<int>)

  /** `Assignment` of `courseService.ts`. */
  datatype Assignment = Assignment(id: int, title: string, description: Option<string>, prompt: string,
                                   dueDate: int, courseId: int, createdAt: int, updatedAt: Option<int>)

  /** An awaited API call: the value it resolved to, or the message of the error it threw. */
  datatype Outcome<T> = Succeeded(value: T) | Failed(message: string)

  /** `error.message || fallback`. */
  function ErrorMessage(message: string, fallback: string): (r: string)
    ensures message != "" ==> r == message
    ensures message == "" ==> r == fallback
  {
    if message != "" then message else fallback
  }

  datatype SnackbarSeverity = SnackSuccess | SnackError

  /** The `{ open, message, severity }` notification state of the hooks and pages. */
  datatype Snackbar = Snackbar(open: bool, message: string, severity: SnackbarSeverity)

  const CLOSED_SNACKBAR: Snackbar := Snackbar(false, "", SnackSuccess)

  /** `AssignmentStats` as it arrives from `/assignments/stats`, without `by_course`; a
      field the response lacks is None. */
  datatype AssignmentStats = AssignmentStats(totalAssignments: Option<int>, overdue: Option<int>,
                                             dueSoon: Option<int>, upcoming: Option<int>)

  /** The palette colours of the MUI theme the helpers read. */
  datatype Theme = Theme(errorMain: string, warningMain: string, infoMain: string, successMain: string,
                         textSecondary: string, grey500: string)

  /** `c => c.id === id`. */
  function HasCourseId(id: int): Course -> bool {
    (c: Course) => c.id == id
  }

  /** `courses.find(c => c.id === id)`: the first course with that id. */
  function FindCourse(courses: seq<Course>, id: int): (r: Option<Course>)
    ensures r.None? <==> forall i :: 0 <= i < |courses| ==> courses[i].id != id
    ensures r.Some? ==> r.value in courses && r.value.id == id
    ensures r.Some? ==> exists k :: 0 <= k < |courses| && courses[k] == r.value
                                  && forall j :: 0 <= j < k ==> courses[j].id != id
  {
    Find(courses, HasCourseId(id))
  }
}
