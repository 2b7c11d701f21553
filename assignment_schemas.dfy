/** The request and response models of assignments: `AssignmentCreate` and `AssignmentUpdate`
    with their bounds and the due-date validator, and the two response models with their
    derived `is_overdue` and `days_until_due` fields. */
module AssignmentSchemas {
  import opened Common
  import opened Http
  import opened Due
  import Strings
  import Models

  const TITLE_MAX: nat := 200
  const DESCRIPTION_MAX: nat := 2000
  /** The schema's own default for a missing description. */
  const DESCRIPTION_DEFAULT: string := ""
  const DUE_IN_PAST: string := "Due date must be in the future"

  predicate TitleOk(s: string) { 1 <= |s| <= TITLE_MAX }
  predicate DescriptionOk(s: string) { |s| <= DESCRIPTION_MAX }
  predicate PromptOk(s: string) { 1 <= |s| }
  predicate CourseIdOk(i: int) { i > 0 }

  /** A date-time as sent: a wall-clock reading in microseconds and, for an aware value,
      its offset from UTC in microseconds. */
  datatype DateTimeIn = DateTimeIn(wall: int, offset: Option<int>)

  /** The instant a date-time denotes; a naive value is read as UTC. */
  function ToUtc(v: DateTimeIn): (u: int)
    ensures v.offset.None? ==> u == v.wall
    ensures v.offset.Some? ==> u + v.offset.value == v.wall
  {
    v.wall - v.offset.GetOr(0)
  }

  /** `validate_due_date`: an instant before `now` is refused; `now` itself is accepted. */
  function ValidateDueDate(v: DateTimeIn, now: int): (r: Result<int>)
    ensures r.Ok? <==> ToUtc(v) >= now
    ensures r.Ok? ==> r.value == ToUtc(v)
    ensures r.Err? ==> r.error == HttpError(UNPROCESSABLE, DUE_IN_PAST)
  {
    var u := ToUtc(v);
    if u < now then Err(HttpError(UNPROCESSABLE, DUE_IN_PAST)) else Ok(u)
  }

  /** A due date equal to the current instant passes the backend validator. */
  lemma DueNowAccepted(now: int)
    ensures ValidateDueDate(DateTimeIn(now, None), now) == Ok(now)
  {
  }

  /** A create body as sent: a missing or null required field is `None`. */
  datatype AssignmentCreateIn = AssignmentCreateIn(
    title: Option<string>, description: Patch<string>, prompt: Option<string>,
    dueDate: Option<DateTimeIn>, courseId: Option<int>)

  /** A validated `AssignmentCreate`, with the due date as a UTC instant. */
  datatype AssignmentCreate = AssignmentCreate(
    title: string, description: Option<string>, prompt: string, dueDate: int, courseId: nat)

  /** An update body as sent. */
  datatype AssignmentUpdateIn = AssignmentUpdateIn(
    title: Patch<string>, description: Patch<string>, prompt: Patch<string>, dueDate: Patch<DateTimeIn>)

  /** A validated `AssignmentUpdate`, with a present due date as a UTC instant. */
  datatype AssignmentUpdate = AssignmentUpdate(
    title: Patch<string>, description: Patch<string>, prompt: Patch<string>, dueDate: Patch<int>)

  /** Every field of a create body meets its constraint. */
  predicate CreateAcceptable(raw: AssignmentCreateIn, now: int) {
    raw.title.Some? && TitleOk(raw.title.value)
    && (raw.description.Given? ==> DescriptionOk(raw.description.value))
    && raw.prompt.Some? && PromptOk(raw.prompt.value)
    && raw.dueDate.Some? && ToUtc(raw.dueDate.value) >= now
    && raw.courseId.Some? && CourseIdOk(raw.courseId.value)
  }

  /** The names of the failing fields of a create body, in declaration order. */
  function CreateViolations(raw: AssignmentCreateIn, now: int): seq<string> {
    (if raw.title.Some? && TitleOk(raw.title.value) then [] else ["title"])
    + (if raw.description.Given? && !DescriptionOk(raw.description.value) then ["description"] else [])
    + (if raw.prompt.Some? && PromptOk(raw.prompt.value) then [] else ["prompt"])
    + (if raw.dueDate.Some? && ValidateDueDate(raw.dueDate.value, now).Ok? then [] else ["due_date"])
    + (if raw.courseId.Some? && CourseIdOk(raw.courseId.value) then [] else ["course_id"])
  }

  /** Validation of a create body; a missing description defaults to "". */
  function ParseAssignmentCreate(raw: AssignmentCreateIn, now: int): (r: Result<AssignmentCreate>)
    ensures r.Ok? <==> CreateAcceptable(raw, now)
    ensures r.Ok? ==> r.value == AssignmentCreate(
      raw.title.value,
      if raw.description.Absent? then Some(DESCRIPTION_DEFAULT) else raw.description.ApplyTo(None),
      raw.prompt.value, ToUtc(raw.dueDate.value), raw.courseId.value)
    ensures r.Err? ==> r.error.status == UNPROCESSABLE
  {
    var errs := CreateViolations(raw, now);
    if errs != [] then Err(HttpError(UNPROCESSABLE, Strings.Join(errs, ", ")))
    else Ok(AssignmentCreate(
      raw.title.value,
      match raw.description case Absent => Some(DESCRIPTION_DEFAULT) case Null => None case Given(d) => Some(d),
      raw.prompt.value, ToUtc(raw.dueDate.value), raw.courseId.value))
  }

  /** The update validator: only a present, non-null due date is checked. */
  function ValidateDuePatch(p: Patch<DateTimeIn>, now: int): (r: Result<Patch<int>>)
    ensures r.Ok? <==> (p.Given? ==> ToUtc(p.value) >= now)
    ensures r.Ok? ==> (r.value.Absent? <==> p.Absent?) && (r.value.Null? <==> p.Null?)
    ensures r.Ok? && p.Given? ==> r.value == Given(ToUtc(p.value))
  {
    match p
    case Absent => Ok(Absent)
    case Null => Ok(Null)
    case Given(v) => match ValidateDueDate(v, now) case Ok(u) => Ok(Given(u)) case Err(e) => Err(e)
  }

  /** Every present value of an update body meets its constraint. */
  predicate UpdateAcceptable(raw: AssignmentUpdateIn, now: int) {
    (raw.title.Given? ==> TitleOk(raw.title.value))
    && (raw.description.Given? ==> DescriptionOk(raw.description.value))
    && (raw.prompt.Given? ==> PromptOk(raw.prompt.value))
    && (raw.dueDate.Given? ==> ToUtc(raw.dueDate.value) >= now)
  }

  /** Validation of an update body; the patch keeps which fields were sent. */
  function ParseAssignmentUpdate(raw: AssignmentUpdateIn, now: int): (r: Result<AssignmentUpdate>)
    ensures r.Ok? <==> UpdateAcceptable(raw, now)
    ensures r.Ok? ==> r.value.title == raw.title && r.value.description == raw.description
                      && r.value.prompt == raw.prompt
    ensures r.Ok? ==> (r.value.dueDate.Given? <==> raw.dueDate.Given?)
                      && (r.value.dueDate.Null? <==> raw.dueDate.Null?)
                      && (raw.dueDate.Given? ==> r.value.dueDate.value == ToUtc(raw.dueDate.value))
    ensures r.Err? ==> r.error.status == UNPROCESSABLE
  {
    var due := ValidateDuePatch(raw.dueDate, now);
    var errs := (if raw.title.Given? && !TitleOk(raw.title.value) then ["title"] else [])
      + (if raw.description.Given? && !DescriptionOk(raw.description.value) then ["description"] else [])
      + (if raw.prompt.Given? && !PromptOk(raw.prompt.value) then ["prompt"] else [])
      + (if due.Err? then ["due_date"] else []);
    if errs != [] then Err(HttpError(UNPROCESSABLE, Strings.Join(errs, ", ")))
    else Ok(AssignmentUpdate(raw.title, raw.description, raw.prompt, due.value))
  }

  /** An update without a due date is never refused for its due date, whatever `now` is. */
  lemma AbsentDueNeverChecked(raw: AssignmentUpdateIn, now: int, later: int)
    requires !raw.dueDate.Given?
    ensures ParseAssignmentUpdate(raw, now).Ok? == ParseAssignmentUpdate(raw, later).Ok?
  {
  }

  /** `days_until_due`: the whole days until the due instant, or None once it has passed. */
  function DaysUntilDue(due: int, now: int): (r: Option<int>)
    ensures r.None? <==> IsOverdue(due, now)
    ensures r.Some? ==> r.value >= 0 && r.value * DAY_US <= due - now < (r.value + 1) * DAY_US
  {
    var d := FloorDays(due - now);
    if d >= 0 then Some(d) else None
  }

  datatype AssignmentResponse = AssignmentResponse(
    id: nat, title: string, description: string, prompt: string, dueDate: int, courseId: nat,
    createdAt: int, updatedAt: Option<int>, isOverdue: bool, daysUntilDue: Option<int>)

  datatype AssignmentListResponse = AssignmentListResponse(
    id: nat, title: string, dueDate: int, courseId: nat, isOverdue: bool, daysUntilDue: Option<int>)

  /** Serialising a stored assignment as `AssignmentResponse` at instant `now`; a NULL
      title or description fails response validation (500). */
  function ResponseOf(a: Models.Assignment, now: int): (r: Result<AssignmentResponse>)
    ensures r.Ok? <==> a.title.Some? && a.description.Some?
    ensures r.Ok? ==> r.value.id == a.id && r.value.title == a.title.value
                      && r.value.description == a.description.value && r.value.prompt == a.prompt
                      && r.value.dueDate == a.dueDate && r.value.courseId == a.courseId
                      && r.value.createdAt == a.createdAt && r.value.updatedAt == a.updatedAt
    ensures r.Ok? ==> (r.value.isOverdue <==> a.dueDate < now)
    ensures r.Ok? ==> (r.value.daysUntilDue.None? <==> r.value.isOverdue)
    ensures r.Err? ==> r.error.status == SERVER_ERROR
  {
    if a.title.Some? && a.description.Some? then
      Ok(AssignmentResponse(a.id, a.title.value, a.description.value, a.prompt, a.dueDate, a.courseId,
                            a.createdAt, a.updatedAt, IsOverdue(a.dueDate, now), DaysUntilDue(a.dueDate, now)))
    else Err(HttpError(SERVER_ERROR, "Internal Server Error"))
  }

  /** Serialising a stored assignment as `AssignmentListResponse`; only a NULL title fails. */
  function ListResponseOf(a: Models.Assignment, now: int): (r: Result<AssignmentListResponse>)
    ensures r.Ok? <==> a.title.Some?
    ensures r.Ok? ==> r.value.id == a.id && r.value.title == a.title.value
                      && r.value.dueDate == a.dueDate && r.value.courseId == a.courseId
    ensures r.Ok? ==> (r.value.isOverdue <==> a.dueDate < now)
    ensures r.Ok? ==> (r.value.daysUntilDue.None? <==> r.value.isOverdue)
    ensures r.Err? ==> r.error.status == SERVER_ERROR
  {
    if a.title.Some? then
      Ok(AssignmentListResponse(a.id, a.title.value, a.dueDate, a.courseId,
                                IsOverdue(a.dueDate, now), DaysUntilDue(a.dueDate, now)))
    else Err(HttpError(SERVER_ERROR, "Internal Server Error"))
  }

  /** The two response models derive `is_overdue` and `days_until_due` identically. */
  lemma ResponsesAgree(a: Models.Assignment, now: int)
    requires ResponseOf(a, now).Ok?
    ensures ListResponseOf(a, now).Ok?
    ensures ListResponseOf(a, now).value.isOverdue == ResponseOf(a, now).value.isOverdue
    ensures ListResponseOf(a, now).value.daysUntilDue == ResponseOf(a, now).value.daysUntilDue
  {
  }

  /** A response list: one failing row fails the whole response. */
  function ListResponses(rows: seq<Models.Assignment>, now: int): (r: Result<seq<AssignmentListResponse>>)
    ensures r.Ok? <==> forall i :: 0 <= i < |rows| ==> rows[i].title.Some?
    ensures r.Ok? ==> |r.value| == |rows|
                      && forall i :: 0 <= i < |rows| ==> Ok(r.value[i]) == ListResponseOf(rows[i], now)
  {
    if rows == [] then Ok([])
    else
      match ListResponseOf(rows[0], now)
      case Err(e) => Err(e)
      case Ok(first) =>
        match ListResponses(rows[1..], now)
        case Err(e) => Err(e)
        case Ok(rest) => Ok([first] + rest)
  }
}
