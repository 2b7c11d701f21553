/** The request and response models of courses: `CourseCreate`, `CourseUpdate` and
    `CourseResponse`, with their field bounds. Validation failures are 422 responses whose
    detail lists the offending fields. */
module CourseSchemas {
  import opened Common
  import opened Http
  import Strings
  import Models

  const NAME_MAX: nat := 200
  const TERM_MAX: nat := 50
  const DESCRIPTION_MAX: nat := 1000
  /** The schema's own default for a missing description. */
  const DESCRIPTION_DEFAULT: string := ""

  predicate NameOk(s: string) { 1 <= |s| <= NAME_MAX }
  predicate TermOk(s: string) { 1 <= |s| <= TERM_MAX }
  predicate DescriptionOk(s: string) { |s| <= DESCRIPTION_MAX }

  /** A create body as sent: a missing or null required field is `None`. */
  datatype CourseCreateIn = CourseCreateIn(name: Option<string>, term: Option<string>, description: Patch<string>)

  /** A validated `CourseCreate`; `description` may be an explicit null. */
  datatype CourseCreate = CourseCreate(name: string, term: string, description: Option<string>)

  /** An update body: every field optional, each present value with the create bounds. */
  datatype CourseUpdate = CourseUpdate(name: Patch<string>, term: Patch<string>, description: Patch<string>)

  /** The response model: no owner field. */
  datatype CourseResponse = CourseResponse(
    id: nat, name: string, term: string, description: string, createdAt: int, updatedAt: Option<int>)

  /** The names of the fields of a create body that fail their constraints, in declaration order. */
  function CreateViolations(raw: CourseCreateIn): seq<string> {
    (if raw.name.Some? && NameOk(raw.name.value) then [] else ["name"])
    + (if raw.term.Some? && TermOk(raw.term.value) then [] else ["term"])
    + (if raw.description.Given? && !DescriptionOk(raw.description.value) then ["description"] else [])
  }

  /** Validation of a create body: a missing description defaults to "". */
  function ParseCourseCreate(raw: CourseCreateIn): (r: Result<CourseCreate>)
    ensures r.Ok? <==> raw.name.Some? && NameOk(raw.name.value) && raw.term.Some? && TermOk(raw.term.value)
                       && (raw.description.Given? ==> DescriptionOk(raw.description.value))
    ensures r.Ok? ==> r.value.name == raw.name.value && r.value.term == raw.term.value
    ensures r.Ok? ==> r.value.description == (if raw.description.Absent? then Some("") else raw.description.ApplyTo(None))
    ensures r.Err? ==> r.error.status == UNPROCESSABLE
  {
    var errs := CreateViolations(raw);
    if errs != [] then Err(HttpError(UNPROCESSABLE, Strings.Join(errs, ", ")))
    else Ok(CourseCreate(raw.name.value, raw.term.value,
                         match raw.description case Absent => Some(DESCRIPTION_DEFAULT)
                                               case Null => None
                                               case Given(d) => Some(d)))
  }

  /** Validation of an update body: absent and null fields always pass, a present value
      must meet the create bounds. */
  function ParseCourseUpdate(raw: CourseUpdate): (r: Result<CourseUpdate>)
    ensures r.Ok? <==> (raw.name.Given? ==> NameOk(raw.name.value))
                       && (raw.term.Given? ==> TermOk(raw.term.value))
                       && (raw.description.Given? ==> DescriptionOk(raw.description.value))
    ensures r.Ok? ==> r.value == raw
    ensures r.Err? ==> r.error.status == UNPROCESSABLE
  {
    var errs := (if raw.name.Given? && !NameOk(raw.name.value) then ["name"] else [])
      + (if raw.term.Given? && !TermOk(raw.term.value) then ["term"] else [])
      + (if raw.description.Given? && !DescriptionOk(raw.description.value) then ["description"] else []);
    if errs != [] then Err(HttpError(UNPROCESSABLE, Strings.Join(errs, ", "))) else Ok(raw)
  }

  /** A value sent in an update is accepted exactly when the same value would be accepted
      at creation. */
  lemma UpdateBoundsMatchCreate(name: string, term: string, description: string)
    ensures ParseCourseUpdate(CourseUpdate(Given(name), Given(term), Given(description))).Ok?
        <==> ParseCourseCreate(CourseCreateIn(Some(name), Some(term), Given(description))).Ok?
  {
  }

  /** Serialising a stored course; a NULL in a `str` field fails response validation (500). */
  function CourseResponseOf(c: Models.Course): (r: Result<CourseResponse>)
    ensures r.Ok? <==> c.name.Some? && c.term.Some? && c.description.Some?
    ensures r.Ok? ==> r.value.id == c.id && r.value.name == c.name.value && r.value.term == c.term.value
                      && r.value.description == c.description.value
                      && r.value.createdAt == c.createdAt && r.value.updatedAt == c.updatedAt
    ensures r.Err? ==> r.error.status == SERVER_ERROR
  {
    if c.name.Some? && c.term.Some? && c.description.Some? then
      Ok(CourseResponse(c.id, c.name.value, c.term.value, c.description.value, c.createdAt, c.updatedAt))
    else Err(HttpError(SERVER_ERROR, "Internal Server Error"))
  }

  /** The response does not depend on, and so does not reveal, the course's owner. */
  lemma ResponseHidesOwner(c: Models.Course, owner: nat)
    ensures CourseResponseOf(c) == CourseResponseOf(c.(userId := owner))
  {
  }
}
