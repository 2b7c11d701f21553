/** The dialog that creates an assignment: its form, the reset on opening and closing,
    the preselected course, the validation of a submit and the trimmed body it sends, and
    the enabling test of the submit button. Instants are milliseconds; the clock and the
    default due date (tomorrow, 23:59 local time) are parameters. */
module AssignmentDialog {
  import opened Common
  import opened Strings
  import opened FrontData

  const TITLE_REQUIRED: string := "Assignment title is required"
  const PROMPT_REQUIRED: string := "Assignment prompt is required"
  const COURSE_REQUIRED: string := "Please select a course"
  const DUE_IN_FUTURE: string := "Due date must be in the future"
  const LOAD_COURSES_FAILED: string := "Failed to load courses"
  const CREATE_FAILED: string := "Failed to create assignment"

  /** `form`; the course id 0 is the disabled placeholder entry. */
  datatype DialogForm = DialogForm(title: string, description: string, prompt: string, dueDate: int, courseId: int)

  /** `preselectedCourseId || 0`. */
  function PreselectedOrZero(preselected: Option<int>): (r: int)
    ensures TruthyOptInt(preselected) ==> r == preselected.value
    ensures !TruthyOptInt(preselected) ==> r == 0
  {
    if TruthyOptInt(preselected) then preselected.value else 0
  }

  /** The form the dialog opens and closes with. */
  function ResetForm(preselected: Option<int>, defaultDue: int): DialogForm {
    DialogForm("", "", "", defaultDue, PreselectedOrZero(preselected))
  }

  /** The outcome of the checks of `handleSubmit`. */
  datatype Validation = Valid | Invalid(message: string)

  /** The checks of `handleSubmit`, the first failing one reported. */
  function ValidateForm(form: DialogForm, nowMs: int): Validation {
    if AllSpace(form.title) then Invalid(TITLE_REQUIRED)
    else if AllSpace(form.prompt) then Invalid(PROMPT_REQUIRED)
    else if form.courseId == 0 then Invalid(COURSE_REQUIRED)
    else if form.dueDate <= nowMs then Invalid(DUE_IN_FUTURE)
    else Valid
  }

  /** Each message is reported exactly when its check fails and every earlier one passes;
      the title is checked first, then the prompt, the course and the due date, which must
      lie strictly after now. */
  lemma ValidateFormOrder(form: DialogForm, nowMs: int)
    ensures var v := ValidateForm(form, nowMs);
            (v == Invalid(TITLE_REQUIRED) <==> Trim(form.title) == "")
            && (v == Invalid(PROMPT_REQUIRED) <==> Trim(form.title) != "" && Trim(form.prompt) == "")
            && (v == Invalid(COURSE_REQUIRED) <==> Trim(form.title) != "" && Trim(form.prompt) != "" && form.courseId == 0)
            && (v == Invalid(DUE_IN_FUTURE) <==> Trim(form.title) != "" && Trim(form.prompt) != "" && form.courseId != 0
                                                  && form.dueDate <= nowMs)
            && (v == Valid <==> Trim(form.title) != "" && Trim(form.prompt) != "" && form.courseId != 0 && form.dueDate > nowMs)
  {
    BlankIffAllSpace(form.title);
    BlankIffAllSpace(form.prompt);
  }

  /** `AssignmentCreate` as the dialog fills it; the due date is the instant
      `toISOString` writes out. */
  datatype AssignmentCreateBody = AssignmentCreateBody(title: string, description: string, prompt: string,
                                                       dueDate: int, courseId: int)

  /** The body `handleSubmit` sends once every check passed: the three texts trimmed. */
  function SubmitRequest(form: DialogForm, nowMs: int): (r: Option<AssignmentCreateBody>)
    ensures r.Some? <==> ValidateForm(form, nowMs) == Valid
  {
    if ValidateForm(form, nowMs) == Valid then
      Some(AssignmentCreateBody(Trim(form.title), Trim(form.description), Trim(form.prompt), form.dueDate, form.courseId))
    else None
  }

  /** A sent body has a non-empty title and prompt with no white space at either end, a
      trimmed description, a chosen course and a due date after now. */
  lemma SubmitRequestSpec(form: DialogForm, nowMs: int)
    requires SubmitRequest(form, nowMs).Some?
    ensures var b := SubmitRequest(form, nowMs).value;
            b.title != "" && !IsSpace(b.title[0]) && !IsSpace(b.title[|b.title| - 1])
            && b.prompt != "" && !IsSpace(b.prompt[0]) && !IsSpace(b.prompt[|b.prompt| - 1])
            && Trim(b.description) == b.description
            && b.courseId == form.courseId && b.courseId != 0 && b.dueDate == form.dueDate && b.dueDate > nowMs
  {
    ValidateFormOrder(form, nowMs);
    var b := SubmitRequest(form, nowMs).value;
    TrimShape(form.title);
    TrimShape(form.prompt);
    TrimShape(form.description);
  }

  /** `isFormValid`, which enables the submit button (a picked date is always truthy). */
  predicate IsFormValid(form: DialogForm) {
    !AllSpace(form.title) && !AllSpace(form.prompt) && form.courseId > 0
  }

  /** An enabled button submits unless the due date is not after now; a form the checks
      accept enables the button unless its course id is negative. */
  lemma FormValidAgreesWithSubmit(form: DialogForm, nowMs: int)
    ensures IsFormValid(form) && form.dueDate > nowMs ==> ValidateForm(form, nowMs) == Valid
    ensures ValidateForm(form, nowMs) == Valid && form.courseId >= 0 ==> IsFormValid(form)
    ensures IsFormValid(form) && form.dueDate <= nowMs ==> ValidateForm(form, nowMs) == Invalid(DUE_IN_FUTURE)
  {
  }

  /** The effect that applies the preselected course once courses are loaded: only a
      listed one. */
  function ApplyPreselected(form: DialogForm, courses: seq<Course>, preselected: Option<int>): (r: DialogForm)
    ensures r.courseId != form.courseId ==>
              TruthyOptInt(preselected) && r.courseId == preselected.value
              && exists i :: 0 <= i < |courses| && courses[i].id == preselected.value
    ensures r.(courseId := form.courseId) == form
  {
    if |courses| > 0 && TruthyOptInt(preselected) && FindCourse(courses, preselected.value).Some? then
      form.(courseId := preselected.value)
    else form
  }

  /** A freshly reset form already carries the preselected course, so the effect leaves
      it unchanged; an empty reset form can never be submitted. */
  lemma ResetFormSpec(preselected: Option<int>, defaultDue: int, courses: seq<Course>, nowMs: int)
    ensures ApplyPreselected(ResetForm(preselected, defaultDue), courses, preselected) == ResetForm(preselected, defaultDue)
    ensures ValidateForm(ResetForm(preselected, defaultDue), nowMs) == Invalid(TITLE_REQUIRED)
    ensures !IsFormValid(ResetForm(preselected, defaultDue))
  {
  }

  /** Every state variable of the dialog. */
  datatype DialogState = DialogState(loading: bool, error: Option<string>, courses: seq<Course>,
                                     coursesLoading: bool, form: DialogForm)

  /** The opening effect with the answer of `getCourses`, followed by the preselection
      effect the loaded courses trigger. */
  function OpenNext(s: DialogState, preselected: Option<int>, defaultDue: int, loaded: Outcome<seq<Course>>): DialogState {
    var reset := s.(form := ResetForm(preselected, defaultDue), error := None);
    match loaded
    case Succeeded(cs) =>
      reset.(courses := cs, coursesLoading := false, form := ApplyPreselected(reset.form, cs, preselected))
    case Failed(_) => reset.(error := Some(LOAD_COURSES_FAILED), coursesLoading := false)
  }

  /** `handleClose`. */
  function CloseNext(s: DialogState, preselected: Option<int>, defaultDue: int): DialogState {
    s.(form := ResetForm(preselected, defaultDue), error := None)
  }

  /** `handleSubmit` with the answer of `createAssignment`: a failed check shows its
      message and sends nothing; a created assignment closes and resets the dialog. */
  function SubmitNext(s: DialogState, nowMs: int, outcome: Outcome<()>, preselected: Option<int>, defaultDue: int): DialogState {
    match ValidateForm(s.form, nowMs)
    case Invalid(m) => s.(error := Some(m))
    case Valid =>
      match outcome
      case Succeeded(_) => CloseNext(s, preselected, defaultDue).(loading := false)
      case Failed(m) => s.(error := Some(ErrorMessage(m, CREATE_FAILED)), loading := false)
  }

  /** After a submit the alert shows the first failed check, or the error of the request,
      or nothing once the assignment was created, in which case the form is reset. */
  lemma SubmitNextSpec(s: DialogState, nowMs: int, outcome: Outcome<()>, preselected: Option<int>, defaultDue: int)
    ensures var r := SubmitNext(s, nowMs, outcome, preselected, defaultDue);
            (ValidateForm(s.form, nowMs).Invalid? ==> r.error == Some(ValidateForm(s.form, nowMs).message) && r.form == s.form)
            && (ValidateForm(s.form, nowMs) == Valid && outcome.Succeeded? ==>
                  r.error.None? && r.form == ResetForm(preselected, defaultDue))
            && (ValidateForm(s.form, nowMs) == Valid && outcome.Failed? ==>
                  r.error.Some? && r.error.value != "" && r.form == s.form)
  {
  }

  class Dialog {
    var loading: bool
    var error: Option<string>
    var courses: seq<Course>
    var coursesLoading: bool
    var form: DialogForm

    function State(): DialogState
      reads this
    {
      DialogState(loading, error, courses, coursesLoading, form)
    }

    constructor (defaultDue: int)
      ensures State() == DialogState(false, None, [], false, DialogForm("", "", "", defaultDue, 0))
    {
      loading, error, courses, coursesLoading := false, None, [], false;
      form := DialogForm("", "", "", defaultDue, 0);
    }

    /** The opening effect, `loadCourses` and the preselection effect. */
    method Open(preselected: Option<int>, defaultDue: int, loaded: Outcome<seq<Course>>)
      modifies this
      ensures State() == OpenNext(old(State()), preselected, defaultDue, loaded)
    {
      coursesLoading := true;
      form := ResetForm(preselected, defaultDue);
      error := None;
      if loaded.Succeeded? {
        courses := loaded.value;
        coursesLoading := false;
        if |courses| > 0 && TruthyOptInt(preselected) {
          var exists_ := FindCourse(courses, preselected.value);
          if exists_.Some? {
            form := form.(courseId := preselected.value);
          }
        }
      } else {
        error := Some(LOAD_COURSES_FAILED);
        coursesLoading := false;
      }
    }

    /** `handleClose`. */
    method Close(preselected: Option<int>, defaultDue: int)
      modifies this
      ensures State() == CloseNext(old(State()), preselected, defaultDue)
    {
      form := ResetForm(preselected, defaultDue);
      error := None;
    }

    /** `handleSubmit`: returns the body sent to `createAssignment`, if any. */
    method Submit(nowMs: int, outcome: Outcome<()>, preselected: Option<int>, defaultDue: int)
      returns (sent: Option<AssignmentCreateBody>)
      modifies this
      ensures sent == SubmitRequest(old(form), nowMs)
      ensures State() == SubmitNext(old(State()), nowMs, outcome, preselected, defaultDue)
    {
      if AllSpace(form.title) {
        error := Some(TITLE_REQUIRED);
        return None;
      }
      if AllSpace(form.prompt) {
        error := Some(PROMPT_REQUIRED);
        return None;
      }
      if form.courseId == 0 {
        error := Some(COURSE_REQUIRED);
        return None;
      }
      if form.dueDate <= nowMs {
        error := Some(DUE_IN_FUTURE);
        return None;
      }
      loading := true;
      error := None;
      sent := Some(AssignmentCreateBody(Trim(form.title), Trim(form.description), Trim(form.prompt),
                                        form.dueDate, form.courseId));
      if outcome.Succeeded? {
        Close(preselected, defaultDue);
      } else {
        error := Some(ErrorMessage(outcome.message, CREATE_FAILED));
      }
      loading := false;
    }
  }
}
