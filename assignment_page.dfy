/** The page of one assignment: where its back button leads, the edit form with its
    change, save and cancel handlers, the patch a save sends, deletion, and which of the
    loading screen, the error alert and the page itself is shown. An awaited API call is an
    `Outcome` parameter; the router state and `document.referrer` are parameters. */
module AssignmentPage {
  import opened Common
  import opened Strings
  import opened FrontData
  import AssignmentListState

  const DASHBOARD_PATH: string := "/dashboard"
  const ASSIGNMENTS_PATH: string := "/assignments"
  const NO_ID: string := "Assignment ID not provided"
  const LOAD_FAILED: string := "Failed to load assignment"
  const NOT_FOUND: string := "Assignment not found"
  const UPDATED: string := "Assignment updated successfully!"
  const UPDATE_FAILED: string := "Failed to update assignment"
  const DELETED: string := "Assignment deleted successfully!"
  const DELETE_FAILED: string := "Failed to delete assignment"

  /** `getReferrerPath`: the `from` of the router state when it is set, else the dashboard
      when the referrer mentions it, else the assignment list. */
  function GetReferrerPath(from: Option<string>, referrer: string): (r: string)
    ensures TruthyOptStr(from) ==> r == from.value
    ensures !TruthyOptStr(from) ==> (r == DASHBOARD_PATH <==> Contains(referrer, DASHBOARD_PATH))
    ensures !TruthyOptStr(from) ==> (r == ASSIGNMENTS_PATH <==> !Contains(referrer, DASHBOARD_PATH))
  {
    if TruthyOptStr(from) then from.value
    else if Contains(referrer, DASHBOARD_PATH) then DASHBOARD_PATH
    else if Contains(referrer, ASSIGNMENTS_PATH) then ASSIGNMENTS_PATH
    else ASSIGNMENTS_PATH
  }

  /** An assignment opened from the assignment list goes back to the list, whatever the
      referrer says. */
  lemma BackFromList(assignmentId: int, referrer: string)
    ensures GetReferrerPath(AssignmentListState.AssignmentClickTarget(assignmentId).from, referrer) == ASSIGNMENTS_PATH
  {
  }

  /** The fields of the service's `Assignment` the page reads, the due date as the string
      received. */
  datatype PageAssignment = PageAssignment(id: int, title: string, description: string, prompt: string,
                                           dueDate: string, courseId: int)

  /** `editForm`. */
  datatype EditForm = EditForm(title: string, description: string, prompt: string, dueDate: string)

  /** The form filled from an assignment. */
  function FormOf(a: PageAssignment): (f: EditForm)
    ensures f.title == a.title && f.description == a.description && f.prompt == a.prompt && f.dueDate == a.dueDate
  {
    EditForm(a.title, a.description, a.prompt, a.dueDate)
  }

  datatype FormField = TitleField | DescriptionField | PromptField | DueDateField {
    /** The key of the form object. */
    function Name(): string {
      match this
      case TitleField => "title"
      case DescriptionField => "description"
      case PromptField => "prompt"
      case DueDateField => "due_date"
    }
  }

  /** The field a key names, if any. */
  function FieldNamed(name: string): (r: Option<FormField>)
    ensures r.Some? ==> r.value.Name() == name
    ensures forall f: FormField :: f.Name() == name ==> r == Some(f)
  {
    if name == "title" then Some(TitleField)
    else if name == "description" then Some(DescriptionField)
    else if name == "prompt" then Some(PromptField)
    else if name == "due_date" then Some(DueDateField)
    else None
  }

  function Get(form: EditForm, f: FormField): string {
    match f
    case TitleField => form.title
    case DescriptionField => form.description
    case PromptField => form.prompt
    case DueDateField => form.dueDate
  }

  /** `{ ...prev, [field]: value }`; a key outside the four adds nothing the page reads. */
  function EditFormChange(form: EditForm, field: string, value: string): EditForm {
    match FieldNamed(field)
    case None => form
    case Some(TitleField) => form.(title := value)
    case Some(DescriptionField) => form.(description := value)
    case Some(PromptField) => form.(prompt := value)
    case Some(DueDateField) => form.(dueDate := value)
  }

  /** A change sets the named field to the value and keeps the three others; an unknown key
      changes nothing. */
  lemma EditFormChangeSpec(form: EditForm, field: string, value: string)
    ensures var r := EditFormChange(form, field, value);
            (forall f: FormField :: Get(r, f) == (if f.Name() == field then value else Get(form, f)))
            && (FieldNamed(field).None? ==> r == form)
  {
  }

  /** `AssignmentUpdate` as the page fills it: a field is either left out or given. */
  datatype AssignmentPatch = AssignmentPatch(title: Patch<string>, description: Patch<string>,
                                             prompt: Patch<string>, dueDate: Patch<string>)

  const EMPTY_PATCH: AssignmentPatch := AssignmentPatch(Absent, Absent, Absent, Absent)

  function PatchField(p: AssignmentPatch, f: FormField): Patch<string> {
    match f
    case TitleField => p.title
    case DescriptionField => p.description
    case PromptField => p.prompt
    case DueDateField => p.dueDate
  }

  /** One field of `updateData`: the form's value when it differs from the assignment's. */
  function Diff(edited: string, current: string): Patch<string> {
    if edited != current then Given(edited) else Absent
  }

  /** `updateData` of `handleSaveEdit`. */
  function DiffPatch(form: EditForm, a: PageAssignment): AssignmentPatch {
    AssignmentPatch(Diff(form.title, a.title), Diff(form.description, a.description),
                    Diff(form.prompt, a.prompt), Diff(form.dueDate, a.dueDate))
  }

  /** The patch holds exactly the fields the form changed, with the form's values, never
      a null; applied to the assignment's fields it yields the form; an untouched form
      yields the empty patch. */
  lemma DiffPatchSpec(form: EditForm, a: PageAssignment)
    ensures var p := DiffPatch(form, a);
            (forall f: FormField :: (PatchField(p, f).Absent? <==> Get(form, f) == Get(FormOf(a), f))
                                    && !PatchField(p, f).Null?
                                    && (PatchField(p, f).Given? ==> PatchField(p, f).value == Get(form, f))
                                    && PatchField(p, f).ApplyTo(Some(Get(FormOf(a), f))) == Some(Get(form, f)))
            && (p == EMPTY_PATCH <==> form == FormOf(a))
  {
  }

  /** What the page renders. */
  datatype View = LoadingScreen | ErrorAlert(message: string) | Content

  /** Every state variable of the page. */
  datatype PageState = PageState(
    assignment: Option<PageAssignment>, course: Option<Course>, loading: bool, editMode: bool,
    menuAnchor: Option<nat>, deleteDialogOpen: bool, saving: bool, error: Option<string>,
    snackbar: Snackbar, editForm: EditForm)

  const INITIAL_STATE: PageState :=
    PageState(None, None, true, false, None, false, false, None, CLOSED_SNACKBAR, EditForm("", "", "", ""))

  /** The loading screen while loading; then the error, or "Assignment not found" without
      one, unless both the assignment and its course are present; then the page. */
  function PageView(s: PageState): (v: View)
    ensures v == Content <==> !s.loading && !TruthyOptStr(s.error) && s.assignment.Some? && s.course.Some?
    ensures v.ErrorAlert? ==> v.message != ""
  {
    if s.loading then LoadingScreen
    else if TruthyOptStr(s.error) || s.assignment.None? || s.course.None? then
      ErrorAlert(OrStr(s.error, NOT_FOUND))
    else Content
  }

  /** The course id `fetchData` asks for: the loaded assignment's. */
  function FetchCourseRequest(idGiven: bool, loaded: Outcome<PageAssignment>): (r: Option<int>)
    ensures r.Some? <==> idGiven && loaded.Succeeded?
    ensures r.Some? ==> r.value == loaded.value.courseId
  {
    if idGiven && loaded.Succeeded? then Some(loaded.value.courseId) else None
  }

  /** `fetchData`: without a route id an error; otherwise the assignment and the form
      filled from it, then its course; a failure of either request records its message. */
  function FetchNext(s: PageState, idGiven: bool, loaded: Outcome<PageAssignment>, course: Outcome<Course>): PageState {
    if !idGiven then s.(error := Some(NO_ID), loading := false)
    else match loaded
      case Failed(m) => s.(error := Some(ErrorMessage(m, LOAD_FAILED)), loading := false)
      case Succeeded(a) =>
        var s1 := s.(assignment := Some(a), editForm := FormOf(a));
        match course
        case Succeeded(c) => s1.(course := Some(c), loading := false)
        case Failed(m) => s1.(error := Some(ErrorMessage(m, LOAD_FAILED)), loading := false)
  }

  /** From the initial state, a complete load shows the page; an incomplete one shows a
      non-empty error, the fixed message when the error had none. */
  lemma FetchView(idGiven: bool, loaded: Outcome<PageAssignment>, course: Outcome<Course>)
    ensures var v := PageView(FetchNext(INITIAL_STATE, idGiven, loaded, course));
            (v == Content <==> idGiven && loaded.Succeeded? && course.Succeeded?)
            && (!idGiven ==> v == ErrorAlert(NO_ID))
            && (idGiven && loaded.Failed? && loaded.message == "" ==> v == ErrorAlert(LOAD_FAILED))
  {
  }

  function MenuCloseNext(s: PageState): PageState { s.(menuAnchor := None) }

  /** `handleEditClick`. */
  function EditClickNext(s: PageState): PageState { MenuCloseNext(s.(editMode := true)) }

  /** `handleDeleteClick`. */
  function DeleteClickNext(s: PageState): PageState { MenuCloseNext(s.(deleteDialogOpen := true)) }

  /** The id and patch `handleSaveEdit` sends, if an assignment is loaded. */
  function SaveRequest(s: PageState): (r: Option<(int, AssignmentPatch)>)
    ensures r.Some? <==> s.assignment.Some?
    ensures r.Some? ==> r.value.0 == s.assignment.value.id
  {
    if s.assignment.None? then None else Some((s.assignment.value.id, DiffPatch(s.editForm, s.assignment.value)))
  }

  /** `handleSaveEdit` with the answer of `updateAssignment`. */
  function SaveNext(s: PageState, outcome: Outcome<PageAssignment>): PageState {
    if s.assignment.None? then s
    else match outcome
      case Succeeded(u) =>
        s.(assignment := Some(u), editMode := false, saving := false, snackbar := Snackbar(true, UPDATED, SnackSuccess))
      case Failed(m) => s.(saving := false, snackbar := Snackbar(true, ErrorMessage(m, UPDATE_FAILED), SnackError))
  }

  /** `handleCancelEdit`. */
  function CancelEditNext(s: PageState): PageState {
    if s.assignment.None? then s else s.(editForm := FormOf(s.assignment.value), editMode := false)
  }

  /** A save replaces the assignment with the answer and leaves edit mode, or stays in
      edit mode with the form as typed; cancelling restores all four fields from the
      assignment and leaves edit mode, so that saving next sends the empty patch. The same
      holds right after the page has loaded. */
  lemma SaveAndCancelSpec(s: PageState, outcome: Outcome<PageAssignment>, idGiven: bool,
                          loaded: Outcome<PageAssignment>, course: Outcome<Course>)
    requires s.assignment.Some?
    ensures var r := SaveNext(s, outcome);
            (outcome.Succeeded? ==> r.assignment == Some(outcome.value) && !r.editMode && r.snackbar.severity == SnackSuccess)
            && (outcome.Failed? ==> r.assignment == s.assignment && r.editMode == s.editMode
                                    && r.editForm == s.editForm && r.snackbar.message != "")
    ensures var r := CancelEditNext(s);
            !r.editMode && r.editForm == FormOf(s.assignment.value)
            && SaveRequest(r) == Some((s.assignment.value.id, EMPTY_PATCH))
    ensures idGiven && loaded.Succeeded? ==>
            SaveRequest(FetchNext(s, idGiven, loaded, course)) == Some((loaded.value.id, EMPTY_PATCH))
  {
    DiffPatchSpec(FormOf(s.assignment.value), s.assignment.value);
    if idGiven && loaded.Succeeded? {
      DiffPatchSpec(FormOf(loaded.value), loaded.value);
    }
  }

  /** Where `handleDeleteConfirm` navigates once the deletion succeeded. */
  function DeleteNavigation(s: PageState, outcome: Outcome<()>, from: Option<string>, referrer: string): (r: Option<string>)
    ensures r.Some? <==> s.assignment.Some? && outcome.Succeeded?
    ensures r.Some? ==> r.value == GetReferrerPath(from, referrer)
  {
    if s.assignment.Some? && outcome.Succeeded? then Some(GetReferrerPath(from, referrer)) else None
  }

  /** `handleDeleteConfirm` with the answer of `deleteAssignment`. */
  function DeleteConfirmNext(s: PageState, outcome: Outcome<()>): PageState {
    if s.assignment.None? then s
    else match outcome
      case Succeeded(_) => s.(snackbar := Snackbar(true, DELETED, SnackSuccess), deleteDialogOpen := false)
      case Failed(m) => s.(snackbar := Snackbar(true, ErrorMessage(m, DELETE_FAILED), SnackError), deleteDialogOpen := false)
  }

  class Page {
    var assignment: Option<PageAssignment>
    var course: Option<Course>
    var loading: bool
    var editMode: bool
    var menuAnchor: Option<nat>
    var deleteDialogOpen: bool
    var saving: bool
    var error: Option<string>
    var snackbar: Snackbar
    var editForm: EditForm

    function State(): PageState
      reads this
    {
      PageState(assignment, course, loading, editMode, menuAnchor, deleteDialogOpen, saving, error, snackbar, editForm)
    }

    constructor ()
      ensures State() == INITIAL_STATE
    {
      assignment, course, loading, editMode, menuAnchor := None, None, true, false, None;
      deleteDialogOpen, saving, error, snackbar := false, false, None, CLOSED_SNACKBAR;
      editForm := EditForm("", "", "", "");
    }

    /** `fetchData`: returns the course id it asks for, if it gets that far. */
    method FetchData(idGiven: bool, loaded: Outcome<PageAssignment>, courseAnswer: Outcome<Course>)
      returns (courseRequest: Option<int>)
      modifies this
      ensures courseRequest == FetchCourseRequest(idGiven, loaded)
      ensures State() == FetchNext(old(State()), idGiven, loaded, courseAnswer)
    {
      if !idGiven {
        error := Some(NO_ID);
        loading := false;
        return None;
      }
      loading := true;
      courseRequest := None;
      if loaded.Succeeded? {
        var a := loaded.value;
        assignment := Some(a);
        editForm := EditForm(a.title, a.description, a.prompt, a.dueDate);
        courseRequest := Some(a.courseId);
        if courseAnswer.Succeeded? {
          course := Some(courseAnswer.value);
        } else {
          error := Some(ErrorMessage(courseAnswer.message, LOAD_FAILED));
        }
      } else {
        error := Some(ErrorMessage(loaded.message, LOAD_FAILED));
      }
      loading := false;
    }

    method MenuOpen(anchor: nat)
      modifies this
      ensures State() == old(State()).(menuAnchor := Some(anchor))
    {
      menuAnchor := Some(anchor);
    }

    method MenuClose()
      modifies this
      ensures State() == MenuCloseNext(old(State()))
    {
      menuAnchor := None;
    }

    method EditClick()
      modifies this
      ensures State() == EditClickNext(old(State()))
    {
      editMode := true;
      MenuClose();
    }

    method DeleteClick()
      modifies this
      ensures State() == DeleteClickNext(old(State()))
    {
      deleteDialogOpen := true;
      MenuClose();
    }

    /** `handleEditFormChange`. */
    method ChangeEditForm(field: string, value: string)
      modifies this
      ensures State() == old(State()).(editForm := EditFormChange(old(editForm), field, value))
    {
      editForm := EditFormChange(editForm, field, value);
    }

    /** `handleSaveEdit`: `updateData` filled field by field; returns what was sent. */
    method SaveEdit(outcome: Outcome<PageAssignment>) returns (sent: Option<(int, AssignmentPatch)>)
      modifies this
      ensures sent == SaveRequest(old(State()))
      ensures State() == SaveNext(old(State()), outcome)
    {
      if assignment.None? {
        return None;
      }
      var a := assignment.value;
      saving := true;
      var updateData := EMPTY_PATCH;
      if editForm.title != a.title { updateData := updateData.(title := Given(editForm.title)); }
      if editForm.description != a.description { updateData := updateData.(description := Given(editForm.description)); }
      if editForm.prompt != a.prompt { updateData := updateData.(prompt := Given(editForm.prompt)); }
      if editForm.dueDate != a.dueDate { updateData := updateData.(dueDate := Given(editForm.dueDate)); }
      sent := Some((a.id, updateData));
      if outcome.Succeeded? {
        assignment := Some(outcome.value);
        editMode := false;
        snackbar := Snackbar(true, UPDATED, SnackSuccess);
      } else {
        snackbar := Snackbar(true, ErrorMessage(outcome.message, UPDATE_FAILED), SnackError);
      }
      saving := false;
    }

    /** `handleCancelEdit`. */
    method CancelEdit()
      modifies this
      ensures State() == CancelEditNext(old(State()))
    {
      if assignment.None? {
        return;
      }
      var a := assignment.value;
      editForm := EditForm(a.title, a.description, a.prompt, a.dueDate);
      editMode := false;
    }

    /** `handleDeleteConfirm`: returns where the page navigates after the delay. */
    method DeleteConfirm(outcome: Outcome<()>, from: Option<string>, referrer: string) returns (navigateTo: Option<string>)
      modifies this
      ensures navigateTo == DeleteNavigation(old(State()), outcome, from, referrer)
      ensures State() == DeleteConfirmNext(old(State()), outcome)
    {
      if assignment.None? {
        return None;
      }
      if outcome.Succeeded? {
        snackbar := Snackbar(true, DELETED, SnackSuccess);
        navigateTo := Some(GetReferrerPath(from, referrer));
      } else {
        snackbar := Snackbar(true, ErrorMessage(outcome.message, DELETE_FAILED), SnackError);
        navigateTo := None;
      }
      deleteDialogOpen := false;
    }
  }
}
