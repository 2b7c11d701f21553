/** The course-management hook: the course list, the create and edit dialogs with their
    form fields, the per-course menu and the snackbar, and the handlers that change them.
    An awaited API call is an `Outcome` parameter; the request a handler sends is returned,
    so that what is sent can be stated beside what is stored. */
module CourseManagement {
  import opened Common
  import opened Strings
  import opened Seqs
  import opened FrontData

  const LOAD_FAILED: string := "Failed to load courses"
  const CREATED: string := "Course created successfully!"
  const CREATE_FAILED: string := "Failed to create course"
  const UPDATED: string := "Course updated successfully!"
  const UPDATE_FAILED: string := "Failed to update course"
  const DELETED: string := "Course deleted successfully!"
  const DELETE_FAILED: string := "Failed to delete course"

  /** The `CourseCreate` body sent to `createCourse` and `updateCourse`. */
  datatype CoursePayload = CoursePayload(name: string, term: string, description: string)

  /** Every state variable of the hook; the menu anchor is an element handle. */
  datatype CourseState = CourseState(
    courses: seq<Course>, loading: bool,
    createDialogOpen: bool, editDialogOpen: bool, editingCourse: Option<Course>,
    newCourseName: string, newCourseTerm: string, newCourseDescription: string, createLoading: bool,
    editCourseName: string, editCourseTerm: string, editCourseDescription: string, editLoading: bool,
    menuAnchor: Option<nat>, selectedCourseId: Option<int>, snackbar: Snackbar)

  /** `prev.map(c => c.id === id ? updated : c)`. */
  function ReplaceById(courses: seq<Course>, id: int, updated: Course): (r: seq<Course>)
    ensures |r| == |courses|
    ensures forall i :: 0 <= i < |r| ==> r[i] == (if courses[i].id == id then updated else courses[i])
  {
    if courses == [] then []
    else [if courses[0].id == id then updated else courses[0]] + ReplaceById(courses[1..], id, updated)
  }

  /** Replacing entries of an id that is not listed changes nothing; replacing with the
      entry already there changes nothing either. */
  lemma ReplaceByIdIdentity(courses: seq<Course>, id: int, updated: Course)
    ensures (forall i :: 0 <= i < |courses| ==> courses[i].id != id) ==> ReplaceById(courses, id, updated) == courses
    ensures (forall i :: 0 <= i < |courses| ==> courses[i].id == id ==> courses[i] == updated) ==>
              ReplaceById(courses, id, updated) == courses
  {
  }

  /** `c => c.id !== id`. */
  function IdIsNot(id: int): Course -> bool {
    (c: Course) => c.id != id
  }

  /** `prev.filter(c => c.id !== id)`. */
  function RemoveById(courses: seq<Course>, id: int): (r: seq<Course>)
    ensures forall c :: c in r <==> c in courses && c.id != id
    ensures |r| <= |courses|
  {
    forall c ensures c in Filter(courses, IdIsNot(id)) <==> c in courses && IdIsNot(id)(c) {
      FilterMembership(courses, IdIsNot(id), c);
    }
    Filter(courses, IdIsNot(id))
  }

  /** Removal keeps the other courses in their order and with their multiplicity, and
      removing an unlisted id changes nothing. */
  lemma RemoveByIdSpec(courses: seq<Course>, id: int)
    ensures forall c: Course :: c.id != id ==> multiset(RemoveById(courses, id))[c] == multiset(courses)[c]
    ensures (forall i :: 0 <= i < |courses| ==> courses[i].id != id) ==> RemoveById(courses, id) == courses
  {
    forall c: Course | c.id != id ensures multiset(RemoveById(courses, id))[c] == multiset(courses)[c] {
      FilterMultiset(courses, IdIsNot(id), c);
    }
    if forall i :: 0 <= i < |courses| ==> courses[i].id != id {
      FilterAll(courses, IdIsNot(id));
    }
  }

  /** `courseId || selectedCourseId`: an absent or 0 argument falls back to the selection. */
  function TargetCourseId(courseId: Option<int>, selected: Option<int>): (r: Option<int>)
    ensures TruthyOptInt(courseId) ==> r == courseId
    ensures !TruthyOptInt(courseId) ==> r == selected
  {
    if TruthyOptInt(courseId) then courseId else selected
  }

  /** The course `courses.find(c => c.id === target)` finds; a null target matches none. */
  function TargetCourse(courses: seq<Course>, target: Option<int>): (r: Option<Course>)
    ensures r.Some? ==> r.value in courses && target == Some(r.value.id)
    ensures r.None? <==> target.None? || forall i :: 0 <= i < |courses| ==> courses[i].id != target.value
  {
    if target.None? then None else FindCourse(courses, target.value)
  }

  // `!field.trim()` on a form field is `AllSpace(field)` (`Strings.BlankIffAllSpace`); the
  // handlers below state their guards that way.

  /** The payload of a create or update: the form values as typed, not trimmed. */
  function Payload(name: string, term: string, description: string): (p: CoursePayload)
    ensures p.name == name && p.term == term && p.description == description
  {
    CoursePayload(name, term, description)
  }

  /** The state of a freshly mounted hook: no courses yet, and loading. */
  const INITIAL_STATE: CourseState :=
    CourseState([], true, false, false, None, "", "", "", false, "", "", "", false, None, None, CLOSED_SNACKBAR)

  /** The menu is open exactly when a course is selected: the two are set and cleared
      together. */
  predicate MenuConsistent(s: CourseState) {
    s.menuAnchor.Some? <==> s.selectedCourseId.Some?
  }

  /** An open edit dialog always has a course being edited. */
  predicate EditTargeted(s: CourseState) {
    s.editDialogOpen ==> s.editingCourse.Some?
  }

  /** Between handlers no request is pending. */
  predicate Idle(s: CourseState) {
    !s.createLoading && !s.editLoading
  }

  /** What holds between any two handlers. */
  predicate Consistent(s: CourseState) {
    MenuConsistent(s) && EditTargeted(s) && Idle(s)
  }

  function ErrorSnackbar(message: string, fallback: string): Snackbar {
    Snackbar(true, ErrorMessage(message, fallback), SnackError)
  }

  function SuccessSnackbar(message: string): Snackbar {
    Snackbar(true, message, SnackSuccess)
  }

  /** `loadCourses` with the answer of `getCourses`. */
  function LoadNext(s: CourseState, outcome: Outcome<seq<Course>>): CourseState {
    match outcome
    case Succeeded(list) => s.(courses := list, loading := false)
    case Failed(message) => s.(loading := false, snackbar := ErrorSnackbar(message, LOAD_FAILED))
  }

  /** `handleCourseMenuOpen`. */
  function MenuOpenNext(s: CourseState, anchor: nat, courseId: int): CourseState {
    s.(menuAnchor := Some(anchor), selectedCourseId := Some(courseId))
  }

  /** `handleCourseMenuClose`. */
  function MenuCloseNext(s: CourseState): CourseState {
    s.(menuAnchor := None, selectedCourseId := None)
  }

  /** `handleOpenCreateDialog`. */
  function OpenCreateNext(s: CourseState): CourseState {
    s.(newCourseName := "", newCourseTerm := "", newCourseDescription := "", createDialogOpen := true)
  }

  /** The guard of `handleCreateCourse`: a name and a term that are not blank. */
  predicate CreateReady(s: CourseState) {
    !AllSpace(s.newCourseName) && !AllSpace(s.newCourseTerm)
  }

  /** The body `handleCreateCourse` sends: the form as typed, untrimmed. */
  function CreateRequest(s: CourseState): (r: Option<CoursePayload>)
    ensures r.Some? <==> CreateReady(s)
  {
    if CreateReady(s) then Some(Payload(s.newCourseName, s.newCourseTerm, s.newCourseDescription)) else None
  }

  /** `handleCreateCourse` with the answer of `createCourse`. */
  function CreateNext(s: CourseState, outcome: Outcome<Course>): CourseState {
    if !CreateReady(s) then s
    else match outcome
      case Succeeded(c) =>
        s.(courses := s.courses + [c], createDialogOpen := false, createLoading := false,
           snackbar := SuccessSnackbar(CREATED))
      case Failed(message) => s.(createLoading := false, snackbar := ErrorSnackbar(message, CREATE_FAILED))
  }

  /** The course `handleOpenEditDialog` opens. */
  function EditTarget(s: CourseState, courseId: Option<int>): Option<Course> {
    TargetCourse(s.courses, TargetCourseId(courseId, s.selectedCourseId))
  }

  /** `handleOpenEditDialog`. */
  function OpenEditNext(s: CourseState, courseId: Option<int>): CourseState {
    var s1 := match EditTarget(s, courseId)
      case None => s
      case Some(c) => FillNext(s, c);
    MenuCloseNext(s1)
  }

  /** A state equals the filled one when its fields do. */
  lemma FillNextFields(s: CourseState, c: Course, t: CourseState)
    requires t.courses == s.courses && t.loading == s.loading && t.createDialogOpen == s.createDialogOpen
    requires t.editDialogOpen && t.editingCourse == Some(c)
    requires t.newCourseName == s.newCourseName && t.newCourseTerm == s.newCourseTerm
    requires t.newCourseDescription == s.newCourseDescription && t.createLoading == s.createLoading
    requires t.editCourseName == c.name && t.editCourseTerm == c.term
    requires t.editCourseDescription == OrStr(c.description, "") && t.editLoading == s.editLoading
    requires t.menuAnchor == s.menuAnchor && t.selectedCourseId == s.selectedCourseId && t.snackbar == s.snackbar
    ensures t == FillNext(s, c)
  {
  }

  /** The edit form filled from a course, and the edit dialog open. */
  function FillNext(s: CourseState, c: Course): CourseState {
    CourseState(s.courses, s.loading, s.createDialogOpen, true, Some(c),
                s.newCourseName, s.newCourseTerm, s.newCourseDescription, s.createLoading,
                c.name, c.term, OrStr(c.description, ""), s.editLoading,
                s.menuAnchor, s.selectedCourseId, s.snackbar)
  }

  /** The guard of `handleUpdateCourse`. */
  predicate UpdateReady(s: CourseState) {
    !AllSpace(s.editCourseName) && !AllSpace(s.editCourseTerm) && s.editingCourse.Some?
  }

  /** The course id and body `handleUpdateCourse` sends. */
  function UpdateRequest(s: CourseState): (r: Option<(int, CoursePayload)>)
    ensures r.Some? <==> UpdateReady(s)
  {
    if UpdateReady(s) then
      Some((s.editingCourse.value.id, Payload(s.editCourseName, s.editCourseTerm, s.editCourseDescription)))
    else None
  }

  /** `handleUpdateCourse` with the answer of `updateCourse`. */
  function UpdateNext(s: CourseState, outcome: Outcome<Course>): CourseState {
    if !UpdateReady(s) then s
    else match outcome
      case Succeeded(c) =>
        s.(courses := ReplaceById(s.courses, s.editingCourse.value.id, c), editDialogOpen := false,
           editLoading := false, snackbar := SuccessSnackbar(UPDATED))
      case Failed(message) => s.(editLoading := false, snackbar := ErrorSnackbar(message, UPDATE_FAILED))
  }

  /** The id `handleDeleteCourse` would delete. */
  function DeleteTarget(s: CourseState, courseId: Option<int>): Option<int> {
    TargetCourseId(courseId, s.selectedCourseId)
  }

  /** The id `handleDeleteCourse` sends: only a truthy target the user confirmed. */
  function DeleteRequest(s: CourseState, courseId: Option<int>, confirmed: bool): (r: Option<int>)
    ensures r.Some? <==> TruthyOptInt(DeleteTarget(s, courseId)) && confirmed
    ensures r.Some? ==> r == DeleteTarget(s, courseId)
  {
    var target := DeleteTarget(s, courseId);
    if TruthyOptInt(target) && confirmed then target else None
  }

  /** `handleDeleteCourse` with the confirmation and the answer of `deleteCourse`. */
  function DeleteNext(s: CourseState, courseId: Option<int>, confirmed: bool, outcome: Outcome<()>): CourseState {
    match DeleteRequest(s, courseId, confirmed)
    case None => s
    case Some(id) =>
      var s1 := match outcome
        case Succeeded(_) => s.(courses := RemoveById(s.courses, id), snackbar := SuccessSnackbar(DELETED))
        case Failed(message) => s.(snackbar := ErrorSnackbar(message, DELETE_FAILED));
      MenuCloseNext(s1)
  }

  /** `handleSnackbarClose`. */
  function SnackbarCloseNext(s: CourseState): CourseState {
    s.(snackbar := s.snackbar.(open := false))
  }

  /** The initial state is consistent, and the handlers of the course list keep it so
      whatever the server answers. */
  lemma ListHandlersKeepConsistent(s: CourseState, list: Outcome<seq<Course>>, course: Outcome<Course>)
    requires Consistent(s)
    ensures Consistent(INITIAL_STATE)
    ensures Consistent(LoadNext(s, list)) && Consistent(OpenCreateNext(s))
    ensures Consistent(CreateNext(s, course)) && Consistent(SnackbarCloseNext(s))
  {
  }

  /** The handlers behind the course menu and the edit dialog keep the state consistent
      whatever the user picks and whatever the server answers. */
  lemma MenuHandlersKeepConsistent(s: CourseState, anchor: nat, courseId: int, arg: Option<int>,
                                   course: Outcome<Course>)
    requires Consistent(s)
    ensures Consistent(MenuOpenNext(s, anchor, courseId)) && Consistent(MenuCloseNext(s))
    ensures Consistent(OpenEditNext(s, arg)) && Consistent(UpdateNext(s, course))
  {
  }

  /** Deleting keeps the state consistent, whether or not it is confirmed or succeeds. */
  lemma DeleteKeepsConsistent(s: CourseState, arg: Option<int>, confirmed: bool, done: Outcome<()>)
    requires Consistent(s)
    ensures Consistent(DeleteNext(s, arg, confirmed, done))
  {
  }

  /** The create guard is the source's `!name.trim() || !term.trim()` test, negated. */
  lemma CreateGuardIsTrim(s: CourseState)
    ensures CreateReady(s) <==> Trim(s.newCourseName) != "" && Trim(s.newCourseTerm) != ""
    ensures UpdateReady(s) <==> Trim(s.editCourseName) != "" && Trim(s.editCourseTerm) != "" && s.editingCourse.Some?
  {
    BlankIffAllSpace(s.newCourseName);
    BlankIffAllSpace(s.newCourseTerm);
    BlankIffAllSpace(s.editCourseName);
    BlankIffAllSpace(s.editCourseTerm);
  }

  /** A form that fails the guard sends nothing and changes nothing; in particular the
      form a freshly opened create dialog shows cannot be submitted. */
  lemma GuardsAreNoOps(s: CourseState, outcome: Outcome<Course>)
    ensures !CreateReady(s) ==> CreateRequest(s).None? && CreateNext(s, outcome) == s
    ensures !UpdateReady(s) ==> UpdateRequest(s).None? && UpdateNext(s, outcome) == s
    ensures CreateRequest(OpenCreateNext(s)).None?
  {
  }

  /** A created course is appended after the courses already listed; a failed create
      keeps the list and the open dialog, and reports a message that is never empty. */
  lemma CreateSpec(s: CourseState, outcome: Outcome<Course>)
    requires CreateReady(s)
    ensures var r := CreateNext(s, outcome);
            (outcome.Succeeded? ==>
               |r.courses| == |s.courses| + 1 && r.courses[..|s.courses|] == s.courses
               && r.courses[|s.courses|] == outcome.value && !r.createDialogOpen
               && r.snackbar == Snackbar(true, CREATED, SnackSuccess))
            && (outcome.Failed? ==>
                  r.courses == s.courses && r.createDialogOpen == s.createDialogOpen
                  && r.snackbar.open && r.snackbar.severity == SnackError && r.snackbar.message != "")
  {
    if outcome.Succeeded? {
      assert (s.courses + [outcome.value])[..|s.courses|] == s.courses;
    }
  }

  /** Opening the edit dialog on a listed course and saving the form untouched sends that
      course's id with its name, its term and its description (or ""), and a successful
      answer replaces exactly the entries with that id, keeping every other entry in
      place. */
  lemma EditThenSave(s: CourseState, courseId: Option<int>, c: Course, outcome: Outcome<Course>)
    requires EditTarget(s, courseId) == Some(c)
    requires !AllSpace(c.name) && !AllSpace(c.term)
    ensures var s1 := OpenEditNext(s, courseId);
            s1.editDialogOpen && s1.menuAnchor.None? && s1.selectedCourseId.None?
            && UpdateRequest(s1) == Some((c.id, CoursePayload(c.name, c.term, OrStr(c.description, ""))))
    ensures var r := UpdateNext(OpenEditNext(s, courseId), outcome);
            outcome.Succeeded? ==>
              |r.courses| == |s.courses| && !r.editDialogOpen
              && forall i :: 0 <= i < |r.courses| ==>
                   r.courses[i] == (if s.courses[i].id == c.id then outcome.value else s.courses[i])
  {
  }

  /** A confirmed delete of a truthy id removes every course with that id and keeps all
      others with their multiplicity, and closes the menu even when it fails; without a
      truthy id or without confirmation nothing happens, and the menu, if open, stays
      open. */
  lemma DeleteSpec(s: CourseState, courseId: Option<int>, confirmed: bool, outcome: Outcome<()>)
    ensures var r := DeleteNext(s, courseId, confirmed, outcome);
            var target := DeleteTarget(s, courseId);
            (TruthyOptInt(target) && confirmed ==>
               r.menuAnchor.None? && r.selectedCourseId.None?
               && (outcome.Succeeded? ==>
                     (forall x :: x in r.courses <==> x in s.courses && x.id != target.value)
                     && (forall x: Course :: x.id != target.value ==> multiset(r.courses)[x] == multiset(s.courses)[x]))
               && (outcome.Failed? ==> r.courses == s.courses && r.snackbar.severity == SnackError))
            && (!TruthyOptInt(target) || !confirmed ==> r == s)
  {
    var target := DeleteTarget(s, courseId);
    if TruthyOptInt(target) && confirmed {
      RemoveByIdSpec(s.courses, target.value);
    }
  }

  /** Only a successful load, create, update or delete changes the course list. */
  lemma FailuresKeepCourses(s: CourseState, courseId: Option<int>, confirmed: bool, message: string)
    ensures LoadNext(s, Failed(message)).courses == s.courses
    ensures CreateNext(s, Failed(message)).courses == s.courses
    ensures UpdateNext(s, Failed(message)).courses == s.courses
    ensures DeleteNext(s, courseId, confirmed, Failed(message)).courses == s.courses
    ensures OpenEditNext(s, courseId).courses == s.courses
  {
  }

  /** Closing the snackbar hides it and keeps its text, so the closing animation shows the
      same message; closing twice is closing once. */
  lemma SnackbarCloseSpec(s: CourseState)
    ensures var r := SnackbarCloseNext(s);
            !r.snackbar.open && r.snackbar.message == s.snackbar.message
            && r.snackbar.severity == s.snackbar.severity && r.courses == s.courses
            && SnackbarCloseNext(r) == r
  {
  }

  class CourseManagementHook {
    var courses: seq<Course>
    var loading: bool
    var createDialogOpen: bool
    var editDialogOpen: bool
    var editingCourse: Option<Course>
    var newCourseName: string
    var newCourseTerm: string
    var newCourseDescription: string
    var createLoading: bool
    var editCourseName: string
    var editCourseTerm: string
    var editCourseDescription: string
    var editLoading: bool
    var menuAnchor: Option<nat>
    var selectedCourseId: Option<int>
    var snackbar: Snackbar

    /** The whole hook state. */
    function State(): CourseState
      reads this
    {
      CourseState(courses, loading, createDialogOpen, editDialogOpen, editingCourse,
                  newCourseName, newCourseTerm, newCourseDescription, createLoading,
                  editCourseName, editCourseTerm, editCourseDescription, editLoading,
                  menuAnchor, selectedCourseId, snackbar)
    }

    /** The `useState` initial values. */
    constructor ()
      ensures State() == INITIAL_STATE
    {
      courses, loading := [], true;
      createDialogOpen, editDialogOpen, editingCourse := false, false, None;
      newCourseName, newCourseTerm, newCourseDescription, createLoading := "", "", "", false;
      editCourseName, editCourseTerm, editCourseDescription, editLoading := "", "", "", false;
      menuAnchor, selectedCourseId, snackbar := None, None, CLOSED_SNACKBAR;
    }

    /** `loadCourses`. */
    method LoadCourses(outcome: Outcome<seq<Course>>)
      modifies this
      ensures State() == LoadNext(old(State()), outcome)
    {
      loading := true;
      if outcome.Succeeded? {
        courses := outcome.value;
      } else {
        snackbar := ErrorSnackbar(outcome.message, LOAD_FAILED);
      }
      loading := false;
    }

    /** `handleCourseMenuOpen`. */
    method CourseMenuOpen(anchor: nat, courseId: int)
      modifies this
      ensures State() == MenuOpenNext(old(State()), anchor, courseId)
    {
      menuAnchor := Some(anchor);
      selectedCourseId := Some(courseId);
    }

    /** `handleCourseMenuClose`. */
    method CourseMenuClose()
      modifies this
      ensures State() == MenuCloseNext(old(State()))
    {
      menuAnchor := None;
      selectedCourseId := None;
    }

    /** `handleOpenCreateDialog`. */
    method OpenCreateDialog()
      modifies this
      ensures State() == OpenCreateNext(old(State()))
    {
      newCourseName := "";
      newCourseTerm := "";
      newCourseDescription := "";
      createDialogOpen := true;
    }

    /** `handleCreateCourse`: returns the body sent to `createCourse`, if any. */
    method CreateCourse(outcome: Outcome<Course>) returns (sent: Option<CoursePayload>)
      modifies this
      ensures sent == CreateRequest(old(State()))
      ensures State() == CreateNext(old(State()), outcome)
    {
      if AllSpace(newCourseName) || AllSpace(newCourseTerm) {
        return None;
      }
      createLoading := true;
      sent := Some(Payload(newCourseName, newCourseTerm, newCourseDescription));
      FinishCreate(outcome);
    }

    /** The part of `handleCreateCourse` after the request: the answer and the end of
        `createLoading`. */
    method FinishCreate(outcome: Outcome<Course>)
      modifies this
      ensures outcome.Succeeded? ==>
                State() == old(State()).(courses := old(courses) + [outcome.value], createDialogOpen := false,
                                         createLoading := false, snackbar := SuccessSnackbar(CREATED))
      ensures outcome.Failed? ==>
                State() == old(State()).(createLoading := false, snackbar := ErrorSnackbar(outcome.message, CREATE_FAILED))
    {
      if outcome.Succeeded? {
        courses := courses + [outcome.value];
        createDialogOpen := false;
        snackbar := SuccessSnackbar(CREATED);
      } else {
        snackbar := ErrorSnackbar(outcome.message, CREATE_FAILED);
      }
      createLoading := false;
    }

    /** `handleOpenEditDialog`. */
    method OpenEditDialog(courseId: Option<int>)
      modifies this
      ensures State() == OpenEditNext(old(State()), courseId)
    {
      var course := TargetCourse(courses, TargetCourseId(courseId, selectedCourseId));
      if course.Some? {
        FillEditForm(course.value);
      }
      CourseMenuClose();
    }

    /** The part of `handleOpenEditDialog` that loads a found course into the edit form. */
    method FillEditForm(c: Course)
      modifies this
      ensures State() == FillNext(old(State()), c)
    {
      ghost var s0 := State();
      editingCourse, editCourseName, editCourseTerm := Some(c), c.name, c.term;
      editCourseDescription, editDialogOpen := OrStr(c.description, ""), true;
      FillNextFields(s0, c, State());
    }

    /** `handleUpdateCourse`: returns the id and body sent to `updateCourse`, if any. */
    method UpdateCourse(outcome: Outcome<Course>) returns (sent: Option<(int, CoursePayload)>)
      modifies this
      ensures sent == UpdateRequest(old(State()))
      ensures State() == UpdateNext(old(State()), outcome)
    {
      if AllSpace(editCourseName) || AllSpace(editCourseTerm) || editingCourse.None? {
        return None;
      }
      editLoading := true;
      var id := editingCourse.value.id;
      sent := Some((id, Payload(editCourseName, editCourseTerm, editCourseDescription)));
      FinishUpdate(id, outcome);
    }

    /** The part of `handleUpdateCourse` after the request: the answer and the end of
        `editLoading`. */
    method FinishUpdate(id: int, outcome: Outcome<Course>)
      modifies this
      ensures outcome.Succeeded? ==>
                State() == old(State()).(courses := ReplaceById(old(courses), id, outcome.value),
                                         editDialogOpen := false, editLoading := false,
                                         snackbar := SuccessSnackbar(UPDATED))
      ensures outcome.Failed? ==>
                State() == old(State()).(editLoading := false, snackbar := ErrorSnackbar(outcome.message, UPDATE_FAILED))
    {
      if outcome.Succeeded? {
        courses := ReplaceById(courses, id, outcome.value);
        editDialogOpen := false;
        snackbar := SuccessSnackbar(UPDATED);
      } else {
        snackbar := ErrorSnackbar(outcome.message, UPDATE_FAILED);
      }
      editLoading := false;
    }

    /** `handleDeleteCourse`, given the answer of the confirmation prompt: returns the id
        sent to `deleteCourse`, if any. */
    method DeleteCourse(courseId: Option<int>, confirmed: bool, outcome: Outcome<()>) returns (sent: Option<int>)
      modifies this
      ensures sent == DeleteRequest(old(State()), courseId, confirmed)
      ensures State() == DeleteNext(old(State()), courseId, confirmed, outcome)
    {
      var target := TargetCourseId(courseId, selectedCourseId);
      if !TruthyOptInt(target) || !confirmed {
        return None;
      }
      sent := target;
      if outcome.Succeeded? {
        courses := RemoveById(courses, target.value);
        snackbar := SuccessSnackbar(DELETED);
      } else {
        snackbar := ErrorSnackbar(outcome.message, DELETE_FAILED);
      }
      CourseMenuClose();
    }

    /** `handleSnackbarClose`. */
    method SnackbarClose()
      modifies this
      ensures State() == SnackbarCloseNext(old(State()))
    {
      snackbar := snackbar.(open := false);
    }
  }
}
