/** The dashboard's upcoming-assignments card: the due caption of each item, its border
    colour and status chip, and the name of the course it belongs to. */
module UpcomingAssignments {
  import opened Common
  import opened Strings
  import opened FrontData
  import opened AssignmentService
  import AssignmentListUtils
  import CourseAssignmentList

  const UNKNOWN_COURSE: string := "Unknown Course"

  /** The caption of `formatDueDateMessage` for a day difference. */
  function DueDateMessageText(diffDays: int): string {
    if diffDays < 0 then IntToString(Abs(diffDays)) + " days overdue"
    else if diffDays == 0 then "Due today"
    else if diffDays == 1 then "Due tomorrow"
    else "Due in " + IntToString(diffDays) + " days"
  }

  /** `formatDueDateMessage`: the caption of the rounded-up day difference between the
      item's due instant and now. */
  function FormatDueDateMessage(item: AssignmentListItem, nowMs: int): string {
    DueDateMessageText(DiffDays(item.dueDate, nowMs))
  }

  /** The dashboard caption is the course page's caption for every day difference but one:
      a single day overdue reads "1 days overdue" here and "1 day overdue" there. */
  lemma MessageAgreesWithCoursePage(diffDays: int)
    ensures DueDateMessageText(diffDays) == CourseAssignmentList.TimeRemainingText(diffDays) <==> diffDays != -1
  {
    var n := IntToString(Abs(diffDays));
    if diffDays == -1 {
      assert |DueDateMessageText(diffDays)| == |n| + 13;
      assert |CourseAssignmentList.TimeRemainingText(diffDays)| == |n| + 12;
    } else if diffDays < 0 {
      assert n + " " + "days" + " overdue" == n + " days overdue";
    } else if diffDays >= 2 {
      assert "Due in " + n + " " + "days" == "Due in " + n + " days";
    }
  }

  /** The caption names today for an instant up to a day ahead and after now, tomorrow for one
      more day, and otherwise its whole number of days. */
  lemma FormatDueDateMessageIntervals(item: AssignmentListItem, nowMs: int)
    ensures var delta := item.dueDate - nowMs;
            var r := FormatDueDateMessage(item, nowMs);
            (r == "Due today" <==> -DAY_MS < delta <= 0)
            && (r == "Due tomorrow" <==> 0 < delta <= DAY_MS)
  {
    var d := DiffDays(item.dueDate, nowMs);
    DiffDaysExactly(item.dueDate, nowMs, 0);
    DiffDaysExactly(item.dueDate, nowMs, 1);
    var r := FormatDueDateMessage(item, nowMs);
    if d < 0 {
      assert r[|r| - 1] == ("days overdue")[11];
    } else if d >= 2 {
      assert r[|r| - 1] == 's';
    }
  }

  /** The card's own `getPriorityBorder`. */
  function GetPriorityBorder(item: AssignmentListItem): (r: string)
    ensures r == "error.main" <==> GetDueDateStatus(item) == Overdue
    ensures r == "warning.main" <==> GetDueDateStatus(item) == DueSoon
    ensures r == "grey.200" <==> GetDueDateStatus(item) == Upcoming
  {
    var status := GetDueDateStatus(item).Name();
    if status == "overdue" then "error.main"
    else if status == "due-soon" then "warning.main"
    else "grey.200"
  }

  /** It is the border of the assignment list. */
  lemma BorderAgreesWithList(item: AssignmentListItem)
    ensures GetPriorityBorder(item) == AssignmentListUtils.GetPriorityBorder(item)
  {
  }

  /** The label of the status chip. */
  function ChipLabel(item: AssignmentListItem): (r: string)
    ensures r == "Overdue" <==> item.isOverdue
    ensures r == "Due Soon" <==> GetDueDateStatus(item) == DueSoon
    ensures r == "Upcoming" <==> GetDueDateStatus(item) == Upcoming
  {
    var status := GetDueDateStatus(item).Name();
    if status == "overdue" then "Overdue"
    else if status == "due-soon" then "Due Soon"
    else "Upcoming"
  }

  /** `course?.name || 'Unknown Course'` for the first course with the item's course id. */
  function CourseName(courses: seq<Course>, item: AssignmentListItem): (r: string)
    ensures (forall i :: 0 <= i < |courses| ==> courses[i].id != item.courseId) ==> r == UNKNOWN_COURSE
    ensures r != UNKNOWN_COURSE ==> exists k :: 0 <= k < |courses| && courses[k].id == item.courseId
                                     && courses[k].name == r
                                     && forall j :: 0 <= j < k ==> courses[j].id != item.courseId
  {
    match FindCourse(courses, item.courseId)
    case None => UNKNOWN_COURSE
    case Some(c) => if c.name != "" then c.name else UNKNOWN_COURSE
  }

  /** A course with the item's id and a name lends that name; a course named "" falls back
      to the placeholder as a missing one does. */
  lemma CourseNameOfFirst(courses: seq<Course>, item: AssignmentListItem, k: int)
    requires 0 <= k < |courses| && courses[k].id == item.courseId
    requires forall j :: 0 <= j < k ==> courses[j].id != item.courseId
    ensures CourseName(courses, item) == (if courses[k].name != "" then courses[k].name else UNKNOWN_COURSE)
  {
    var r := FindCourse(courses, item.courseId);
    assert r.Some?;
    var k' :| 0 <= k' < |courses| && courses[k'] == r.value && forall j :: 0 <= j < k' ==> courses[j].id != item.courseId;
    assert k' == k;
  }
}
