/** The assignment list of a course page: a four-way status chip and a remaining-time
    caption from the rounded-up day difference, a due-date sort in the selected direction,
    and the label of the draft status chip. */
module CourseAssignmentList {
  import opened Common
  import opened Strings
  import opened FrontData
  import opened FrontOrder

  /** The chip `variant`. */
  datatype Variant = Filled | Outlined

  /** The four chips of `getAssignmentStatus`. */
  datatype CourseStatus = Overdue | DueSoon | ThisWeek | Upcoming {
    function Label(): string {
      match this
      case Overdue => "Overdue"
      case DueSoon => "Due Soon"
      case ThisWeek => "This Week"
      case Upcoming => "Upcoming"
    }

    function Variant(): Variant {
      match this
      case Overdue => Filled
      case DueSoon => Filled
      case ThisWeek => Outlined
      case Upcoming => Outlined
    }
  }

  /** `getAssignmentStatus` on the rounded-up day difference. */
  function GetAssignmentStatus(a: Assignment, nowMs: int): (s: CourseStatus) {
    var diffDays := DiffDays(a.dueDate, nowMs);
    if diffDays < 0 then Overdue
    else if diffDays <= 3 then DueSoon
    else if diffDays <= 7 then ThisWeek
    else Upcoming
  }

  /** On the instant, the four chips cover four consecutive intervals: a whole day or more
      past due, up to three days ahead, up to seven, beyond; the chip is filled exactly for
      an instant at most three days ahead. */
  lemma GetAssignmentStatusIntervals(a: Assignment, nowMs: int)
    ensures var s := GetAssignmentStatus(a, nowMs);
            var delta := a.dueDate - nowMs;
            (s == Overdue <==> delta <= -DAY_MS)
            && (s == DueSoon <==> -DAY_MS < delta <= 3 * DAY_MS)
            && (s == ThisWeek <==> 3 * DAY_MS < delta <= 7 * DAY_MS)
            && (s == Upcoming <==> 7 * DAY_MS < delta)
            && (s.Variant() == Filled <==> delta <= 3 * DAY_MS)
  {
    DiffDaysAtMost(a.dueDate, nowMs, -1);
    DiffDaysAtMost(a.dueDate, nowMs, 3);
    DiffDaysAtMost(a.dueDate, nowMs, 7);
  }

  /** `day${n !== 1 ? 's' : ''}`. */
  function Days(n: int): string {
    if n != 1 then "days" else "day"
  }

  /** The caption of `getTimeRemaining` for a day difference. */
  function TimeRemainingText(diffDays: int): string {
    if diffDays < 0 then IntToString(Abs(diffDays)) + " " + Days(Abs(diffDays)) + " overdue"
    else if diffDays == 0 then "Due today"
    else if diffDays == 1 then "Due tomorrow"
    else "Due in " + IntToString(diffDays) + " " + Days(diffDays)
  }

  /** `getTimeRemaining`. */
  function GetTimeRemaining(a: Assignment, nowMs: int): string {
    TimeRemainingText(DiffDays(a.dueDate, nowMs))
  }

  /** The words of an overdue caption. */
  lemma OverdueWords(n: int)
    requires n >= 1
    ensures Split(TimeRemainingText(-n), ' ') == [IntToString(n), if n == 1 then "day" else "days", "overdue"]
  {
    var a, d := IntToString(n), Days(n);
    IntToStringNoSpace(n);
    assert TimeRemainingText(-n) == a + [' '] + d + [' '] + "overdue";
    SplitWords3(a, d, "overdue", ' ');
  }

  /** The words of a caption two or more days ahead. */
  lemma DueInWords(n: int)
    requires n >= 2
    ensures Split(TimeRemainingText(n), ' ') == ["Due", "in", IntToString(n), "days"]
  {
    var a := IntToString(n);
    IntToStringNoSpace(n);
    assert TimeRemainingText(n) == "Due" + [' '] + "in" + [' '] + a + [' '] + "days";
    SplitWords4("Due", "in", a, "days", ' ');
  }

  /** The caption of an overdue assignment starts with the number of days, followed by
      "day" exactly when that number is 1 and by "days" otherwise; a future one reads
      "Due in" and its number of days, always plural from two days on. */
  lemma GetTimeRemainingWords(a: Assignment, nowMs: int)
    ensures var d := DiffDays(a.dueDate, nowMs);
            var r := GetTimeRemaining(a, nowMs);
            (d < 0 ==> Split(r, ' ') == [IntToString(-d), if d == -1 then "day" else "days", "overdue"])
            && (d == 0 ==> r == "Due today")
            && (d == 1 ==> r == "Due tomorrow")
            && (d >= 2 ==> Split(r, ' ') == ["Due", "in", IntToString(d), "days"])
  {
    var d := DiffDays(a.dueDate, nowMs);
    if d < 0 {
      OverdueWords(-d);
    } else if d >= 2 {
      DueInWords(d);
    }
  }

  function DueDateOf(a: Assignment): int { a.dueDate }

  /** `sortedAssignments`: a copy sorted by `dateA - dateB`, or by `dateB - dateA` for
      descending, which is the negated comparison. */
  function SortedAssignments(items: seq<Assignment>, order: SortOrder): seq<Assignment> {
    SortCopy(items, KeyDifference(DueDateOf), order)
  }

  /** The sorted copy is a permutation of the course's assignments in due order, earliest
      first for ascending and latest first for descending. */
  lemma SortedAssignmentsSpec(items: seq<Assignment>, order: SortOrder)
    ensures var r := SortedAssignments(items, order);
            |r| == |items| && multiset(r) == multiset(items)
            && (order == Asc ==> forall i, j :: 0 <= i < j < |r| ==> r[i].dueDate <= r[j].dueDate)
            && (order == Desc ==> forall i, j :: 0 <= i < j < |r| ==> r[i].dueDate >= r[j].dueDate)
  {
    SortByIntKey(items, DueDateOf, order);
    var r := SortedAssignments(items, order);
    assert forall i, j :: 0 <= i < j < |r| ==> IntKeyOrdered(DueDateOf, order, r[i], r[j]);
  }

  /** The label `getStatusChip` renders for an optional status string. */
  function GetStatusChipLabel(status: Option<string>): (r: string)
    ensures r == "Feedback ready" <==> status == Some("feedback_ready")
    ensures r == "Draft saved" <==> status == Some("draft_saved")
    ensures r == "No draft" <==> status != Some("feedback_ready") && status != Some("draft_saved")
  {
    if status == Some("feedback_ready") then "Feedback ready"
    else if status == Some("draft_saved") then "Draft saved"
    else "No draft"
  }
}
