/** The course-page assignment helpers: a mock draft status and the day count derived from
    the due instant, their display information, and the sort of the course's assignment
    cards. Both derivations read the clock; here they read the same `now`. */
module AssignmentUtils {
  import opened Common
  import opened Strings
  import opened Seqs
  import opened FrontData
  import opened FrontOrder

  /** `AssignmentStatus`. */
  datatype AssignmentStatus = NoDraft | DraftSaved | FeedbackReady {
    function Name(): string {
      match this
      case NoDraft => "no_draft"
      case DraftSaved => "draft_saved"
      case FeedbackReady => "feedback_ready"
    }

    /** `statusOrder[status]` in `sortAssignments`. */
    function Rank(): nat {
      match this
      case NoDraft => 0
      case DraftSaved => 1
      case FeedbackReady => 2
    }
  }

  /** `calculateAssignmentStatus`: feedback is "ready" more than five days after the due
      day, a draft is "saved" from then until the day after tomorrow, and there is no draft
      for an assignment due later still. On the instant: feedback ready at six whole days
      past due or more, draft saved up to one day ahead. */
  function CalculateAssignmentStatus(a: Assignment, nowMs: int): (s: AssignmentStatus)
    ensures s == FeedbackReady <==> a.dueDate - nowMs <= -6 * DAY_MS
    ensures s == DraftSaved <==> -6 * DAY_MS < a.dueDate - nowMs <= DAY_MS
    ensures s == NoDraft <==> a.dueDate - nowMs > DAY_MS
  {
    DiffDaysAtMost(a.dueDate, nowMs, -6);
    DiffDaysAtMost(a.dueDate, nowMs, 1);
    var diffDays := DiffDays(a.dueDate, nowMs);
    if diffDays < -5 then FeedbackReady
    else if diffDays < 2 then DraftSaved
    else NoDraft
  }

  /** The `{ daysUntilDue, isOverdue }` of `calculateDueDateInfo`. */
  datatype DueDateInfo = DueDateInfo(daysUntilDue: int, isOverdue: bool)

  /** `calculateDueDateInfo`: the rounded-up day difference, and overdue when it is
      negative, which on the instant means a whole day or more past due. An assignment due
      within the last day is not overdue. */
  function CalculateDueDateInfo(a: Assignment, nowMs: int): (r: DueDateInfo)
    ensures (r.daysUntilDue - 1) * DAY_MS < a.dueDate - nowMs <= r.daysUntilDue * DAY_MS
    ensures r.isOverdue <==> a.dueDate - nowMs <= -DAY_MS
    ensures r.isOverdue <==> r.daysUntilDue < 0
  {
    DiffDaysAtMost(a.dueDate, nowMs, -1);
    var diffDays := DiffDays(a.dueDate, nowMs);
    DueDateInfo(diffDays, diffDays < 0)
  }

  /** `AssignmentWithStatus`: the assignment's own fields, kept as they are, plus the three
      derived ones. */
  datatype AssignmentWithStatus = AssignmentWithStatus(
    assignment: Assignment, status: AssignmentStatus, daysUntilDue: int, isOverdue: bool)

  /** `transformAssignmentWithStatus`. */
  function TransformAssignmentWithStatus(a: Assignment, nowMs: int): (r: AssignmentWithStatus)
    ensures r.assignment == a
  {
    var info := CalculateDueDateInfo(a, nowMs);
    AssignmentWithStatus(a, CalculateAssignmentStatus(a, nowMs), info.daysUntilDue, info.isOverdue)
  }

  /** The mock status agrees with the day count it sits beside: feedback is ready only
      for an overdue assignment six or more days past due, a saved draft covers from five
      days past due to tomorrow, and "no draft" only for an assignment two or more days
      ahead. */
  lemma TransformedStatusConsistent(a: Assignment, nowMs: int)
    ensures var r := TransformAssignmentWithStatus(a, nowMs);
            (r.status == FeedbackReady <==> r.daysUntilDue <= -6)
            && (r.status == DraftSaved <==> -5 <= r.daysUntilDue <= 1)
            && (r.status == NoDraft <==> r.daysUntilDue >= 2)
            && (r.status == FeedbackReady ==> r.isOverdue)
            && (r.status == NoDraft ==> !r.isOverdue)
  {
    var d := DiffDays(a.dueDate, nowMs);
    DiffDaysAtMost(a.dueDate, nowMs, -6);
    DiffDaysAtMost(a.dueDate, nowMs, 1);
  }

  /** The `{ label, color, bgcolor, priority }` of `getStatusDisplayInfo`; `label` is a Dafny keyword. */
  datatype StatusDisplayInfo = StatusDisplayInfo(chipLabel: string, color: string, bgcolor: string, priority: int)

  /** `rgba(${colour}, 0.1)`. */
  function Tint(colour: string): string {
    "rgba(" + colour + ", 0.1)"
  }

  /** `getStatusDisplayInfo` on the status string: the three known statuses have their
      labels and tints, anything else is "Unknown" with the grey tint. */
  function GetStatusDisplayInfo(status: string, theme: Theme): (r: StatusDisplayInfo)
    ensures status == NoDraft.Name() ==> r == StatusDisplayInfo("No draft", theme.textSecondary, Tint(theme.grey500), 0)
    ensures status == DraftSaved.Name() ==> r == StatusDisplayInfo("Draft saved", theme.warningMain, Tint(theme.warningMain), 1)
    ensures status == FeedbackReady.Name() ==> r == StatusDisplayInfo("Feedback ready", theme.successMain, Tint(theme.successMain), 2)
    ensures status != NoDraft.Name() && status != DraftSaved.Name() && status != FeedbackReady.Name() ==>
              r == StatusDisplayInfo("Unknown", theme.textSecondary, Tint(theme.grey500), 0)
  {
    if status == "no_draft" then StatusDisplayInfo("No draft", theme.textSecondary, Tint(theme.grey500), 0)
    else if status == "draft_saved" then StatusDisplayInfo("Draft saved", theme.warningMain, Tint(theme.warningMain), 1)
    else if status == "feedback_ready" then StatusDisplayInfo("Feedback ready", theme.successMain, Tint(theme.successMain), 2)
    else StatusDisplayInfo("Unknown", theme.textSecondary, Tint(theme.grey500), 0)
  }

  /** The displayed priority of a status is the rank the status sort uses, so the statuses
      get distinct priorities. */
  lemma PriorityIsSortRank(s: AssignmentStatus, t: AssignmentStatus, theme: Theme)
    ensures GetStatusDisplayInfo(s.Name(), theme).priority == s.Rank()
    ensures GetStatusDisplayInfo(s.Name(), theme).priority == GetStatusDisplayInfo(t.Name(), theme).priority <==> s == t
  {
  }

  /** The `severity` of `getDueDateDisplayInfo`. */
  datatype Severity = High | Medium | Low | NoSeverity {
    function Name(): string {
      match this
      case High => "high"
      case Medium => "medium"
      case Low => "low"
      case NoSeverity => "none"
    }
  }

  /** The `{ text, color, urgent, severity }` of `getDueDateDisplayInfo`. */
  datatype DueDateDisplayInfo = DueDateDisplayInfo(text: string, color: string, urgent: bool, severity: Severity)

  /** `Due in ${days} days`. */
  function DueIn(days: int): string {
    "Due in " + IntToString(days) + " days"
  }

  /** `getDueDateDisplayInfo`: overdue first, then the day count 0, 1, up to 7 and beyond. */
  function GetDueDateDisplayInfo(a: AssignmentWithStatus, theme: Theme): (r: DueDateDisplayInfo)
    ensures r.urgent <==> a.isOverdue || a.daysUntilDue == 0 || a.daysUntilDue == 1
    ensures a.isOverdue ==> r == DueDateDisplayInfo(IntToString(Abs(a.daysUntilDue)) + " days overdue", theme.errorMain, true, High)
    ensures !a.isOverdue && a.daysUntilDue == 0 ==> r == DueDateDisplayInfo("Due today", theme.warningMain, true, High)
    ensures !a.isOverdue && a.daysUntilDue == 1 ==> r == DueDateDisplayInfo("Due tomorrow", theme.warningMain, true, Medium)
    ensures !a.isOverdue && a.daysUntilDue != 0 && a.daysUntilDue != 1 ==> r.text == DueIn(a.daysUntilDue)
    ensures r.severity == NoSeverity <==> !a.isOverdue && a.daysUntilDue > 7
  {
    if a.isOverdue then DueDateDisplayInfo(IntToString(Abs(a.daysUntilDue)) + " days overdue", theme.errorMain, true, High)
    else if a.daysUntilDue == 0 then DueDateDisplayInfo("Due today", theme.warningMain, true, High)
    else if a.daysUntilDue == 1 then DueDateDisplayInfo("Due tomorrow", theme.warningMain, true, Medium)
    else if a.daysUntilDue <= 7 then DueDateDisplayInfo(DueIn(a.daysUntilDue), theme.infoMain, false, Low)
    else DueDateDisplayInfo(DueIn(a.daysUntilDue), theme.textSecondary, false, NoSeverity)
  }

  /** On a transformed assignment the severity is a function of the day count alone:
      high up to today, medium for tomorrow, low for two to seven days and none beyond. */
  lemma SeverityByDays(a: Assignment, nowMs: int, theme: Theme)
    ensures var t := TransformAssignmentWithStatus(a, nowMs);
            var s := GetDueDateDisplayInfo(t, theme).severity;
            (s == High <==> t.daysUntilDue <= 0)
            && (s == Medium <==> t.daysUntilDue == 1)
            && (s == Low <==> 2 <= t.daysUntilDue <= 7)
            && (s == NoSeverity <==> t.daysUntilDue > 7)
  {
    var t := TransformAssignmentWithStatus(a, nowMs);
    assert t.isOverdue <==> t.daysUntilDue < 0;
  }

  /** The keys of `sortAssignments`. */
  datatype SortKey = ByDueDate | ByTitle | ByStatus

  function DueDateOf(a: AssignmentWithStatus): int { a.assignment.dueDate }
  function TitleOf(a: AssignmentWithStatus): string { a.assignment.title }
  function StatusRankOf(a: AssignmentWithStatus): int { a.status.Rank() }

  /** The comparison of `sortAssignments` for a key, before the order is applied. */
  function Comparison(sortBy: SortKey): (AssignmentWithStatus, AssignmentWithStatus) -> int {
    match sortBy
    case ByDueDate => KeyDifference(DueDateOf)
    case ByTitle => KeyLocaleCompare(TitleOf)
    case ByStatus => KeyDifference(StatusRankOf)
  }

  /** `sortAssignments`: a sorted copy. */
  function SortAssignments(items: seq<AssignmentWithStatus>, sortBy: SortKey, order: SortOrder): seq<AssignmentWithStatus> {
    SortCopy(items, Comparison(sortBy), order)
  }

  /** The sorted copy is a permutation of the items; by due date it is ordered by the
      instant, by title in `localeCompare` order and by status in the order no draft, draft
      saved, feedback ready, each reversed for a descending order. */
  lemma SortAssignmentsSpec(items: seq<AssignmentWithStatus>, sortBy: SortKey, order: SortOrder)
    ensures var r := SortAssignments(items, sortBy, order);
            |r| == |items| && multiset(r) == multiset(items)
            && (sortBy == ByDueDate ==> forall i, j :: 0 <= i < j < |r| ==> IntKeyOrdered(DueDateOf, order, r[i], r[j]))
            && (sortBy == ByTitle ==> forall i, j :: 0 <= i < j < |r| ==> StrKeyOrdered(TitleOf, order, r[i], r[j]))
            && (sortBy == ByStatus ==> forall i, j :: 0 <= i < j < |r| ==> IntKeyOrdered(StatusRankOf, order, r[i], r[j]))
  {
    match sortBy
    case ByDueDate => SortByIntKey(items, DueDateOf, order);
    case ByTitle => SortByStrKey(items, TitleOf, order);
    case ByStatus => SortByIntKey(items, StatusRankOf, order);
  }
}
