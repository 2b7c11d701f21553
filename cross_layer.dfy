/** How the two layers read the same assignment: the frontend's due-date status of an item
    the backend serialised, and the due-date checks both layers make of a new assignment.
    Backend instants are microseconds, frontend instants milliseconds. */
module CrossLayer {
  import opened Common
  import opened Due
  import AssignmentSchemas
  import AssignmentService
  import AssignmentDialog
  import AssignmentListUtils
  import Strings

  /** The list item the frontend receives for an assignment due at `dueUs`, serialised at
      `nowUs`: the computed `is_overdue` and `days_until_due` as the backend fills them, a
      missing count written as JSON `null`. The column is naive, so `due_date` is sent
      without a zone and `new Date` reads it in the browser's zone, `offsetMs` ahead of UTC. */
  function ReceivedItem(id: int, title: string, courseId: int, dueUs: int, nowUs: int, offsetMs: int)
    : (r: AssignmentService.AssignmentListItem)
    ensures r.isOverdue <==> IsOverdue(dueUs, nowUs)
    ensures !r.daysUntilDue.Undefined?
    ensures r.daysUntilDue.Null? <==> AssignmentSchemas.DaysUntilDue(dueUs, nowUs).None?
    ensures r.daysUntilDue.Num? ==> AssignmentSchemas.DaysUntilDue(dueUs, nowUs) == Some(r.daysUntilDue.n)
    ensures r.dueDate + offsetMs == dueUs / 1000
  {
    var days := AssignmentSchemas.DaysUntilDue(dueUs, nowUs);
    AssignmentService.AssignmentListItem(id, title, dueUs / 1000 - offsetMs, courseId, dueUs < nowUs,
                                         if days.None? then AssignmentService.Null else AssignmentService.Num(days.value))
  }

  /** Every overdue item the backend serves reads "0 days overdue": its count is `null`,
      which passes the `=== undefined` test, and `Math.abs(null)` is 0. An item still due
      reads "Due today" on its last day and the backend's whole days otherwise. */
  lemma ServedCaption(id: int, title: string, courseId: int, dueUs: int, nowUs: int, offsetMs: int)
    ensures var caption := AssignmentListUtils.FormatTimeRemaining(ReceivedItem(id, title, courseId, dueUs, nowUs, offsetMs));
            var days := AssignmentSchemas.DaysUntilDue(dueUs, nowUs);
            (dueUs < nowUs ==> caption == "0 days overdue")
            && (days == Some(0) ==> caption == "Due today")
            && (days.Some? && days.value != 0 ==> caption == Strings.IntToString(days.value) + " days left")
  {
    if dueUs < nowUs {
      assert Strings.IntToString(0) == "0";
    }
  }

  /** On a served item the frontend's status is overdue exactly when the backend's bucket
      is, and due soon exactly when the due instant lies less than four days ahead; so the
      frontend's due-soon window is a strict part of the backend's seven-day one. */
  lemma {:induction false} FrontStatusOfServedItem(id: int, title: string, courseId: int, dueUs: int, nowUs: int, offsetMs: int)
    ensures var s := AssignmentService.GetDueDateStatus(ReceivedItem(id, title, courseId, dueUs, nowUs, offsetMs));
            (s == AssignmentService.Overdue <==> BucketOf(dueUs, nowUs) == Overdue)
            && (s == AssignmentService.DueSoon <==> nowUs <= dueUs < nowUs + 4 * DAY_US)
            && (s == AssignmentService.DueSoon ==> BucketOf(dueUs, nowUs) == DueSoon)
  {
    var d := AssignmentSchemas.DaysUntilDue(dueUs, nowUs);
    if d.Some? {
      assert d.value <= 3 <==> dueUs - nowUs < 4 * DAY_US by {
        if d.value <= 3 {
          assert (d.value + 1) * DAY_US <= 4 * DAY_US;
        } else {
          assert 4 * DAY_US <= d.value * DAY_US;
        }
      }
    }
  }

  /** An assignment due in five days: the backend counts it as due soon, the frontend's
      status of the same item is upcoming. */
  lemma DueSoonWindowsDiffer(nowUs: int, offsetMs: int)
    ensures BucketOf(nowUs + 5 * DAY_US, nowUs) == DueSoon
    ensures AssignmentService.GetDueDateStatus(ReceivedItem(1, "a", 1, nowUs + 5 * DAY_US, nowUs, offsetMs)) == AssignmentService.Upcoming
  {
    FrontStatusOfServedItem(1, "a", 1, nowUs + 5 * DAY_US, nowUs, offsetMs);
  }

  /** A due date equal to the current instant: the dialog refuses an otherwise complete
      form with it, while the backend validator accepts the same instant. */
  lemma DueNowDiffers(form: AssignmentDialog.DialogForm, nowMs: int)
    requires !Strings.AllSpace(form.title) && !Strings.AllSpace(form.prompt) && form.courseId != 0
    requires form.dueDate == nowMs
    ensures AssignmentDialog.ValidateForm(form, nowMs) == AssignmentDialog.Invalid(AssignmentDialog.DUE_IN_FUTURE)
    ensures AssignmentSchemas.ValidateDueDate(AssignmentSchemas.DateTimeIn(nowMs * 1000, None), nowMs * 1000).Ok?
  {
  }

  /** Every instant after now that the dialog lets through also passes the backend
      validator: the frontend check is the stricter one. */
  lemma DialogStricterThanBackend(form: AssignmentDialog.DialogForm, nowMs: int)
    requires AssignmentDialog.ValidateForm(form, nowMs) == AssignmentDialog.Valid
    ensures AssignmentSchemas.ValidateDueDate(AssignmentSchemas.DateTimeIn(form.dueDate * 1000, None), nowMs * 1000).Ok?
  {
  }
}
