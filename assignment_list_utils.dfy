/** The list-item helpers of the assignment list: the border and background colour of an
    item's card and the remaining-time caption. All three start from the item's due-date
    status or from the day count the backend sent with it. */
module AssignmentListUtils {
  import opened Common
  import opened Strings
  import opened FrontData
  import opened AssignmentService

  /** `getPriorityBorder`: red for overdue, amber for due soon, grey otherwise. */
  function GetPriorityBorder(item: AssignmentListItem): (r: string)
    ensures r == "error.main" <==> GetDueDateStatus(item) == Overdue
    ensures r == "warning.main" <==> GetDueDateStatus(item) == DueSoon
    ensures r == "grey.200" <==> GetDueDateStatus(item) == Upcoming
  {
    var status := GetDueDateStatus(item).Name();
    if status == "overdue" then "error.main"
    else if status == "due-soon" then "warning.main"
    else "grey.200"
  }

  /** The border follows the chip colour of the same item. */
  lemma BorderMatchesColor(item: AssignmentListItem)
    ensures GetPriorityBorder(item) == "error.main" <==> GetDueDateColor(GetDueDateStatus(item).Name()) == ErrorColor
    ensures GetPriorityBorder(item) == "warning.main" <==> GetDueDateColor(GetDueDateStatus(item).Name()) == WarningColor
    ensures GetPriorityBorder(item) == "grey.200" <==> GetDueDateColor(GetDueDateStatus(item).Name()) == SuccessColor
  {
  }

  /** `rgba(${colour}, 0.02)`. */
  function Tint(colour: string): (r: string)
    ensures r != "transparent"
  {
    assert ("rgba(" + colour + ", 0.02)")[0] == 'r';
    "rgba(" + colour + ", 0.02)"
  }

  /** `getPriorityBackground`: a faint tint of the theme's error or warning colour, and
      transparent exactly for an upcoming item. */
  function GetPriorityBackground(item: AssignmentListItem, theme: Theme): (r: string)
    ensures GetDueDateStatus(item) == Overdue ==> r == Tint(theme.errorMain)
    ensures GetDueDateStatus(item) == DueSoon ==> r == Tint(theme.warningMain)
    ensures r == "transparent" <==> GetDueDateStatus(item) == Upcoming
  {
    var status := GetDueDateStatus(item).Name();
    if status == "overdue" then Tint(theme.errorMain)
    else if status == "due-soon" then Tint(theme.warningMain)
    else "transparent"
  }

  /** A card has a transparent background exactly when it has the grey border. */
  lemma BackgroundMatchesBorder(item: AssignmentListItem, theme: Theme)
    ensures GetPriorityBackground(item, theme) == "transparent" <==> GetPriorityBorder(item) == "grey.200"
  {
  }

  const DAYS_OVERDUE_SUFFIX: string := " days overdue"
  const DAYS_LEFT_SUFFIX: string := " days left"
  const DUE_TODAY: string := "Due today"

  /** `formatTimeRemaining`: nothing when the day count is `undefined`; the magnitude of
      the count and "days overdue" for an overdue item (`Math.abs(null)` is 0); "Due today"
      for a count of 0; otherwise the count as the template writes it and "days left". */
  function FormatTimeRemaining(item: AssignmentListItem): (r: string)
    ensures r == "" <==> item.daysUntilDue.Undefined?
  {
    if item.daysUntilDue.Undefined? then ""
    else if item.isOverdue then IntToString(Abs(item.daysUntilDue.ToNumber())) + DAYS_OVERDUE_SUFFIX
    else if item.daysUntilDue == Num(0) then DUE_TODAY
    else item.daysUntilDue.Text() + DAYS_LEFT_SUFFIX
  }

  /** The caption's first word is the number it reports, so a caption gives the day count
      back: the count itself ("days left") or its magnitude ("days overdue"); a `null`
      count reads as 0 days overdue, or as "null days left". */
  lemma FormatTimeRemainingNumber(item: AssignmentListItem)
    requires !item.daysUntilDue.Undefined?
    ensures var d := item.daysUntilDue.ToNumber();
            var r := FormatTimeRemaining(item);
            (item.isOverdue ==> BeforeFirst(r, ' ') == IntToString(Abs(d)) && r[|BeforeFirst(r, ' ')|..] == DAYS_OVERDUE_SUFFIX)
            && (!item.isOverdue && item.daysUntilDue == Num(0) ==> r == DUE_TODAY)
            && (!item.isOverdue && item.daysUntilDue.Num? && d != 0 ==>
                  BeforeFirst(r, ' ') == IntToString(d) && r[|BeforeFirst(r, ' ')|..] == DAYS_LEFT_SUFFIX)
            && (!item.isOverdue && item.daysUntilDue.Null? ==> r == "null" + DAYS_LEFT_SUFFIX)
  {
    var d := item.daysUntilDue.ToNumber();
    if item.isOverdue {
      IntToStringNoSpace(Abs(d));
      BeforeFirstSuffix(IntToString(Abs(d)), ' ', DAYS_OVERDUE_SUFFIX);
    } else if item.daysUntilDue.Num? && d != 0 {
      IntToStringNoSpace(d);
      BeforeFirstSuffix(IntToString(d), ' ', DAYS_LEFT_SUFFIX);
    }
  }

  /** Two non-overdue items with a non-zero day count get the same caption only when
      their counts agree. */
  lemma FormatTimeRemainingInjective(a: AssignmentListItem, b: AssignmentListItem)
    requires a.daysUntilDue.Num? && b.daysUntilDue.Num? && !a.isOverdue && !b.isOverdue
    requires a.daysUntilDue.n != 0 && b.daysUntilDue.n != 0
    requires FormatTimeRemaining(a) == FormatTimeRemaining(b)
    ensures a.daysUntilDue == b.daysUntilDue
  {
    FormatTimeRemainingNumber(a);
    FormatTimeRemainingNumber(b);
    IntToStringInjective(a.daysUntilDue.n, b.daysUntilDue.n);
  }
}
