/** The due-date arithmetic of the backend: instants are integers in microseconds, and an
    assignment's due instant is placed relative to `now` and `now + 7 days`. */
module Due {

  const SECOND_US: int := 1000000
  /** `timedelta(days=1)`. */
  const DAY_US: int := 86400 * SECOND_US
  /** `timedelta(days=7)`: the width of the "due soon" window. */
  const SOON_WINDOW_US: int := 7 * DAY_US

  /** `due_date < now`. */
  predicate IsOverdue(due: int, now: int) {
    due < now
  }

  /** `due_date >= now and due_date <= now + 7 days`: both ends belong to the window. */
  predicate IsDueSoon(due: int, now: int) {
    now <= due <= now + SOON_WINDOW_US
  }

  /** `due_date > now + 7 days`. */
  predicate IsUpcoming(due: int, now: int) {
    due > now + SOON_WINDOW_US
  }

  /** `due_date > now`: the condition of the upcoming-assignments query, weaker than
      `IsUpcoming` (it includes the "due soon" window except its start). */
  predicate IsAfterNow(due: int, now: int) {
    due > now
  }

  datatype Bucket = Overdue | DueSoon | Upcoming

  /** The bucket of a due instant. */
  function BucketOf(due: int, now: int): (b: Bucket)
    ensures b == Overdue <==> IsOverdue(due, now)
    ensures b == DueSoon <==> IsDueSoon(due, now)
    ensures b == Upcoming <==> IsUpcoming(due, now)
  {
    if due < now then Overdue else if due <= now + SOON_WINDOW_US then DueSoon else Upcoming
  }

  /** Exactly one bucket holds. */
  lemma BucketsPartition(due: int, now: int)
    ensures IsOverdue(due, now) || IsDueSoon(due, now) || IsUpcoming(due, now)
    ensures !(IsOverdue(due, now) && IsDueSoon(due, now))
    ensures !(IsOverdue(due, now) && IsUpcoming(due, now))
    ensures !(IsDueSoon(due, now) && IsUpcoming(due, now))
  {
  }

  /** `timedelta.days`: the number of whole days, rounded towards negative infinity. */
  function FloorDays(delta: int): (d: int)
    ensures d * DAY_US <= delta < (d + 1) * DAY_US
  {
    delta / DAY_US
  }

  /** Whole days are negative exactly when the delta is. */
  lemma FloorDaysNegative(delta: int)
    ensures FloorDays(delta) < 0 <==> delta < 0
  {
  }
}
