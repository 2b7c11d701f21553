/** The four stat cards of the dashboard: the counts with their fallbacks, the number of
    completed assignments and the completion rate. */
module DashboardStats {
  import opened Common
  import opened FrontData

  /** `x || 0` on a count. */
  function OrZero(o: Option<int>): (r: int)
    ensures o.None? ==> r == 0
    ensures o.Some? ==> r == o.value
  {
    if o.Some? && o.value != 0 then o.value else 0
  }

  /** The values the cards show. */
  datatype Cards = Cards(total: int, overdue: int, dueSoon: int, upcoming: int, completed: int, completionRate: int)

  /** `Math.round(x)` for the rational `num / den`, `den > 0`: the nearest integer, halves
      rounded up. */
  function RoundRatio(num: int, den: int): (r: int)
    requires den > 0
    ensures 2 * r * den - den <= 2 * num < 2 * r * den + den
  {
    (2 * num + den) / (2 * den)
  }

  /** `completed / total * 100`, rounded, and 0 without assignments. */
  function CompletionRate(completed: int, total: int): (r: int)
    ensures total <= 0 ==> r == 0
    ensures total > 0 ==> 2 * r * total - total <= 200 * completed < 2 * r * total + total
  {
    if total > 0 then RoundRatio(100 * completed, total) else 0
  }

  /** A positive factor can be cancelled from an inequality. */
  lemma CancelFactor(x: int, y: int, t: int)
    requires t > 0 && x * t <= y * t
    ensures x <= y
  {
  }

  /** A completed count between none and all gives a percentage, and all of them 100. */
  lemma CompletionRateBounds(completed: int, total: int)
    requires 0 <= completed <= total
    ensures 0 <= CompletionRate(completed, total) <= 100
    ensures completed == total && total > 0 ==> CompletionRate(completed, total) == 100
  {
    if total > 0 {
      var r := CompletionRate(completed, total);
      assert (2 * r - 1) * total == 2 * r * total - total;
      assert (2 * r + 1) * total == 2 * r * total + total;
      CancelFactor(-1, 2 * r + 1, total);
      CancelFactor(2 * r - 1, 200, total);
      if completed == total {
        CancelFactor(200, 2 * r + 1, total);
      }
    }
  }

  /** Nothing completed gives the rate 0, whatever the total. */
  lemma NothingCompletedRate(total: int)
    ensures CompletionRate(0, total) == 0
  {
    if total > 0 {
      var r := CompletionRate(0, total);
      assert r > 0 ==> 2 * r * total - total >= total;
      assert r < 0 ==> 2 * r * total + total <= -total;
    }
  }

  /** The cards of a non-null stats object. */
  function StatCards(stats: AssignmentStats): (c: Cards)
    ensures c.completed + c.overdue + c.dueSoon + c.upcoming == c.total
    ensures c.completionRate == CompletionRate(c.completed, c.total)
    ensures c.total == OrZero(stats.totalAssignments) && c.overdue == OrZero(stats.overdue)
            && c.dueSoon == OrZero(stats.dueSoon) && c.upcoming == OrZero(stats.upcoming)
  {
    var total := OrZero(stats.totalAssignments);
    var overdue := OrZero(stats.overdue);
    var dueSoon := OrZero(stats.dueSoon);
    var upcoming := OrZero(stats.upcoming);
    var completed := total - overdue - dueSoon - upcoming;
    Cards(total, overdue, dueSoon, upcoming, completed, CompletionRate(completed, total))
  }

  /** When the three buckets add up to the total, nothing counts as completed and the rate
      is 0. */
  lemma PartitionedStatsCompleteNothing(stats: AssignmentStats)
    requires OrZero(stats.overdue) + OrZero(stats.dueSoon) + OrZero(stats.upcoming) == OrZero(stats.totalAssignments)
    ensures StatCards(stats).completed == 0
    ensures StatCards(stats).completionRate == 0
  {
    NothingCompletedRate(StatCards(stats).total);
  }
}
