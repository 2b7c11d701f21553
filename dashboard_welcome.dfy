/** The welcome banner of the dashboard: a greeting for the hour, the first name of the
    user, and a status line built from the due-soon and overdue counts. */
module DashboardWelcome {
  import opened Common
  import opened Strings
  import opened FrontData

  /** `getGreeting` for `new Date().getHours()`. */
  function GetGreeting(hour: int): (r: string)
    ensures r == "Good morning" <==> hour < 12
    ensures r == "Good afternoon" <==> 12 <= hour < 17
    ensures r == "Good evening" <==> hour >= 17
  {
    if hour < 12 then "Good morning"
    else if hour < 17 then "Good afternoon"
    else "Good evening"
  }

  const READY_MESSAGE: string := "Ready to learn something new today?"
  const CAUGHT_UP_MESSAGE: string := "You're" + " all caught up! Great work staying organized."
  const YOU_HAVE: string := "You have "

  /** `stats.field > 0`: a missing field compares false. */
  predicate Positive(o: Option<int>) {
    o.Some? && o.value > 0
  }

  function DueSoonPart(n: int): string {
    IntToString(n) + " assignments due soon"
  }

  function OverduePart(n: int): string {
    IntToString(n) + " overdue items that need attention"
  }

  /** The parts `getStatusMessage` pushes: due soon first, then overdue, each only for a
      positive count. */
  function StatusParts(stats: AssignmentStats): (parts: seq<string>)
    ensures |parts| == (if Positive(stats.dueSoon) then 1 else 0) + (if Positive(stats.overdue) then 1 else 0)
    ensures Positive(stats.dueSoon) ==> parts[0] == DueSoonPart(stats.dueSoon.value)
    ensures Positive(stats.overdue) ==> parts[|parts| - 1] == OverduePart(stats.overdue.value)
  {
    (if Positive(stats.dueSoon) then [DueSoonPart(stats.dueSoon.value)] else [])
    + (if Positive(stats.overdue) then [OverduePart(stats.overdue.value)] else [])
  }

  /** The status line a stats object yields. */
  function StatusMessage(stats: Option<AssignmentStats>): string {
    if stats.None? then READY_MESSAGE
    else
      var parts := StatusParts(stats.value);
      if |parts| == 0 then CAUGHT_UP_MESSAGE else YOU_HAVE + Join(parts, " and ") + "."
  }

  /** `getStatusMessage`: the `messages` array filled by `push`, then joined. */
  method GetStatusMessage(stats: Option<AssignmentStats>) returns (r: string)
    ensures r == StatusMessage(stats)
  {
    if stats.None? {
      return READY_MESSAGE;
    }
    var s := stats.value;
    var messages: seq<string> := [];
    if s.dueSoon.Some? && s.dueSoon.value > 0 {
      messages := messages + [DueSoonPart(s.dueSoon.value)];
    }
    if s.overdue.Some? && s.overdue.value > 0 {
      messages := messages + [OverduePart(s.overdue.value)];
    }
    assert messages == StatusParts(s);
    if |messages| == 0 {
      return CAUGHT_UP_MESSAGE;
    }
    r := YOU_HAVE + Join(messages, " and ") + ".";
  }

  /** Without stats the line invites the user in; with stats it says the user is caught up
      exactly when neither count is positive, and otherwise names the positive counts,
      due soon before overdue. */
  lemma StatusMessageCases(stats: Option<AssignmentStats>)
    ensures stats.None? ==> StatusMessage(stats) == READY_MESSAGE
    ensures stats.Some? ==>
      var s := stats.value;
      (StatusMessage(stats) == CAUGHT_UP_MESSAGE <==> !Positive(s.dueSoon) && !Positive(s.overdue))
      && (Positive(s.dueSoon) && Positive(s.overdue) ==>
            StatusMessage(stats) == YOU_HAVE + DueSoonPart(s.dueSoon.value) + " and " + OverduePart(s.overdue.value) + ".")
      && (Positive(s.dueSoon) && !Positive(s.overdue) ==>
            StatusMessage(stats) == YOU_HAVE + DueSoonPart(s.dueSoon.value) + ".")
      && (!Positive(s.dueSoon) && Positive(s.overdue) ==>
            StatusMessage(stats) == YOU_HAVE + OverduePart(s.overdue.value) + ".")
  {
    if stats.Some? {
      var s := stats.value;
      var parts := StatusParts(s);
      if |parts| > 0 {
        var m := StatusMessage(stats);
        assert m[..|YOU_HAVE|] == YOU_HAVE;
        assert m[3] != CAUGHT_UP_MESSAGE[3];
      }
      if |parts| == 2 {
        JoinCons(parts[0], [parts[1]], " and ");
        assert parts == [parts[0]] + [parts[1]];
      }
    }
  }

  const STUDENT: string := "Student"

  /** `userDisplayName?.split(' ')[0] || 'Student'`; the first piece of the split is
      `BeforeFirst`. */
  function FirstName(displayName: Option<string>): (r: string)
    ensures ' ' !in r
    ensures displayName.Some? && r != STUDENT ==> r <= displayName.value
    ensures displayName.Some? && BeforeFirst(displayName.value, ' ') != "" ==> r == BeforeFirst(displayName.value, ' ')
  {
    if displayName.None? then STUDENT
    else
      var first := BeforeFirst(displayName.value, ' ');
      if first != "" then first else STUDENT
  }

  /** A name that starts with a word greets by that word; a missing name, an empty one or
      one that starts with a space greets "Student". */
  lemma FirstNameCases(displayName: Option<string>, word: string, rest: string)
    ensures displayName.None? ==> FirstName(displayName) == STUDENT
    ensures displayName == Some(word + " " + rest) && word != "" && ' ' !in word ==> FirstName(displayName) == word
    ensures displayName.Some? && (displayName.value == "" || displayName.value[0] == ' ') ==> FirstName(displayName) == STUDENT
  {
    if displayName == Some(word + " " + rest) && word != "" && ' ' !in word {
      BeforeFirstWord(word, ' ', rest);
    }
    if displayName.Some? && displayName.value != "" && displayName.value[0] == ' ' {
      BeforeFirstWord("", ' ', displayName.value[1..]);
      assert [] + [' '] + displayName.value[1..] == displayName.value;
    }
  }
}
