/** The application header: the page title and the highlighted navigation entry for the
    current path, the initials in the avatar, and where its menu entries lead. */
module Header {
  import opened Common
  import opened Strings
  import opened FrontData

  const DEFAULT_TITLE: string := "Core Pilot"
  const DEFAULT_INITIALS: string := "CP"
  const DASHBOARD_PATH: string := "/dashboard"
  const ASSIGNMENTS_PATH: string := "/assignments"
  const PROFILE_PATH: string := "/profile"
  const LOGIN_PATH: string := "/login"

  /** `getPageTitle`: the four known pages by name, an assignment's own page by the
      `/assignments/` prefix, any other path by the `title` prop. */
  function GetPageTitle(path: string, title: string): (r: string)
    ensures path == DASHBOARD_PATH ==> r == "Dashboard"
    ensures path == ASSIGNMENTS_PATH ==> r == "Assignments"
    ensures path != ASSIGNMENTS_PATH && StartsWith(path, ASSIGNMENTS_PATH + "/") ==> r == "Assignment Details"
    ensures path == PROFILE_PATH ==> r == "Profile"
    ensures (path != DASHBOARD_PATH && path != ASSIGNMENTS_PATH && !StartsWith(path, ASSIGNMENTS_PATH + "/")
             && path != PROFILE_PATH) ==> r == title
  {
    if path == DASHBOARD_PATH then "Dashboard"
    else if path == ASSIGNMENTS_PATH then "Assignments"
    else if StartsWith(path, "/assignments/") then "Assignment Details"
    else if path == PROFILE_PATH then "Profile"
    else title
  }

  /** `getActiveNavItem`: the assignments entry for every path under `/assignments`, the
      dashboard and the profile only for their exact paths, the dashboard otherwise. */
  function GetActiveNavItem(path: string): (r: string)
    ensures r == "assignments" <==> StartsWith(path, ASSIGNMENTS_PATH)
    ensures r == "profile" <==> path == PROFILE_PATH
    ensures r == "dashboard" <==> !StartsWith(path, ASSIGNMENTS_PATH) && path != PROFILE_PATH
  {
    if path == DASHBOARD_PATH then "dashboard"
    else if StartsWith(path, ASSIGNMENTS_PATH) then "assignments"
    else if path == PROFILE_PATH then "profile"
    else "dashboard"
  }

  /** `words.map(n => n[0]).join('')`: the first character of every word; an empty word
      contributes `undefined`, which `join` writes as nothing. */
  function FirstChars(words: seq<string>): string {
    if words == [] then ""
    else (if words[0] == "" then "" else [words[0][0]]) + FirstChars(words[1..])
  }

  /** At most one character per word, each the first character of a non-empty word. */
  lemma {:induction false} FirstCharsFromWords(words: seq<string>)
    ensures |FirstChars(words)| <= |words|
    ensures var r := FirstChars(words);
            forall k :: 0 <= k < |r| ==> exists i :: 0 <= i < |words| && words[i] != "" && r[k] == words[i][0]
  {
    if words != [] {
      FirstCharsFromWords(words[1..]);
      var head := if words[0] == "" then "" else [words[0][0]];
      var rest := FirstChars(words[1..]);
      var r := FirstChars(words);
      assert r == head + rest;
      forall k | 0 <= k < |r| ensures exists i :: 0 <= i < |words| && words[i] != "" && r[k] == words[i][0] {
        if k < |head| {
          assert r[k] == words[0][0];
        } else {
          assert r[k] == rest[k - |head|];
          var i :| 0 <= i < |words[1..]| && words[1..][i] != "" && rest[k - |head|] == words[1..][i][0];
          assert words[i + 1] == words[1..][i];
        }
      }
    }
  }

  /** The avatar text: the initials of the full name, or "CP" without a name or when the
      name yields no initial. It is never empty and never holds a space. */
  function Initials(fullName: Option<string>): (r: string)
    ensures r != ""
    ensures ' ' !in r
    ensures fullName.None? ==> r == DEFAULT_INITIALS
  {
    if fullName.None? then DEFAULT_INITIALS
    else
      var words := Split(fullName.value, ' ');
      var r := FirstChars(words);
      if r == "" then DEFAULT_INITIALS
      else
        assert ' ' !in r by {
          FirstCharsFromWords(words);
          forall k | 0 <= k < |r| ensures r[k] != ' ' {
            var i :| 0 <= i < |words| && words[i] != "" && r[k] == words[i][0];
            assert ' ' !in words[i];
          }
        }
        r
  }

  /** A name of space-separated words, each non-empty, yields one initial per word, in
      order. */
  lemma {:induction false} InitialsOfWords(words: seq<string>)
    requires |words| >= 1
    requires forall i :: 0 <= i < |words| ==> words[i] != "" && ' ' !in words[i]
    ensures var r := Initials(Some(Join(words, " ")));
            |r| == |words| && forall i :: 0 <= i < |words| ==> r[i] == words[i][0]
  {
    var name := Join(words, " ");
    assert [' '] == " ";
    SplitJoin(words, ' ');
    assert Split(name, ' ') == words;
    FirstCharsOfNonEmpty(words);
  }

  lemma {:induction false} FirstCharsOfNonEmpty(words: seq<string>)
    requires forall i :: 0 <= i < |words| ==> words[i] != ""
    ensures |FirstChars(words)| == |words|
    ensures forall i :: 0 <= i < |words| ==> FirstChars(words)[i] == words[i][0]
  {
    if words != [] {
      FirstCharsOfNonEmpty(words[1..]);
      assert FirstChars(words) == [words[0][0]] + FirstChars(words[1..]);
    }
  }

  /** An empty name, like a missing one, shows "CP". */
  lemma EmptyNameInitials()
    ensures Initials(Some("")) == DEFAULT_INITIALS
  {
    assert Split("", ' ') == [""];
  }

  /** Where the sign-out entry leads: the login page once `signOut` succeeded, nowhere on
      a failure; the menu closes either way. */
  function SignOutNavigation(outcome: Outcome<()>): (r: Option<string>)
    ensures r.Some? <==> outcome.Succeeded?
    ensures r.Some? ==> r.value == LOGIN_PATH
  {
    if outcome.Succeeded? then Some(LOGIN_PATH) else None
  }

  /** The destination of each menu entry, and of the brand, lands on a page whose entry
      the header then highlights. */
  lemma MenuDestinationsHighlighted()
    ensures GetActiveNavItem(DASHBOARD_PATH) == "dashboard"
    ensures GetActiveNavItem(ASSIGNMENTS_PATH) == "assignments"
    ensures GetActiveNavItem(PROFILE_PATH) == "profile"
    ensures GetPageTitle(DASHBOARD_PATH, DEFAULT_TITLE) == "Dashboard"
    ensures GetPageTitle(ASSIGNMENTS_PATH, DEFAULT_TITLE) == "Assignments"
    ensures GetPageTitle(PROFILE_PATH, DEFAULT_TITLE) == "Profile"
  {
  }
}
