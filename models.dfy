/** The relational store: the five mapped tables (users, courses, assignments, drafts,
    feedback), their column defaults, the constraints the mapping declares (primary keys,
    the unique e-mail, NOT NULL foreign keys) and the ORM's delete cascades.
    Instants are integers in microseconds; `now` is always a parameter. */
module Models {
  import opened Common

  /** Column defaults of the mapping. */
  const DEFAULT_ROLE: string := "student"
  const DEFAULT_IS_ACTIVE: bool := true
  const DEFAULT_DESCRIPTION: string := ""
  const DEFAULT_DRAFT_VERSION: int := 1

  /** A row of `users`. `username` and `hashed_password` are never read or written by the
      modelled code and are not represented. */
  datatype User = User(
    id: nat,
    email: Option<string>,
    fullName: Option<string>,
    photoUrl: Option<string>,
    role: string,
    isActive: bool,
    lastLogin: Option<int>,
    createdAt: int,
    updatedAt: Option<int>)

  /** A row of `courses`; `name`, `term` and `description` are nullable columns, `user_id` is not. */
  datatype Course = Course(
    id: nat,
    name: Option<string>,
    term: Option<string>,
    description: Option<string>,
    userId: nat,
    createdAt: int,
    updatedAt: Option<int>)

  /** A row of `assignments`; `prompt`, `due_date` and `course_id` are NOT NULL. */
  datatype Assignment = Assignment(
    id: nat,
    title: Option<string>,
    description: Option<string>,
    prompt: string,
    dueDate: int,
    courseId: nat,
    createdAt: int,
    updatedAt: Option<int>)

  /** A row of `drafts`; its assignment is optional. */
  datatype Draft = Draft(
    id: nat,
    content: Option<string>,
    version: int,
    assignmentId: Option<nat>,
    createdAt: int,
    updatedAt: Option<int>)

  /** A row of `feedback`; its draft is optional. */
  datatype Feedback = Feedback(
    id: nat,
    content: Option<string>,
    aiFeedbackJson: Option<string>,
    draftId: Option<nat>,
    createdAt: int,
    updatedAt: Option<int>)

  /** At most one user per e-mail address (NULL e-mails do not clash). */
  ghost predicate UniqueEmails(users: map<nat, User>) {
    forall a, b :: a in users && b in users && users[a].email.Some? && users[a].email == users[b].email ==> a == b
  }

  /** Replacing a user by one with the same e-mail keeps e-mails unique. */
  lemma UniqueEmailsReplace(users: map<nat, User>, k: nat, u: User)
    requires UniqueEmails(users) && k in users && u.email == users[k].email
    ensures UniqueEmails(users[k := u])
  {
  }

  /** Adding a user whose e-mail nobody has keeps e-mails unique. */
  lemma UniqueEmailsAdd(users: map<nat, User>, k: nat, u: User)
    requires UniqueEmails(users) && k !in users
    requires u.email.Some? ==> forall j :: j in users ==> users[j].email != u.email
    ensures UniqueEmails(users[k := u])
  {
  }

  /** The rows of a table in primary-key order: the order an unordered query returns and
      the tie order of an ORDER BY. */
  function Rows<T>(m: map<nat, T>, n: nat): seq<T> {
    if n == 0 then [] else Rows(m, n - 1) + (if n - 1 in m then [m[n - 1]] else [])
  }

  /** With every key below `n`, `Rows` lists exactly the stored rows. */
  lemma {:induction false} RowsMembership<T>(m: map<nat, T>, n: nat, x: T)
    ensures x in Rows(m, n) <==> exists k :: k in m && k < n && m[k] == x
  {
    if n > 0 {
      RowsMembership(m, n - 1, x);
      if n - 1 in m && m[n - 1] == x {
        assert x in Rows(m, n);
      }
    }
  }

  lemma RowsValues<T>(m: map<nat, T>, n: nat, x: T)
    requires forall k :: k in m ==> k < n
    ensures x in Rows(m, n) <==> x in m.Values
  {
    RowsMembership(m, n, x);
  }

  /** Distinct keys hold distinct rows, as they do when each row carries its own key. */
  ghost predicate Injective<T>(m: map<nat, T>) {
    forall a, b :: a in m && b in m && m[a] == m[b] ==> a == b
  }

  /** Over an injective table, `Rows` lists each row below `n` exactly once. */
  lemma {:induction false} RowsCount<T>(m: map<nat, T>, n: nat, x: T)
    requires Injective(m)
    ensures multiset(Rows(m, n))[x] == if exists k :: k in m && k < n && m[k] == x then 1 else 0
  {
    if n > 0 {
      RowsCount(m, n - 1, x);
      var tail := if n - 1 in m then [m[n - 1]] else [];
      assert multiset(Rows(m, n))[x] == multiset(Rows(m, n - 1))[x] + multiset(tail)[x];
      if n - 1 in m && m[n - 1] == x {
        assert !exists k :: k in m && k < n - 1 && m[k] == x;
      } else if exists k :: k in m && k < n && m[k] == x {
        var k :| k in m && k < n && m[k] == x;
        assert k < n - 1;
      }
    }
  }

  /** With every key below `n`, `Rows` of an injective table holds each stored row once
      and nothing else. */
  lemma RowsOnce<T>(m: map<nat, T>, n: nat, x: T)
    requires Injective(m) && forall k :: k in m ==> k < n
    ensures multiset(Rows(m, n))[x] == if x in m.Values then 1 else 0
  {
    RowsCount(m, n, x);
  }

  /** The ids of the courses a user owns. */
  function CoursesOfUser(courses: map<nat, Course>, uid: nat): set<nat> {
    set c | c in courses && courses[c].userId == uid
  }

  /** The ids of the assignments belonging to any of the courses `cids`. */
  function AssignmentsOfCourses(assignments: map<nat, Assignment>, cids: set<nat>): set<nat> {
    set a | a in assignments && assignments[a].courseId in cids
  }

  /** The ids of the drafts attached to any of the assignments `aids`. */
  function DraftsOfAssignments(drafts: map<nat, Draft>, aids: set<nat>): set<nat> {
    set d | d in drafts && drafts[d].assignmentId.Some? && drafts[d].assignmentId.value in aids
  }

  /** The ids of the feedback rows attached to any of the drafts `dids`. */
  function FeedbackOfDrafts(feedback: map<nat, Feedback>, dids: set<nat>): set<nat> {
    set f | f in feedback && feedback[f].draftId.Some? && feedback[f].draftId.value in dids
  }

  /** The database session: the tables keyed by primary key and one id counter per table. */
  class Db {
    var users: map<nat, User>
    var courses: map<nat, Course>
    var assignments: map<nat, Assignment>
    var drafts: map<nat, Draft>
    var feedback: map<nat, Feedback>
    var nextUserId: nat
    var nextCourseId: nat
    var nextAssignmentId: nat
    var nextDraftId: nat
    var nextFeedbackId: nat

    /** Every key is its row's id and below the table's counter, ids start at 1, e-mails
        are unique and every foreign key refers to a stored row. */
    ghost predicate Valid()
      reads this
    {
      1 <= nextUserId && 1 <= nextCourseId && 1 <= nextAssignmentId && 1 <= nextDraftId && 1 <= nextFeedbackId
      && (forall u :: u in users ==> users[u].id == u && 0 < u < nextUserId)
      && (forall c :: c in courses ==> courses[c].id == c && 0 < c < nextCourseId && courses[c].userId in users)
      && (forall a :: a in assignments ==>
            assignments[a].id == a && 0 < a < nextAssignmentId && assignments[a].courseId in courses)
      && (forall d :: d in drafts ==>
            drafts[d].id == d && 0 < d < nextDraftId
            && (drafts[d].assignmentId.Some? ==> drafts[d].assignmentId.value in assignments))
      && (forall f :: f in feedback ==>
            feedback[f].id == f && 0 < f < nextFeedbackId
            && (feedback[f].draftId.Some? ==> feedback[f].draftId.value in drafts))
      && UniqueEmails(users)
    }

    /** An empty database. */
    constructor ()
      ensures Valid()
      ensures users == map[] && courses == map[] && assignments == map[] && drafts == map[] && feedback == map[]
    {
      users, courses, assignments, drafts, feedback := map[], map[], map[], map[], map[];
      nextUserId, nextCourseId, nextAssignmentId, nextDraftId, nextFeedbackId := 1, 1, 1, 1, 1;
    }

    function UserRows(): seq<User> reads this { Rows(users, nextUserId) }
    function CourseRows(): seq<Course> reads this { Rows(courses, nextCourseId) }
    function AssignmentRows(): seq<Assignment> reads this { Rows(assignments, nextAssignmentId) }

    /** `session.delete(course)` for each course of `cids`, with the cascades of
        `Course.assignments`, `Assignment.drafts` and `Draft.feedback`. */
    method DeleteCourses(cids: set<nat>)
      requires Valid()
      modifies this
      ensures Valid()
      ensures courses == old(courses) - cids
      ensures assignments == old(assignments) - AssignmentsOfCourses(old(assignments), cids)
      ensures drafts == old(drafts)
        - DraftsOfAssignments(old(drafts), AssignmentsOfCourses(old(assignments), cids))
      ensures feedback == old(feedback)
        - FeedbackOfDrafts(old(feedback), DraftsOfAssignments(old(drafts), AssignmentsOfCourses(old(assignments), cids)))
      ensures users == old(users)
      ensures nextUserId == old(nextUserId) && nextCourseId == old(nextCourseId)
      ensures nextAssignmentId == old(nextAssignmentId) && nextDraftId == old(nextDraftId)
      ensures nextFeedbackId == old(nextFeedbackId)
    {
      var aids := AssignmentsOfCourses(assignments, cids);
      DeleteAssignments(aids);
      courses := courses - cids;
    }

    /** `session.delete(assignment)` for each assignment of `aids`, with the cascades of
        `Assignment.drafts` and `Draft.feedback`. Also the step of `DeleteCourses` that
        leaves the courses themselves in place until the end. */
    method DeleteAssignments(aids: set<nat>)
      requires Valid()
      modifies this
      ensures Valid()
      ensures assignments == old(assignments) - aids
      ensures drafts == old(drafts) - DraftsOfAssignments(old(drafts), aids)
      ensures feedback == old(feedback) - FeedbackOfDrafts(old(feedback), DraftsOfAssignments(old(drafts), aids))
      ensures users == old(users) && courses == old(courses)
      ensures nextUserId == old(nextUserId) && nextCourseId == old(nextCourseId)
      ensures nextAssignmentId == old(nextAssignmentId) && nextDraftId == old(nextDraftId)
      ensures nextFeedbackId == old(nextFeedbackId)
    {
      var dids := DraftsOfAssignments(drafts, aids);
      var fids := FeedbackOfDrafts(feedback, dids);
      feedback := feedback - fids;
      drafts := drafts - dids;
      assignments := assignments - aids;
    }

    /** `session.add(u)` and `commit` for a user row: either an update of a stored user
        that keeps its e-mail, or a new user under the next id whose e-mail nobody has. */
    method PutUser(u: User)
      requires Valid()
      requires (u.id in users && u.email == users[u.id].email)
               || (u.id == nextUserId && (u.email.Some? ==> forall j :: j in users ==> users[j].email != u.email))
      modifies this
      ensures Valid()
      ensures users == old(users)[u.id := u]
      ensures nextUserId == if u.id in old(users) then old(nextUserId) else old(nextUserId) + 1
      ensures courses == old(courses) && assignments == old(assignments)
      ensures drafts == old(drafts) && feedback == old(feedback)
      ensures nextCourseId == old(nextCourseId) && nextAssignmentId == old(nextAssignmentId)
      ensures nextDraftId == old(nextDraftId) && nextFeedbackId == old(nextFeedbackId)
    {
      if u.id in users {
        UniqueEmailsReplace(users, u.id, u);
      } else {
        UniqueEmailsAdd(users, u.id, u);
        nextUserId := nextUserId + 1;
      }
      users := users[u.id := u];
    }

    /** `session.add(c)` and `commit` for a course row of a stored owner: an update of a
        stored course or a new course under the next id. */
    method PutCourse(c: Course)
      requires Valid()
      requires c.userId in users && (c.id in courses || c.id == nextCourseId)
      modifies this
      ensures Valid()
      ensures courses == old(courses)[c.id := c]
      ensures nextCourseId == if c.id in old(courses) then old(nextCourseId) else old(nextCourseId) + 1
      ensures users == old(users) && assignments == old(assignments)
      ensures drafts == old(drafts) && feedback == old(feedback)
      ensures nextUserId == old(nextUserId) && nextAssignmentId == old(nextAssignmentId)
      ensures nextDraftId == old(nextDraftId) && nextFeedbackId == old(nextFeedbackId)
    {
      if c.id !in courses {
        nextCourseId := nextCourseId + 1;
      }
      courses := courses[c.id := c];
    }

    /** `session.add(a)` and `commit` for an assignment row of a stored course: an update
        of a stored assignment or a new assignment under the next id. */
    method PutAssignment(a: Assignment)
      requires Valid()
      requires a.courseId in courses && (a.id in assignments || a.id == nextAssignmentId)
      modifies this
      ensures Valid()
      ensures assignments == old(assignments)[a.id := a]
      ensures nextAssignmentId == if a.id in old(assignments) then old(nextAssignmentId) else old(nextAssignmentId) + 1
      ensures users == old(users) && courses == old(courses)
      ensures drafts == old(drafts) && feedback == old(feedback)
      ensures nextUserId == old(nextUserId) && nextCourseId == old(nextCourseId)
      ensures nextDraftId == old(nextDraftId) && nextFeedbackId == old(nextFeedbackId)
    {
      if a.id !in assignments {
        nextAssignmentId := nextAssignmentId + 1;
      }
      assignments := assignments[a.id := a];
    }

    /** `session.delete(user)` with the cascade of `User.courses` and everything below it.
        No modelled endpoint deletes a user; this is the cascade the mapping declares. */
    method DeleteUser(uid: nat)
      requires Valid()
      modifies this
      ensures Valid()
      ensures users == old(users) - {uid}
      ensures courses == old(courses) - CoursesOfUser(old(courses), uid)
      ensures assignments == old(assignments) - AssignmentsOfCourses(old(assignments), CoursesOfUser(old(courses), uid))
      ensures drafts == old(drafts)
        - DraftsOfAssignments(old(drafts), AssignmentsOfCourses(old(assignments), CoursesOfUser(old(courses), uid)))
      ensures feedback == old(feedback)
        - FeedbackOfDrafts(old(feedback),
            DraftsOfAssignments(old(drafts), AssignmentsOfCourses(old(assignments), CoursesOfUser(old(courses), uid))))
      ensures nextUserId == old(nextUserId) && nextCourseId == old(nextCourseId)
      ensures nextAssignmentId == old(nextAssignmentId) && nextDraftId == old(nextDraftId)
      ensures nextFeedbackId == old(nextFeedbackId)
    {
      DeleteCourses(CoursesOfUser(courses, uid));
      users := users - {uid};
    }
  }

  /** Every stored row carries its own key, so the course and assignment tables are
      injective. */
  lemma ValidInjective(db: Db)
    requires db.Valid()
    ensures Injective(db.courses) && Injective(db.assignments)
  {
    forall a, b | a in db.courses && b in db.courses && db.courses[a] == db.courses[b] ensures a == b {
      assert db.courses[a].id == a && db.courses[b].id == b;
    }
    forall a, b | a in db.assignments && b in db.assignments && db.assignments[a] == db.assignments[b]
      ensures a == b
    {
      assert db.assignments[a].id == a && db.assignments[b].id == b;
    }
  }
}
