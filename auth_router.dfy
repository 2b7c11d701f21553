/** The `/auth` endpoints: register-or-login from a bearer header, and reading and patching
    the caller's profile with its course and assignment counts. */
module AuthRouter {
  import opened Common
  import opened Http
  import opened Seqs
  import opened Strings
  import opened Models
  import opened AuthMiddleware
  import CourseCrud
  import AssignmentCrud

  const REGISTER_FAILED: string := "Failed to register/login user"
  const PROFILE_FAILED: string := "Failed to retrieve profile"
  const PROFILE_UPDATE_FAILED: string := "Failed to update profile"

  /** `verify_firebase_token_from_header`: the header check raises inside the same `try`
      whose handler rewrites every failure, so a missing or malformed header and a token
      that fails verification all give the same 401. */
  function VerifyFromHeader(header: Option<string>, verify: string -> Option<Identity>): (r: Result<Identity>)
    ensures r.Err? <==> BearerToken(header).None? || verify(BearerToken(header).value).None?
    ensures r.Err? ==> r.error == HttpError(UNAUTHORIZED, TOKEN_INVALID)
    ensures r.Ok? ==> r.value == verify(BearerToken(header).value).value
  {
    match BearerToken(header)
    case None => Err(HttpError(UNAUTHORIZED, TOKEN_INVALID))
    case Some(token) => VerifyToken(verify, token)
  }

  /** `UserResponse`. */
  datatype UserResponse = UserResponse(id: nat, email: string, fullName: string, createdAt: int)

  /** Serialising a user as `UserResponse`; a NULL e-mail or full name fails (500). */
  function UserResponseOf(u: User): (r: Result<UserResponse>)
    ensures r.Ok? <==> u.email.Some? && u.fullName.Some?
    ensures r.Ok? ==> r.value == UserResponse(u.id, u.email.value, u.fullName.value, u.createdAt)
    ensures r.Err? ==> r.error.status == SERVER_ERROR
  {
    if u.email.Some? && u.fullName.Some? then Ok(UserResponse(u.id, u.email.value, u.fullName.value, u.createdAt))
    else Err(HttpError(SERVER_ERROR, "Internal Server Error"))
  }

  /** The display name of a first registration: the token's name when not empty, else the
      part of the e-mail before the first '@'; None when there is neither (the `split` on
      a missing e-mail fails). */
  function DefaultFullName(identity: Identity): Option<string> {
    if identity.name != "" then Some(identity.name)
    else if identity.email.Some? then Some(BeforeFirst(identity.email.value, '@'))
    else None
  }

  /** A name taken from the e-mail is its local part: a prefix with no '@', followed by
      '@' unless the address has none. */
  lemma DefaultFullNameSpec(identity: Identity)
    ensures identity.name != "" ==> DefaultFullName(identity) == Some(identity.name)
    ensures identity.name == "" ==> (DefaultFullName(identity).None? <==> identity.email.None?)
    ensures identity.name == "" && identity.email.Some? ==>
      var local := DefaultFullName(identity).value;
      var email := identity.email.value;
      local <= email && '@' !in local && ('@' in email ==> email[|local|] == '@')
  {
  }

  /** The user a first registration inserts. */
  function NewUser(id: nat, identity: Identity, fullName: string, now: int): User {
    User(id, identity.email, Some(fullName), identity.picture, DEFAULT_ROLE, true, Some(now), now, None)
  }

  /** The user after a login at `now`: the UPDATE of `last_login` also stamps `updated_at`,
      the column's `onupdate` default. */
  function LoggedIn(u: User, now: int): User {
    u.(lastLogin := Some(now), updatedAt := Some(now))
  }

  /** `Body(201, _)` for a successful response, the error otherwise. */
  function CreatedReply<T>(r: Result<T>): Result<Reply<T>> {
    match r
    case Err(e) => Err(e)
    case Ok(v) => Ok(Body(CREATED, v))
  }

  /** `register_user`. A verified identity whose e-mail is stored logs that user in: only
      its `last_login` and `updated_at` change. An unknown e-mail registers exactly one new, active user.
      Either way the answer is 201. With neither a name nor an e-mail, nothing is stored
      and the answer is 500. */
  method RegisterUser(db: Db, header: Option<string>, verify: string -> Option<Identity>, now: int)
    returns (r: Result<Reply<UserResponse>>)
    requires db.Valid()
    modifies db
    ensures db.Valid()
    ensures VerifyFromHeader(header, verify).Err? ==>
      r == Err(HttpError(UNAUTHORIZED, TOKEN_INVALID)) && db.users == old(db.users)
    ensures VerifyFromHeader(header, verify).Ok? ==>
      var identity := VerifyFromHeader(header, verify).value;
      var existing := old(FindUserByEmail(db, identity.email));
      (existing.Some? ==>
         existing.value.id in old(db.users)
         && db.users == old(db.users)[existing.value.id := LoggedIn(existing.value, now)]
         && r == CreatedReply(UserResponseOf(LoggedIn(existing.value, now)))
         && db.nextUserId == old(db.nextUserId))
      && (existing.None? && DefaultFullName(identity).None? ==>
            r == Err(HttpError(SERVER_ERROR, REGISTER_FAILED)) && db.users == old(db.users)
            && db.nextUserId == old(db.nextUserId))
      && (existing.None? && DefaultFullName(identity).Some? ==>
            var u := NewUser(old(db.nextUserId), identity, DefaultFullName(identity).value, now);
            db.users == old(db.users)[u.id := u] && db.nextUserId == old(db.nextUserId) + 1
            && r == CreatedReply(UserResponseOf(u)))
    ensures db.courses == old(db.courses) && db.assignments == old(db.assignments)
    ensures db.drafts == old(db.drafts) && db.feedback == old(db.feedback)
    ensures db.nextCourseId == old(db.nextCourseId) && db.nextAssignmentId == old(db.nextAssignmentId)
    ensures db.nextDraftId == old(db.nextDraftId) && db.nextFeedbackId == old(db.nextFeedbackId)
  {
    var verified := VerifyFromHeader(header, verify);
    if verified.Err? {
      return Err(verified.error);
    }
    var identity := verified.value;
    var existing := FindUserByEmail(db, identity.email);
    FindUserByEmailSpec(db, identity.email);
    if existing.Some? {
      var u := LoggedIn(existing.value, now);
      db.PutUser(u);
      return CreatedReply(UserResponseOf(u));
    }
    var fullName := DefaultFullName(identity);
    if fullName.None? {
      return Err(HttpError(SERVER_ERROR, REGISTER_FAILED));
    }
    var u := NewUser(db.nextUserId, identity, fullName.value, now);
    db.PutUser(u);
    r := CreatedReply(UserResponseOf(u));
  }

  /** A login sets `last_login` and `updated_at` to the login instant and keeps every other
      column; logging in twice at the same instant is logging in once. */
  lemma LoginIdempotent(u: User, now: int)
    ensures LoggedIn(LoggedIn(u, now), now) == LoggedIn(u, now)
    ensures var v := LoggedIn(u, now);
            v.lastLogin == Some(now) && v.updatedAt == Some(now)
            && v.id == u.id && v.email == u.email && v.fullName == u.fullName && v.photoUrl == u.photoUrl
            && v.role == u.role && v.isActive == u.isActive && v.createdAt == u.createdAt
  {
  }

  /** `UserProfileResponse`. */
  datatype ProfileResponse = ProfileResponse(
    id: nat, email: string, fullName: string, photoUrl: Option<string>, createdAt: int,
    lastLogin: Option<int>, coursesCount: nat, assignmentsCount: nat, verified: bool)

  /** `courses_count`: the courses the user owns. */
  function CoursesCount(db: Db, uid: nat): nat
    reads db
  {
    |Filter(db.CourseRows(), CourseCrud.OwnedBy(uid))|
  }

  /** `assignments_count`: the assignments of the courses the user owns. */
  function AssignmentsCount(db: Db, uid: nat): nat
    reads db
  {
    |Filter(db.AssignmentRows(), AssignmentCrud.OwnedVia(db.courses, uid))|
  }

  /** The counts are the sizes of the owner's course listing and of the owner's
      assignment listing. */
  lemma ProfileCountsSpec(db: Db, uid: nat)
    ensures uid != 0 ==> CoursesCount(db, uid) == |CourseCrud.GetCourses(db, Some(uid))|
    ensures AssignmentsCount(db, uid) == |AssignmentCrud.GetAssignmentsByUser(db, uid)|
    ensures uid == 0 ==> CoursesCount(db, uid) <= |CourseCrud.GetCourses(db, Some(uid))|
  {
  }

  /** The response built from a user and the counts; a NULL e-mail or full name fails the
      constructor inside the handler's `try`, which answers 500 with `detail`. */
  function ProfileOf(db: Db, u: User, detail: string): (r: Result<ProfileResponse>)
    reads db
    ensures r.Ok? <==> u.email.Some? && u.fullName.Some?
    ensures r.Ok? ==> r.value.id == u.id && r.value.email == u.email.value && r.value.fullName == u.fullName.value
                      && r.value.photoUrl == u.photoUrl && r.value.lastLogin == u.lastLogin
                      && r.value.coursesCount == CoursesCount(db, u.id)
                      && r.value.assignmentsCount == AssignmentsCount(db, u.id) && r.value.verified
    ensures r.Err? ==> r.error == HttpError(SERVER_ERROR, detail)
  {
    if u.email.Some? && u.fullName.Some? then
      Ok(ProfileResponse(u.id, u.email.value, u.fullName.value, u.photoUrl, u.createdAt, u.lastLogin,
                         CoursesCount(db, u.id), AssignmentsCount(db, u.id), true))
    else Err(HttpError(SERVER_ERROR, detail))
  }

  /** `GET /auth/profile` for the bearer credential `credentials`. */
  function GetProfile(db: Db, verify: string -> Option<Identity>, credentials: string): Result<ProfileResponse>
    reads db
  {
    match GetCurrentUser(db, verify, credentials)
    case Err(e) => Err(e)
    case Ok(user) => ProfileOf(db, user, PROFILE_FAILED)
  }

  /** `UserProfileUpdateRequest`: a None field is left alone. */
  datatype ProfileUpdate = ProfileUpdate(fullName: Option<string>, photoUrl: Option<string>)

  /** The user after `update_profile` at `now`: the given fields replaced, `updated_at`
      always stamped. */
  function Patched(u: User, p: ProfileUpdate, now: int): User {
    u.(fullName := if p.fullName.Some? then p.fullName else u.fullName,
       photoUrl := if p.photoUrl.Some? then p.photoUrl else u.photoUrl,
       updatedAt := Some(now))
  }

  /** Only a given field changes, to the given value; everything else but `updated_at` is
      kept; patching twice is patching once. */
  lemma PatchedSpec(u: User, p: ProfileUpdate, now: int)
    ensures var v := Patched(u, p, now);
            v.id == u.id && v.email == u.email && v.role == u.role && v.isActive == u.isActive
            && v.lastLogin == u.lastLogin && v.createdAt == u.createdAt && v.updatedAt == Some(now)
            && (p.fullName.Some? ==> v.fullName == p.fullName) && (p.fullName.None? ==> v.fullName == u.fullName)
            && (p.photoUrl.Some? ==> v.photoUrl == p.photoUrl) && (p.photoUrl.None? ==> v.photoUrl == u.photoUrl)
    ensures Patched(Patched(u, p, now), p, now) == Patched(u, p, now)
  {
  }

  /** `PUT /auth/profile`: the caller is resolved first (401/404/403 as for every
      authenticated endpoint); then the patch is committed, and the response is built. */
  method UpdateProfile(db: Db, verify: string -> Option<Identity>, credentials: string, patch: ProfileUpdate, now: int)
    returns (r: Result<ProfileResponse>)
    requires db.Valid()
    modifies db
    ensures db.Valid()
    ensures old(GetCurrentUser(db, verify, credentials)).Err? ==>
      r == Err(old(GetCurrentUser(db, verify, credentials)).error) && db.users == old(db.users)
    ensures old(GetCurrentUser(db, verify, credentials)).Ok? ==>
      var u := old(GetCurrentUser(db, verify, credentials)).value;
      u.id in old(db.users)
      && db.users == old(db.users)[u.id := Patched(u, patch, now)]
      && r == ProfileOf(db, Patched(u, patch, now), PROFILE_UPDATE_FAILED)
    ensures db.courses == old(db.courses) && db.assignments == old(db.assignments)
    ensures db.drafts == old(db.drafts) && db.feedback == old(db.feedback)
    ensures db.nextUserId == old(db.nextUserId) && db.nextCourseId == old(db.nextCourseId)
    ensures db.nextAssignmentId == old(db.nextAssignmentId)
    ensures db.nextDraftId == old(db.nextDraftId) && db.nextFeedbackId == old(db.nextFeedbackId)
  {
    var current := GetCurrentUser(db, verify, credentials);
    GetCurrentUserSpec(db, verify, credentials);
    if current.Err? {
      return Err(current.error);
    }
    var u := Patched(current.value, patch, now);
    db.PutUser(u);
    r := ProfileOf(db, u, PROFILE_UPDATE_FAILED);
  }
}
