/** Resolving the caller of a request: the verified token's e-mail is looked up among the
    users; an unknown user gets 404, a disabled one 403. Token verification itself is an
    opaque function from the token to the identity it carries, or None when it fails. */
module AuthMiddleware {
  import opened Common
  import opened Http
  import opened Seqs
  import opened Strings
  import opened Models

  const TOKEN_INVALID: string := "Invalid or expired authentication token"
  const USER_NOT_FOUND: string := "User not found. Please register first."
  const USER_DISABLED: string := "User account is disabled"
  const BEARER_PREFIX: string := "Bearer "

  /** The fields taken from a verified token; a token without a name gives "". */
  datatype Identity = Identity(uid: string, email: Option<string>, name: string, picture: Option<string>)

  /** `verify_firebase_token`: any failure of the verifier is 401. */
  function VerifyToken(verify: string -> Option<Identity>, token: string): (r: Result<Identity>)
    ensures r.Ok? <==> verify(token).Some?
    ensures r.Ok? ==> r.value == verify(token).value
    ensures r.Err? ==> r.error == HttpError(UNAUTHORIZED, TOKEN_INVALID)
  {
    match verify(token)
    case None => Err(HttpError(UNAUTHORIZED, TOKEN_INVALID))
    case Some(id) => Ok(id)
  }

  /** `User.email == email`; for a None e-mail the comparison is `IS NULL`. */
  function EmailIs(email: Option<string>): User -> bool {
    (u: User) => u.email == email
  }

  /** `db.query(User).filter(User.email == email).first()`. */
  function FindUserByEmail(db: Db, email: Option<string>): Option<User>
    reads db
  {
    Find(db.UserRows(), EmailIs(email))
  }

  /** The lookup finds the stored user with that e-mail, and for a real address there is at
      most one. */
  lemma FindUserByEmailSpec(db: Db, email: Option<string>)
    requires db.Valid()
    ensures FindUserByEmail(db, email).Some? <==> exists k :: k in db.users && db.users[k].email == email
    ensures FindUserByEmail(db, email).Some? ==>
              var u := FindUserByEmail(db, email).value;
              u.id in db.users && db.users[u.id] == u && u.email == email
    ensures FindUserByEmail(db, email).Some? && email.Some? ==>
              forall k :: k in db.users && db.users[k].email == email ==> db.users[k] == FindUserByEmail(db, email).value
  {
    var rows := db.UserRows();
    var r := FindUserByEmail(db, email);
    if exists k :: k in db.users && db.users[k].email == email {
      var k :| k in db.users && db.users[k].email == email;
      RowsMembership(db.users, db.nextUserId, db.users[k]);
      var i :| 0 <= i < |rows| && rows[i] == db.users[k];
      assert EmailIs(email)(rows[i]);
    }
    if r.Some? {
      RowsMembership(db.users, db.nextUserId, r.value);
    }
  }

  /** `get_current_user` for the bearer credential `credentials`. */
  function GetCurrentUser(db: Db, verify: string -> Option<Identity>, credentials: string): Result<User>
    reads db
  {
    match VerifyToken(verify, credentials)
    case Err(e) => Err(e)
    case Ok(identity) =>
      match FindUserByEmail(db, identity.email)
      case None => Err(HttpError(NOT_FOUND, USER_NOT_FOUND))
      case Some(user) => if !user.isActive then Err(HttpError(FORBIDDEN, USER_DISABLED)) else Ok(user)
  }

  /** A failed verification is 401; then an unknown e-mail is 404, checked before the
      disabled user's 403; otherwise the stored, active user with that e-mail. */
  lemma GetCurrentUserSpec(db: Db, verify: string -> Option<Identity>, credentials: string)
    requires db.Valid()
    ensures verify(credentials).None? ==> GetCurrentUser(db, verify, credentials) == Err(HttpError(UNAUTHORIZED, TOKEN_INVALID))
    ensures verify(credentials).Some? ==>
      var email := verify(credentials).value.email;
      var r := GetCurrentUser(db, verify, credentials);
      ((forall k :: k in db.users ==> db.users[k].email != email) <==> r == Err(HttpError(NOT_FOUND, USER_NOT_FOUND)))
      && (r == Err(HttpError(FORBIDDEN, USER_DISABLED)) <==>
            FindUserByEmail(db, email).Some? && !FindUserByEmail(db, email).value.isActive)
      && (r.Ok? ==> r.value.id in db.users && db.users[r.value.id] == r.value
                    && r.value.email == email && r.value.isActive)
  {
    if verify(credentials).Some? {
      FindUserByEmailSpec(db, verify(credentials).value.email);
    }
  }

  /** `get_current_user_id`: the resolved user's id, errors passed through. */
  function GetCurrentUserId(db: Db, verify: string -> Option<Identity>, credentials: string): Result<nat>
    reads db
  {
    match GetCurrentUser(db, verify, credentials)
    case Err(e) => Err(e)
    case Ok(user) => Ok(user.id)
  }

  /** The id is the key of the stored, active user with the token's e-mail; it fails
      exactly when the user lookup fails, with the same error. */
  lemma GetCurrentUserIdSpec(db: Db, verify: string -> Option<Identity>, credentials: string)
    requires db.Valid()
    ensures var r := GetCurrentUserId(db, verify, credentials);
            (r.Ok? ==> r.value in db.users && db.users[r.value].isActive
                       && db.users[r.value].email == verify(credentials).value.email)
            && (r.Err? <==> GetCurrentUser(db, verify, credentials).Err?)
            && (r.Err? ==> r.error == GetCurrentUser(db, verify, credentials).error)
  {
    GetCurrentUserSpec(db, verify, credentials);
  }

  /** The token of an `Authorization` header: the second space-separated piece of a value
      starting with "Bearer ", None for a missing or other header. */
  function BearerToken(header: Option<string>): Option<string> {
    if header.None? || !StartsWith(header.value, BEARER_PREFIX) then None
    else
      var h := header.value;
      assert h == "Bearer" + [' '] + h[|BEARER_PREFIX|..];
      SplitAfterWord("Bearer", ' ', h[|BEARER_PREFIX|..]);
      Some(Split(h, ' ')[1])
  }

  /** The token is the text after "Bearer " up to the next space. */
  lemma BearerTokenSpec(header: Option<string>)
    ensures BearerToken(header).Some? <==> header.Some? && StartsWith(header.value, BEARER_PREFIX)
    ensures BearerToken(header).Some? ==>
              BearerToken(header).value == BeforeFirst(header.value[|BEARER_PREFIX|..], ' ')
  {
    if header.Some? && StartsWith(header.value, BEARER_PREFIX) {
      var h := header.value;
      var rest := h[|BEARER_PREFIX|..];
      assert h == "Bearer" + [' '] + rest;
      SplitAfterWord("Bearer", ' ', rest);
    }
  }

  /** `get_current_user_optional`: the active user of a verified bearer header, else None;
      it never fails. */
  function GetCurrentUserOptional(db: Db, verify: string -> Option<Identity>, header: Option<string>): Option<User>
    reads db
  {
    match BearerToken(header)
    case None => None
    case Some(token) =>
      match VerifyToken(verify, token)
      case Err(_) => None
      case Ok(identity) =>
        match FindUserByEmail(db, identity.email)
        case None => None
        case Some(user) => if user.isActive then Some(user) else None
  }

  /** The optional lookup answers a user exactly when the strict lookup would for the same
      token, and never for a missing or malformed header. */
  lemma OptionalAgreesWithStrict(db: Db, verify: string -> Option<Identity>, header: Option<string>)
    ensures BearerToken(header).None? ==> GetCurrentUserOptional(db, verify, header).None?
    ensures BearerToken(header).Some? ==>
      var strict := GetCurrentUser(db, verify, BearerToken(header).value);
      (GetCurrentUserOptional(db, verify, header).Some? <==> strict.Ok?)
      && (strict.Ok? ==> GetCurrentUserOptional(db, verify, header).value == strict.value)
  {
  }
}
