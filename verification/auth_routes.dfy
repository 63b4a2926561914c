/** backend/app/auth_routes.py: an older registration and login pair. Its
    checks run in a fixed order, each with its own message, and its login
    tells an unknown email (404) apart from a wrong password (401).

    The views are written for a user record with `name`, `phone` and a
    single `role` string, but the `User` they import (backend/app/models.py)
    has none of these columns. The members ending in `AsWritten` run the
    views against that model; the others run them against the record the
    views were written for, `LegacyUser`. */
module LegacyAuth {
  import opened Wrappers
  import opened Tables
  import opened Http
  import Schema
  import AuthViews

  datatype LegacyUser = LegacyUser(name: string, email: string, phone: string, passwordHash: string, role: Option<string>)

  /** A JSON body read with `data.get(key)`: `None` for a missing key or
      `null`. `role` keeps the difference, since `get('role', 'user')`
      only defaults a missing key. */
  datatype SignUp = SignUp(name: Option<string>, email: Option<string>, phone: Option<string>,
                           password: Option<string>, confirm: Option<string>, role: Field<string>)

  /** The status, the `error` message (empty on success) and the user
      table after the request. */
  datatype LegacyReply<U> = LegacyReply(status: int, error: string, users: Table<U>)

  const MISSING_FIELDS: string := "Missing required fields."
  const MISMATCH: string := "Passwords do not match!"
  const EXISTS: string := "User with this email already exists."
  const MISSING_LOGIN: string := "Email and password are required."
  const NOT_FOUND_USER: string := "User not found"
  const BAD_PASSWORD: string := "Invalid password"

  /** `all([name, email, phone, password, confirm_password])`. */
  predicate AllGiven(p: SignUp) {
    TruthyStr(p.name) && TruthyStr(p.email) && TruthyStr(p.phone) && TruthyStr(p.password) && TruthyStr(p.confirm)
  }

  predicate Registered(users: Table<LegacyUser>, e: string) {
    exists k | k in users.rows :: users.rows[k].email == e
  }

  /** `User.query.filter_by(email=e).first()` over legacy records. */
  function LegacyByEmail(users: Table<LegacyUser>, e: string): (r: Option<nat>)
    requires Tables.Valid(users)
    ensures r.Some? ==> r.value in users.rows && users.rows[r.value].email == e
    ensures r.None? <==> !Registered(users, e)
  {
    First(users, (u: LegacyUser) => u.email == e)
  }

  /** `password_check` against the first record with this email. */
  predicate LegacyVerified(users: Table<LegacyUser>, e: string, pw: string, hash: string -> string)
    requires Tables.Valid(users)
  {
    var u := LegacyByEmail(users, e);
    u.Some? && users.rows[u.value].passwordHash == hash(pw)
  }

  /** `data.get('role', 'user')`. */
  function RoleOf(f: Field<string>): (r: Option<string>)
    ensures f.Absent? ==> r == Some("user")
    ensures f.Given? ==> r == Some(f.v)
    ensures f.Null? || f.Malformed? ==> r.None?
  {
    match f
    case Absent => Some("user")
    case Given(v) => Some(v)
    case _ => None
  }

  /** `POST /auth/register` over the record the view was written for. */
  function LegacyRegister(users: Table<LegacyUser>, p: SignUp, hash: string -> string): (r: LegacyReply<LegacyUser>)
    requires Tables.Valid(users)
    ensures !AllGiven(p) ==> r == LegacyReply(BAD_REQUEST, MISSING_FIELDS, users)
    ensures AllGiven(p) && p.password != p.confirm ==> r == LegacyReply(BAD_REQUEST, MISMATCH, users)
    ensures AllGiven(p) && p.password == p.confirm && Registered(users, p.email.value) ==>
      r == LegacyReply(CONFLICT, EXISTS, users)
    ensures r.status == CREATED <==>
      AllGiven(p) && p.password == p.confirm && !Registered(users, p.email.value)
    ensures r.status == CREATED ==>
      && Tables.Valid(r.users)
      && AddsOne(users, r.users, users.next,
                 LegacyUser(p.name.value, p.email.value, p.phone.value, hash(p.password.value), RoleOf(p.role)))
  {
    if !AllGiven(p) then LegacyReply(BAD_REQUEST, MISSING_FIELDS, users)
    else if p.password != p.confirm then LegacyReply(BAD_REQUEST, MISMATCH, users)
    else if LegacyByEmail(users, p.email.value).Some? then LegacyReply(CONFLICT, EXISTS, users)
    else
      var u := LegacyUser(p.name.value, p.email.value, p.phone.value, hash(p.password.value), RoleOf(p.role));
      LegacyReply(CREATED, "", Insert(users, u))
  }

  /** `POST /auth/register` as written: the checks pass as above, then
      `User(name=..., phone=..., role=...)` raises `TypeError` because
      the model declares none of those keywords. The request ends in a
      500 before `db.session.add`, so every request leaves the table as it
      was and none answers 201. */
  function LegacyRegisterAsWritten(users: Table<Schema.User>, p: SignUp): (r: LegacyReply<Schema.User>)
    requires Tables.Valid(users)
    ensures r.users == users
    ensures !AllGiven(p) ==> r == LegacyReply(BAD_REQUEST, MISSING_FIELDS, users)
    ensures AllGiven(p) && p.password != p.confirm ==> r == LegacyReply(BAD_REQUEST, MISMATCH, users)
    ensures AllGiven(p) && p.password == p.confirm && AuthViews.EmailTaken(users, p.email.value) ==>
      r == LegacyReply(CONFLICT, EXISTS, users)
    ensures r.status == SERVER_ERROR <==>
      AllGiven(p) && p.password == p.confirm && !AuthViews.EmailTaken(users, p.email.value)
    ensures r.status != CREATED
  {
    if !AllGiven(p) then LegacyReply(BAD_REQUEST, MISSING_FIELDS, users)
    else if p.password != p.confirm then LegacyReply(BAD_REQUEST, MISMATCH, users)
    else if AuthViews.UserByEmail(users, p.email.value).Some? then LegacyReply(CONFLICT, EXISTS, users)
    else LegacyReply(SERVER_ERROR, "", users)
  }

  /** `POST /auth/login` over the record the view was written for: 400,
      then 404, then 401, in that order, and 200 exactly when the first
      record with the email holds the password's hash. */
  function LegacyLogin(users: Table<LegacyUser>, email: Option<string>, password: Option<string>,
                       hash: string -> string): (r: LegacyReply<LegacyUser>)
    requires Tables.Valid(users)
    ensures r.users == users
    ensures !TruthyStr(email) || !TruthyStr(password) ==> r.status == BAD_REQUEST && r.error == MISSING_LOGIN
    ensures TruthyStr(email) && TruthyStr(password) && !Registered(users, email.value) ==>
      r.status == NOT_FOUND && r.error == NOT_FOUND_USER
    ensures r.status == OK <==>
      TruthyStr(email) && TruthyStr(password) && LegacyVerified(users, email.value, password.value, hash)
    ensures r.status == UNAUTHORIZED <==>
      && TruthyStr(email) && TruthyStr(password) && Registered(users, email.value)
      && !LegacyVerified(users, email.value, password.value, hash)
    ensures r.status == UNAUTHORIZED ==> r.error == BAD_PASSWORD
    ensures r.status == OK ==> exists k | k in users.rows ::
      users.rows[k].email == email.value && users.rows[k].passwordHash == hash(password.value)
    ensures r.status in {OK, BAD_REQUEST, NOT_FOUND, UNAUTHORIZED}
  {
    if !TruthyStr(email) || !TruthyStr(password) then LegacyReply(BAD_REQUEST, MISSING_LOGIN, users)
    else match LegacyByEmail(users, email.value)
      case None => LegacyReply(NOT_FOUND, NOT_FOUND_USER, users)
      case Some(k) =>
        if users.rows[k].passwordHash != hash(password.value) then LegacyReply(UNAUTHORIZED, BAD_PASSWORD, users)
        else LegacyReply(OK, "", users)
  }

  /** `POST /auth/login` as written: the lookup and the password check
      work on the imported `User`, but the token is built from
      `existing_user.role`, which that model does not have, so correct
      credentials end in `AttributeError` (500) and none answer 200. */
  function LegacyLoginAsWritten(users: Table<Schema.User>, email: Option<string>, password: Option<string>,
                                hash: string -> string): (r: LegacyReply<Schema.User>)
    requires Tables.Valid(users)
    ensures r.users == users
    ensures !TruthyStr(email) || !TruthyStr(password) ==> r.status == BAD_REQUEST && r.error == MISSING_LOGIN
    ensures TruthyStr(email) && TruthyStr(password) && !AuthViews.EmailTaken(users, email.value) ==>
      r.status == NOT_FOUND && r.error == NOT_FOUND_USER
    ensures r.status == UNAUTHORIZED <==>
      && TruthyStr(email) && TruthyStr(password) && AuthViews.EmailTaken(users, email.value)
      && !AuthViews.Verified(users, email.value, password.value, hash)
    ensures r.status == SERVER_ERROR <==>
      TruthyStr(email) && TruthyStr(password) && AuthViews.Verified(users, email.value, password.value, hash)
    ensures r.status != OK
  {
    if !TruthyStr(email) || !TruthyStr(password) then LegacyReply(BAD_REQUEST, MISSING_LOGIN, users)
    else match AuthViews.UserByEmail(users, email.value)
      case None => LegacyReply(NOT_FOUND, NOT_FOUND_USER, users)
      case Some(k) =>
        if users.rows[k].passwordHash != hash(password.value) then LegacyReply(UNAUTHORIZED, BAD_PASSWORD, users)
        else LegacyReply(SERVER_ERROR, "", users)
  }

  /** For the intended record, a successful registration is followed by a
      successful login with the same email and password. */
  lemma LegacyRegisterThenLogin(users: Table<LegacyUser>, p: SignUp, hash: string -> string)
    requires Tables.Valid(users)
    requires LegacyRegister(users, p, hash).status == CREATED
    ensures LegacyLogin(LegacyRegister(users, p, hash).users, p.email, p.password, hash).status == OK
  {
    var t := LegacyRegister(users, p, hash).users;
    var k := LegacyByEmail(t, p.email.value);
    assert t.rows[users.next].email == p.email.value;
    assert k == Some(users.next);
  }

  /** As written, the same sign-up that the intended views store and then
      log in cannot be completed: registration answers 500 and stores
      nothing, and a user already in the table who logs in with the right
      password gets 500 instead of a token. */
  lemma LegacyRoundTripFailsAsWritten(users: Table<Schema.User>, p: SignUp, hash: string -> string)
    requires Tables.Valid(users)
    requires AllGiven(p) && p.password == p.confirm && !AuthViews.EmailTaken(users, p.email.value)
    ensures LegacyRegisterAsWritten(users, p) == LegacyReply(SERVER_ERROR, "", users)
    ensures forall k | k in users.rows && AuthViews.Verified(users, users.rows[k].email, p.password.value, hash)
                       && users.rows[k].email != "" ::
      LegacyLoginAsWritten(users, Some(users.rows[k].email), p.password, hash).status == SERVER_ERROR
  {
  }
}
