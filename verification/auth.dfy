/** backend/app/auth.py: registration, login, the refresh-token and
    password-reset-token lifecycle, and role promotion. Password hashing is
    an uninterpreted `hash`, a JWT is its opaque `jti`, and the clock is an
    integer number of seconds. */
module AuthViews {
  import opened Wrappers
  import opened Tables
  import opened Http
  import opened Schema
  import opened Marshal

  /** A reset token lives one hour (`timedelta(hours=1)`). */
  const RESET_TTL: int := 3600

  /** `{"email": ..., "password": ...}`; `Malformed` is a value the
      field's type or `Email` validator rejects. */
  datatype Credentials = Credentials(email: Field<string>, password: Field<string>)

  /** `{"token": ..., "new_password": ...}`. */
  datatype ResetRequest = ResetRequest(token: Field<string>, newPassword: Field<string>)

  /** `RegisterSchema`: an email of at most 128 characters and a password
      of at least 8, both required. */
  function LoadRegister(p: Credentials): (r: Option<(string, string)>)
    ensures r.Some? <==> p.email.Given? && |p.email.v| <= 128 && p.password.Given? && |p.password.v| >= 8
    ensures r.Some? ==> r.value == (p.email.v, p.password.v)
  {
    var e := LoadField(p.email, false, None, None, Length(0, 128));
    var pw := LoadField(p.password, false, None, None, Length(8, -1));
    if e.Value? && pw.Value? then Some((e.v, pw.v)) else None
  }

  /** `LoginSchema`: both keys required, no length rule. */
  function LoadLogin(p: Credentials): (r: Option<(string, string)>)
    ensures r.Some? <==> p.email.Given? && p.password.Given?
    ensures r.Some? ==> r.value == (p.email.v, p.password.v)
  {
    var e := LoadField(p.email, false, None, None, AnyValue());
    var pw := LoadField(p.password, false, None, None, AnyValue());
    if e.Value? && pw.Value? then Some((e.v, pw.v)) else None
  }

  predicate EmailTaken(users: Table<User>, e: string) {
    exists k | k in users.rows :: users.rows[k].email == e
  }

  predicate JtiTaken(t: Table<RefreshToken>, jti: string) {
    exists k | k in t.rows :: t.rows[k].token == jti
  }

  predicate ResetTokenTaken(t: Table<PasswordResetToken>, token: string) {
    exists k | k in t.rows :: t.rows[k].token == token
  }

  /** `User.query.filter_by(email=e).first()`. */
  function UserByEmail(users: Table<User>, e: string): (r: Option<nat>)
    requires Tables.Valid(users)
    ensures r.Some? ==> r.value in users.rows && users.rows[r.value].email == e
    ensures r.None? <==> !EmailTaken(users, e)
  {
    First(users, (u: User) => u.email == e)
  }

  /** `t` is `s` with one refresh-token record for `uid` added: new,
      not revoked, expiring at `exp`. */
  ghost predicate IssuedTo(s: Store, t: Store, uid: nat, jti: string, exp: int) {
    && t == s.(refreshTokens := t.refreshTokens)
    && AddsOne(s.refreshTokens, t.refreshTokens, s.refreshTokens.next, RefreshToken(jti, uid, exp, false))
  }

  /** `_create_tokens`: records the refresh token's `jti`. The `token`
      column is unique, so a repeated `jti` fails the commit, uncaught. */
  function CreateTokens(s: Store, uid: nat, jti: string, now: int, ttl: int): (r: Option<Store>)
    requires Wf(s)
    ensures r.None? <==> JtiTaken(s.refreshTokens, jti)
    ensures r.Some? ==> Wf(r.value) && IssuedTo(s, r.value, uid, jti, now + ttl)
  {
    if JtiTaken(s.refreshTokens, jti) then None
    else Some(s.(refreshTokens := Insert(s.refreshTokens, NewRefreshToken(jti, uid, now + ttl))))
  }

  /** `POST /auth/register`. `hash` is bcrypt, `jti` the id of the refresh
      token `_create_tokens` mints, `ttl` the configured refresh lifetime. */
  function Register(s: Store, p: Credentials, hash: string -> string, jti: string, now: int, ttl: int): (r: Reply<Store>)
    requires Wf(s)
    ensures LoadRegister(p).None? ==> r == Raised(BAD_REQUEST, s)
    ensures LoadRegister(p).Some? && EmailTaken(s.users, LoadRegister(p).value.0) ==> r == Returned(CONFLICT, s)
    ensures r.status == CREATED <==>
      LoadRegister(p).Some? && !EmailTaken(s.users, LoadRegister(p).value.0) && !JtiTaken(s.refreshTokens, jti)
    ensures r.status == CREATED ==>
      var (e, pw) := LoadRegister(p).value;
      && !r.raised && Wf(r.state)
      && AddsOne(s.users, r.state.users, s.users.next, User(e, hash(pw), true, now))
      && IssuedTo(s.(users := r.state.users), r.state, s.users.next, jti, now + ttl)
    ensures r.status !in {BAD_REQUEST, CONFLICT, CREATED} ==>
      && r.status == SERVER_ERROR && r.raised
      && AddsOne(s.users, r.state.users, s.users.next, User(LoadRegister(p).value.0, hash(LoadRegister(p).value.1), true, now))
      && r.state == s.(users := r.state.users)
    ensures UniqueEmails(s.users) ==> UniqueEmails(r.state.users)
  {
    match LoadRegister(p)
    case None => Raised(BAD_REQUEST, s)
    case Some((e, pw)) =>
      if EmailTaken(s.users, e) then Returned(CONFLICT, s)
      else
        var uid := s.users.next;
        var s1 := s.(users := Insert(s.users, User(e, hash(pw), true, now)));
        match CreateTokens(s1, uid, jti, now, ttl)
        case None => Raised(SERVER_ERROR, s1)
        case Some(s2) => Returned(CREATED, s2)
  }

  /** Does the stored hash of the first user with this email match? */
  predicate Verified(users: Table<User>, e: string, pw: string, hash: string -> string)
    requires Tables.Valid(users)
  {
    var u := UserByEmail(users, e);
    u.Some? && users.rows[u.value].passwordHash == hash(pw)
  }

  /** `POST /auth/login`. */
  function Login(s: Store, p: Credentials, hash: string -> string, jti: string, now: int, ttl: int): (r: Reply<Store>)
    requires Wf(s)
    ensures LoadLogin(p).None? ==> r == Raised(BAD_REQUEST, s)
    ensures LoadLogin(p).Some? && !EmailTaken(s.users, LoadLogin(p).value.0) ==> r == Returned(UNAUTHORIZED, s)
    ensures (LoadLogin(p).Some? &&
             forall k | k in s.users.rows && s.users.rows[k].email == LoadLogin(p).value.0 ::
               s.users.rows[k].passwordHash != hash(LoadLogin(p).value.1))
            ==> r == Returned(UNAUTHORIZED, s)
    ensures r.status == OK ==>
      && !r.raised && Wf(r.state)
      && exists k | k in s.users.rows ::
           && s.users.rows[k].email == LoadLogin(p).value.0
           && s.users.rows[k].passwordHash == hash(LoadLogin(p).value.1)
           && IssuedTo(s, r.state, k, jti, now + ttl)
    ensures r.status != OK ==> r.state == s
    ensures r.status == SERVER_ERROR <==>
      LoadLogin(p).Some? && Verified(s.users, LoadLogin(p).value.0, LoadLogin(p).value.1, hash)
      && JtiTaken(s.refreshTokens, jti)
    ensures r.status == OK <==>
      LoadLogin(p).Some? && Verified(s.users, LoadLogin(p).value.0, LoadLogin(p).value.1, hash)
      && !JtiTaken(s.refreshTokens, jti)
    ensures r.status == UNAUTHORIZED <==>
      LoadLogin(p).Some? && !Verified(s.users, LoadLogin(p).value.0, LoadLogin(p).value.1, hash)
    ensures r.status == OK ==> IssuedTo(s, r.state, UserByEmail(s.users, LoadLogin(p).value.0).value, jti, now + ttl)
  {
    match LoadLogin(p)
    case None => Raised(BAD_REQUEST, s)
    case Some((e, pw)) =>
      var u := UserByEmail(s.users, e);
      if u.None? || s.users.rows[u.value].passwordHash != hash(pw) then Returned(UNAUTHORIZED, s)
      else
        match CreateTokens(s, u.value, jti, now, ttl)
        case None => Raised(SERVER_ERROR, s)
        case Some(s2) => Returned(OK, s2)
  }

  /** Whoever can register can log in with the same credentials, given a
      fresh token id. */
  lemma RegisterThenLogin(s: Store, e: string, pw: string, hash: string -> string, jti1: string, jti2: string, now: int, ttl: int)
    requires Wf(s) && UniqueEmails(s.users)
    requires Register(s, Credentials(Given(e), Given(pw)), hash, jti1, now, ttl).status == CREATED
    requires jti2 != jti1 && !JtiTaken(s.refreshTokens, jti2)
    ensures Login(Register(s, Credentials(Given(e), Given(pw)), hash, jti1, now, ttl).state,
                  Credentials(Given(e), Given(pw)), hash, jti2, now, ttl).status == OK
  {
    var t := Register(s, Credentials(Given(e), Given(pw)), hash, jti1, now, ttl).state;
    var uid := s.users.next;
    var u := UserByEmail(t.users, e);
    assert u == Some(uid);
    assert !JtiTaken(t.refreshTokens, jti2);
  }

  /** `First` over the refresh-token table by `jti`. */
  function TokenRecord(t: Table<RefreshToken>, jti: string): (r: Option<nat>)
    requires Tables.Valid(t)
    ensures r.Some? ==> r.value in t.rows && t.rows[r.value].token == jti
    ensures r.None? <==> !JtiTaken(t, jti)
  {
    First(t, (x: RefreshToken) => x.token == jti)
  }

  /** `POST /auth/refresh`: the presented refresh token must be on record
      and not revoked. */
  function Refresh(s: Store, jti: string): (r: Reply<Store>)
    requires Wf(s)
    ensures r.state == s && !r.raised && r.status in {OK, UNAUTHORIZED}
    ensures !JtiTaken(s.refreshTokens, jti) ==> r.status == UNAUTHORIZED
    ensures r.status == OK ==> exists k | k in s.refreshTokens.rows ::
      s.refreshTokens.rows[k].token == jti && !s.refreshTokens.rows[k].revoked
    ensures UniqueRefreshTokens(s.refreshTokens) ==>
      (r.status == OK <==> exists k | k in s.refreshTokens.rows ::
         s.refreshTokens.rows[k].token == jti && !s.refreshTokens.rows[k].revoked)
  {
    var k := TokenRecord(s.refreshTokens, jti);
    if k.None? || s.refreshTokens.rows[k.value].revoked then Returned(UNAUTHORIZED, s)
    else Returned(OK, s)
  }

  /** `DELETE /auth/logout`: revokes the matching record, if any; always 200. */
  function Logout(s: Store, jti: string): (r: Reply<Store>)
    requires Wf(s)
    ensures r.status == OK && !r.raised && Wf(r.state)
    ensures !JtiTaken(s.refreshTokens, jti) ==> r.state == s
    ensures JtiTaken(s.refreshTokens, jti) ==>
      && r.state == s.(refreshTokens := r.state.refreshTokens)
      && exists k | k in s.refreshTokens.rows && s.refreshTokens.rows[k].token == jti ::
           ReplacesOne(s.refreshTokens, r.state.refreshTokens, k, s.refreshTokens.rows[k].(revoked := true))
  {
    match TokenRecord(s.refreshTokens, jti)
    case None => Returned(OK, s)
    case Some(k) =>
      Returned(OK, s.(refreshTokens := Put(s.refreshTokens, k, s.refreshTokens.rows[k].(revoked := true))))
  }

  /** Logging out twice is logging out once. */
  lemma LogoutIdempotent(s: Store, jti: string)
    requires Wf(s)
    ensures Logout(Logout(s, jti).state, jti) == Logout(s, jti)
  {
    var t := Logout(s, jti).state;
    var k := TokenRecord(s.refreshTokens, jti);
    if k.Some? {
      var row := s.refreshTokens.rows[k.value].(revoked := true);
      FirstAfterPut(s.refreshTokens, k.value, row, jti);
      assert t.refreshTokens.rows[k.value := row] == t.refreshTokens.rows;
      assert Put(t.refreshTokens, k.value, row) == t.refreshTokens;
    }
  }

  /** Replacing the first matching row by another matching row leaves it
      the first match. */
  lemma FirstAfterPut(t: Table<RefreshToken>, k: nat, row: RefreshToken, jti: string)
    requires Tables.Valid(t) && TokenRecord(t, jti) == Some(k) && row.token == jti
    ensures TokenRecord(Put(t, k, row), jti) == Some(k)
  {
    FirstKeptByPut(t, (x: RefreshToken) => x.token == jti, k, row);
  }

  /** After logout the same refresh token is refused. */
  lemma LogoutThenRefreshFails(s: Store, jti: string)
    requires Wf(s)
    ensures Refresh(Logout(s, jti).state, jti).status == UNAUTHORIZED
  {
    var k := TokenRecord(s.refreshTokens, jti);
    if k.Some? {
      FirstAfterPut(s.refreshTokens, k.value, s.refreshTokens.rows[k.value].(revoked := true), jti);
    }
  }

  /** The refresh token minted by a login is accepted afterwards. */
  lemma LoginThenRefresh(s: Store, p: Credentials, hash: string -> string, jti: string, now: int, ttl: int)
    requires Wf(s) && Login(s, p, hash, jti, now, ttl).status == OK
    ensures Refresh(Login(s, p, hash, jti, now, ttl).state, jti).status == OK
  {
    var t := Login(s, p, hash, jti, now, ttl).state;
    var n := s.refreshTokens.next;
    var k := TokenRecord(t.refreshTokens, jti);
    assert k == Some(n);
  }

  /** `POST /auth/request-password-reset`: the same 200 whether or not the
      email is known. A token string already on record fails the commit,
      which is rolled back, so the store is unchanged. */
  function RequestPasswordReset(s: Store, email: Field<string>, token: string, now: int): (r: Reply<Store>)
    requires Wf(s)
    ensures !email.Given? ==> r == Raised(BAD_REQUEST, s)
    ensures email.Given? ==> r.status == OK && !r.raised && Wf(r.state)
    ensures email.Given? && EmailTaken(s.users, email.v) && !ResetTokenTaken(s.resetTokens, token) ==>
      && r.state == s.(resetTokens := r.state.resetTokens)
      && exists k | k in s.users.rows && s.users.rows[k].email == email.v ::
           AddsOne(s.resetTokens, r.state.resetTokens, s.resetTokens.next,
                   PasswordResetToken(k, token, now + RESET_TTL, false))
    ensures !(email.Given? && EmailTaken(s.users, email.v) && !ResetTokenTaken(s.resetTokens, token)) ==> r.state == s
  {
    match LoadField(email, false, None, None, AnyValue())
    case Value(e) =>
      var u := UserByEmail(s.users, e);
      if u.None? || ResetTokenTaken(s.resetTokens, token) then Returned(OK, s)
      else Returned(OK, s.(resetTokens := Insert(s.resetTokens, NewResetToken(u.value, token, now + RESET_TTL))))
    case _ => Raised(BAD_REQUEST, s)
  }

  /** `ResetPasswordSchema`: a token and a new password of at least 8. */
  function LoadReset(p: ResetRequest): (r: Option<(string, string)>)
    ensures r.Some? <==> p.token.Given? && p.newPassword.Given? && |p.newPassword.v| >= 8
    ensures r.Some? ==> r.value == (p.token.v, p.newPassword.v)
  {
    var t := LoadField(p.token, false, None, None, AnyValue());
    var pw := LoadField(p.newPassword, false, None, None, Length(8, -1));
    if t.Value? && pw.Value? then Some((t.v, pw.v)) else None
  }

  /** `filter_by(token=t, used=False).first()`. */
  function UnusedToken(t: Table<PasswordResetToken>, token: string): (r: Option<nat>)
    requires Tables.Valid(t)
    ensures r.Some? ==> r.value in t.rows && t.rows[r.value].token == token && !t.rows[r.value].used
    ensures r.None? <==> forall k | k in t.rows :: t.rows[k].token != token || t.rows[k].used
  {
    First(t, (x: PasswordResetToken) => x.token == token && !x.used)
  }

  /** `POST /auth/reset-password`. A token whose user row is gone makes
      `user.password_hash` fail on `None` (500). */
  function ResetPassword(s: Store, p: ResetRequest, hash: string -> string, now: int): (r: Reply<Store>)
    requires Wf(s)
    ensures LoadReset(p).None? ==> r == Raised(BAD_REQUEST, s)
    ensures r.status != OK ==> r.state == s
    ensures r.status == OK ==>
      && !r.raised && Wf(r.state)
      && r.state == s.(users := r.state.users, resetTokens := r.state.resetTokens)
      && exists k | k in s.resetTokens.rows ::
           var prt := s.resetTokens.rows[k];
           && prt.token == LoadReset(p).value.0 && !prt.used && now <= prt.expiresAt
           && ReplacesOne(s.resetTokens, r.state.resetTokens, k, prt.(used := true))
           && prt.userId in s.users.rows
           && ReplacesOne(s.users, r.state.users, prt.userId,
                          s.users.rows[prt.userId].(passwordHash := hash(LoadReset(p).value.1)))
    ensures LoadReset(p).Some? && UnusedToken(s.resetTokens, LoadReset(p).value.0).None? ==>
      r == Returned(BAD_REQUEST, s)
    ensures (LoadReset(p).Some? &&
             forall k | k in s.resetTokens.rows && s.resetTokens.rows[k].token == LoadReset(p).value.0 ::
               s.resetTokens.rows[k].expiresAt < now)
            ==> r == Returned(BAD_REQUEST, s)
  {
    match LoadReset(p)
    case None => Raised(BAD_REQUEST, s)
    case Some((token, pw)) =>
      match UnusedToken(s.resetTokens, token)
      case None => Returned(BAD_REQUEST, s)
      case Some(k) =>
        var prt := s.resetTokens.rows[k];
        if prt.expiresAt < now then Returned(BAD_REQUEST, s)
        else if prt.userId !in s.users.rows then Raised(SERVER_ERROR, s)
        else
          var u := s.users.rows[prt.userId];
          Returned(OK, s.(users := Put(s.users, prt.userId, u.(passwordHash := hash(pw))),
                          resetTokens := Put(s.resetTokens, k, prt.(used := true))))
  }

  /** With unique token strings a reset token works once: a second use is
      refused. */
  lemma ResetTokenSingleUse(s: Store, p: ResetRequest, hash: string -> string, now: int, later: int)
    requires Wf(s) && UniqueResetTokens(s.resetTokens)
    requires ResetPassword(s, p, hash, now).status == OK
    ensures ResetPassword(ResetPassword(s, p, hash, now).state, p, hash, later) ==
      Returned(BAD_REQUEST, ResetPassword(s, p, hash, now).state)
  {
    var t := ResetPassword(s, p, hash, now).state;
    var token := LoadReset(p).value.0;
    var k :| k in s.resetTokens.rows && s.resetTokens.rows[k].token == token && !s.resetTokens.rows[k].used
      && ReplacesOne(s.resetTokens, t.resetTokens, k, s.resetTokens.rows[k].(used := true));
    forall j | j in t.resetTokens.rows
      ensures t.resetTokens.rows[j].token != token || t.resetTokens.rows[j].used
    {
      if j != k {
        assert s.resetTokens.rows[j].token != s.resetTokens.rows[k].token;
      }
    }
  }

  /** A reset requested for a known email, with a fresh token, lets that
      user set a new password within the hour. */
  lemma RequestThenReset(s: Store, e: string, token: string, pw: string, hash: string -> string, now: int, at: int)
    requires Wf(s) && EmailTaken(s.users, e) && !ResetTokenTaken(s.resetTokens, token)
    requires now <= at <= now + RESET_TTL && |pw| >= 8
    ensures var t := RequestPasswordReset(s, Given(e), token, now).state;
            ResetPassword(t, ResetRequest(Given(token), Given(pw)), hash, at).status == OK
  {
    var t := RequestPasswordReset(s, Given(e), token, now).state;
    var n := s.resetTokens.next;
    var u := UnusedToken(t.resetTokens, token);
    assert t.resetTokens.rows[n].token == token;
    assert u == Some(n);
  }

  /** At most one `user_roles` row per (user, role): the table does not
      enforce it, only the promote handlers' check does. */
  predicate PairsUnique(t: Table<UserRole>) {
    forall a, b | a in t.rows && b in t.rows && a != b :: t.rows[a] != t.rows[b]
  }

  predicate HasPair(t: Table<UserRole>, uid: nat, rid: nat) {
    exists k | k in t.rows :: t.rows[k] == UserRole(uid, rid)
  }

  /** `Role.query.filter_by(name=n).first_or_404()`. */
  function RoleByName(roles: Table<Role>, n: string): (r: Option<nat>)
    requires Tables.Valid(roles)
    ensures r.Some? ==> r.value in roles.rows && roles.rows[r.value].name == n
    ensures r.None? <==> forall k | k in roles.rows :: roles.rows[k].name != n
  {
    First(roles, (x: Role) => x.name == n)
  }

  /** `POST /auth/promote/<user_id>/<role_name>` past its `Admin` guard,
      with the response's role list corrected to role names. */
  function Promote(s: Store, uid: nat, roleName: string): (r: Reply<Store>)
    requires Wf(s)
    ensures uid !in s.users.rows ==> r == Raised(NOT_FOUND, s)
    ensures uid in s.users.rows && RoleByName(s.roles, roleName).None? ==> r == Raised(NOT_FOUND, s)
    ensures r.status == CONFLICT <==>
      uid in s.users.rows && RoleByName(s.roles, roleName).Some?
      && HasPair(s.userRoles, uid, RoleByName(s.roles, roleName).value)
    ensures r.status == OK <==>
      uid in s.users.rows && RoleByName(s.roles, roleName).Some?
      && !HasPair(s.userRoles, uid, RoleByName(s.roles, roleName).value)
    ensures r.status == OK ==>
      && !r.raised && Wf(r.state) && r.state == s.(userRoles := r.state.userRoles)
      && AddsOne(s.userRoles, r.state.userRoles, s.userRoles.next, UserRole(uid, RoleByName(s.roles, roleName).value))
      && roleName in RoleNames(r.state, uid)
    ensures r.status != OK ==> r.state == s
    ensures PairsUnique(s.userRoles) ==> PairsUnique(r.state.userRoles)
  {
    if uid !in s.users.rows then Raised(NOT_FOUND, s)
    else match RoleByName(s.roles, roleName)
      case None => Raised(NOT_FOUND, s)
      case Some(rid) =>
        if HasPair(s.userRoles, uid, rid) then Returned(CONFLICT, s)
        else
          var t := s.(userRoles := Insert(s.userRoles, UserRole(uid, rid)));
          assert t.userRoles.rows[s.userRoles.next].userId == uid;
          Returned(OK, t)
  }

  /** The handler as written: after the commit, `[r.name for r in
      user.roles]` reads `.name` from `UserRole` rows, which have none, so
      every promotion that commits ends in a 500. */
  function PromoteAsWritten(s: Store, uid: nat, roleName: string): (r: Reply<Store>)
    requires Wf(s)
    ensures Promote(s, uid, roleName).status == OK ==>
      r == Raised(SERVER_ERROR, Promote(s, uid, roleName).state)
    ensures Promote(s, uid, roleName).status != OK ==> r == Promote(s, uid, roleName)
    ensures (uid in s.users.rows && RoleByName(s.roles, roleName).Some?
             && !HasPair(s.userRoles, uid, RoleByName(s.roles, roleName).value)) ==>
      r.status == SERVER_ERROR && r.raised && HasPair(r.state.userRoles, uid, RoleByName(s.roles, roleName).value)
  {
    var c := Promote(s, uid, roleName);
    if c.status == OK then
      assert HasAnyUserRole(c.state, uid) by {
        assert c.state.userRoles.rows[s.userRoles.next].userId == uid;
      }
      Raised(SERVER_ERROR, c.state)
    else c
  }

}
