/** backend/app/users.py: the caller's own profile, created on first
    access, and role promotion, each under `@audit`. */
module UserViews {
  import opened Wrappers
  import opened Tables
  import opened Http
  import opened Schema
  import opened Marshal
  import opened Audit
  import opened ProfileRows
  import AuthViews

  /** This file's `ProfileSchema` with `partial=True`: `name` at most 128,
      `social_links` at most 512, `bio` and `avatar_url` unbounded; no
      field accepts `null`. */
  function LoadProfile(p: ProfilePayload): (d: ProfileData)
    ensures Loads(d) <==>
      && (p.name.Absent? || (p.name.Given? && |p.name.v| <= 128))
      && (p.bio.Absent? || p.bio.Given?)
      && (p.avatarUrl.Absent? || p.avatarUrl.Given?)
      && (p.socialLinks.Absent? || (p.socialLinks.Given? && |p.socialLinks.v| <= 512))
    ensures Loads(d) && p.name.Given? ==> d.name == Value(Some(p.name.v))
    ensures Loads(d) && p.bio.Given? ==> d.bio == Value(Some(p.bio.v))
    ensures Loads(d) && p.avatarUrl.Given? ==> d.avatarUrl == Value(Some(p.avatarUrl.v))
    ensures Loads(d) && p.socialLinks.Given? ==> d.socialLinks == Value(Some(p.socialLinks.v))
  {
    ProfileData(LoadOptional(p.name, 128, false), LoadOptional(p.bio, -1, false),
                LoadOptional(p.avatarUrl, -1, false), LoadOptional(p.socialLinks, 512, false))
  }

  /** `GET /users/me/profile`: 404 for an unknown caller; a caller
      without a profile gets an empty one stored. */
  function GetMyProfile(s: Store, uid: nat, now: int): (r: Reply<Store>)
    requires Wf(s)
    ensures uid !in s.users.rows ==> r == Raised(NOT_FOUND, s)
    ensures uid in s.users.rows ==> r.status == OK && !r.raised && Wf(r.state)
    ensures r.state == s.(profiles := r.state.profiles)
    ensures r.status == OK ==> ProfileOf(r.state.profiles, uid).Some?
    ensures ProfileOf(s.profiles, uid).Some? ==> r.state == s
    ensures uid in s.users.rows && ProfileOf(s.profiles, uid).None? ==>
      AddsOne(s.profiles, r.state.profiles, s.profiles.next, BlankProfile(uid, now))
    ensures OneProfilePerUser(s.profiles) ==> OneProfilePerUser(r.state.profiles)
  {
    if uid !in s.users.rows then Raised(NOT_FOUND, s)
    else if ProfileOf(s.profiles, uid).Some? then Returned(OK, s)
    else
      AddKeepsOneProfile(s.profiles, BlankProfile(uid, now));
      var t := Insert(s.profiles, BlankProfile(uid, now));
      assert t.rows[s.profiles.next].userId == uid;
      Returned(OK, s.(profiles := t))
  }

  /** `PUT /users/me/profile`: the payload is checked first (400), then the
      caller (404); a missing profile is created, then each supplied key
      is written. */
  function UpdateMyProfile(s: Store, uid: nat, p: ProfilePayload, now: int): (r: Reply<Store>)
    requires Wf(s)
    ensures !Loads(LoadProfile(p)) ==> r == Raised(BAD_REQUEST, s)
    ensures Loads(LoadProfile(p)) && uid !in s.users.rows ==> r == Raised(NOT_FOUND, s)
    ensures Loads(LoadProfile(p)) && uid in s.users.rows ==> r.status == OK && !r.raised && Wf(r.state)
    ensures r.status != OK ==> r.state == s
    ensures r.state == s.(profiles := r.state.profiles)
    ensures r.status == OK ==>
      && !r.raised && Wf(r.state)
      && var k := ProfileOf(r.state.profiles, uid);
         && k.Some?
         && var before := if ProfileOf(s.profiles, uid).Some? then s.profiles.rows[ProfileOf(s.profiles, uid).value] else BlankProfile(uid, now);
            r.state.profiles.rows[k.value] == Patch(before, LoadProfile(p))
    ensures r.status == OK && ProfileOf(s.profiles, uid).Some? ==>
      ReplacesOne(s.profiles, r.state.profiles, ProfileOf(s.profiles, uid).value,
                  Patch(s.profiles.rows[ProfileOf(s.profiles, uid).value], LoadProfile(p)))
    ensures r.status == OK && ProfileOf(s.profiles, uid).None? ==>
      AddsOne(s.profiles, r.state.profiles, s.profiles.next, Patch(BlankProfile(uid, now), LoadProfile(p)))
    ensures OneProfilePerUser(s.profiles) ==> OneProfilePerUser(r.state.profiles)
  {
    var d := LoadProfile(p);
    if !Loads(d) then Raised(BAD_REQUEST, s)
    else if uid !in s.users.rows then Raised(NOT_FOUND, s)
    else match ProfileOf(s.profiles, uid)
      case Some(k) =>
        PutKeepsOneProfile(s.profiles, k, Patch(s.profiles.rows[k], d));
        var t := Put(s.profiles, k, Patch(s.profiles.rows[k], d));
        assert ProfileOf(t, uid) == Some(k) by { SameFirstProfile(s.profiles, k, Patch(s.profiles.rows[k], d)); }
        Returned(OK, s.(profiles := t))
      case None =>
        var row := Patch(BlankProfile(uid, now), d);
        AddKeepsOneProfile(s.profiles, row);
        var t := Insert(s.profiles, row);
        assert ProfileOf(t, uid) == Some(s.profiles.next) by { NewFirstProfile(s.profiles, row); }
        Returned(OK, s.(profiles := t))
  }

  /** A read leaves a known caller with exactly one profile, and so does
      every accepted update; a rejected payload leaves the count as it was. */
  lemma ProfileViewsLeaveOne(s: Store, uid: nat, p: ProfilePayload, now: int)
    requires Wf(s) && OneProfilePerUser(s.profiles) && uid in s.users.rows
    ensures ProfileCount(GetMyProfile(s, uid, now).state.profiles, uid) == 1
    ensures Loads(LoadProfile(p)) ==>
      UpdateMyProfile(s, uid, p, now).status == OK
      && ProfileCount(UpdateMyProfile(s, uid, p, now).state.profiles, uid) == 1
    ensures !Loads(LoadProfile(p)) ==>
      ProfileCount(UpdateMyProfile(s, uid, p, now).state.profiles, uid) == ProfileCount(s.profiles, uid)
  {
    OneProfile(GetMyProfile(s, uid, now).state.profiles, uid);
    if UpdateMyProfile(s, uid, p, now).status == OK {
      OneProfile(UpdateMyProfile(s, uid, p, now).state.profiles, uid);
    }
  }

  const GET_AUDIT: AuditSpec := AuditSpec("get_profile", Some("UserProfile"), Some("user_id"))
  const UPDATE_AUDIT: AuditSpec := AuditSpec("update_profile", Some("UserProfile"), Some("user_id"))
  const PROMOTE_AUDIT: AuditSpec := AuditSpec("promote_user", Some("User"), Some("user_id"))

  /** `get_my_profile` under `@audit`: every read by a known caller is
      logged, with no target id (the route has no `user_id`). */
  function AuditedGetMyProfile(s: Store, uid: nat, now: int, commitOk: bool): (r: Reply<Store>)
    requires Wf(s)
    ensures r.status == GetMyProfile(s, uid, now).status
    ensures uid !in s.users.rows ==> r.state == s
    ensures uid in s.users.rows && commitOk ==>
      AddsOne(s.auditLogs, r.state.auditLogs, s.auditLogs.next,
              AuditEntry(Some(uid), "get_profile", Some("UserProfile"), None, now, map[]))
  {
    Audited(GetMyProfile(s, uid, now), GET_AUDIT, map[], None, NoDetailsFn, Some(uid), now, commitOk)
  }

  /** `update_my_profile` under `@audit`. */
  function AuditedUpdateMyProfile(s: Store, uid: nat, p: ProfilePayload, now: int, commitOk: bool): (r: Reply<Store>)
    requires Wf(s)
    ensures r.status == UpdateMyProfile(s, uid, p, now).status
    ensures r.status != OK ==> r.state == s
    ensures r.status == OK && commitOk ==>
      AddsOne(s.auditLogs, r.state.auditLogs, s.auditLogs.next,
              AuditEntry(Some(uid), "update_profile", Some("UserProfile"), None, now, map[]))
  {
    Audited(UpdateMyProfile(s, uid, p, now), UPDATE_AUDIT, map[], None, NoDetailsFn, Some(uid), now, commitOk)
  }

  /** `promote_user` under `@audit`, with the role list corrected: a
      promotion is logged against the user id. */
  function AuditedPromote(s: Store, caller: nat, uid: nat, roleName: string, now: int, commitOk: bool): (r: Reply<Store>)
    requires Wf(s)
    ensures r.status == AuthViews.Promote(s, uid, roleName).status
    ensures r.status == OK && commitOk ==>
      && r.state.userRoles == AuthViews.Promote(s, uid, roleName).state.userRoles
      && AddsOne(s.auditLogs, r.state.auditLogs, s.auditLogs.next,
                 AuditEntry(Some(caller), "promote_user", Some("User"), Some(uid), now, map[]))
  {
    Audited(AuthViews.Promote(s, uid, roleName), PROMOTE_AUDIT, map["user_id" := uid], None, NoDetailsFn,
            Some(caller), now, commitOk)
  }

  /** `promote_user` as written: the `.name` read on `UserRole` rows raises
      after the commit, so the pair is stored, the caller sees a 500, and
      the decorator logs nothing. */
  function AuditedPromoteAsWritten(s: Store, caller: nat, uid: nat, roleName: string, now: int, commitOk: bool): (r: Reply<Store>)
    requires Wf(s)
    ensures AuthViews.Promote(s, uid, roleName).status == OK ==>
      && r.status == SERVER_ERROR && r.raised
      && r.state == AuthViews.Promote(s, uid, roleName).state
      && r.state.auditLogs == s.auditLogs
  {
    Audited(AuthViews.PromoteAsWritten(s, uid, roleName), PROMOTE_AUDIT, map["user_id" := uid], None, NoDetailsFn,
            Some(caller), now, commitOk)
  }
}
