/** backend/app/profiles.py: a second profile blueprint. Its GET never
    creates a row, and its PATCH creates the row from the payload or
    overwrites the payload's keys. */
module ProfileViews {
  import opened Wrappers
  import opened Tables
  import opened Http
  import opened Schema
  import opened Marshal
  import opened ProfileRows

  /** This file's `ProfileSchema`: `name` at most 128, `bio` at most 1024,
      `social_links` at most 512; `avatar_url` and `social_links` accept
      `null`. No field is required and none has a default. */
  function LoadPatch(p: ProfilePayload): (d: ProfileData)
    ensures Loads(d) <==>
      && (p.name.Absent? || (p.name.Given? && |p.name.v| <= 128))
      && (p.bio.Absent? || (p.bio.Given? && |p.bio.v| <= 1024))
      && (p.avatarUrl.Absent? || p.avatarUrl.Given? || p.avatarUrl.Null?)
      && (p.socialLinks.Absent? || p.socialLinks.Null? || (p.socialLinks.Given? && |p.socialLinks.v| <= 512))
    ensures Loads(d) && p.avatarUrl.Null? ==> d.avatarUrl == Value(None)
    ensures Loads(d) && p.socialLinks.Null? ==> d.socialLinks == Value(None)
  {
    ProfileData(LoadOptional(p.name, 128, false), LoadOptional(p.bio, 1024, false),
                LoadOptional(p.avatarUrl, -1, true), LoadOptional(p.socialLinks, 512, true))
  }

  /** `GET /profiles/me`: the caller's profile, `None` standing for the
      `{}` answered when there is none. Nothing is written. */
  function GetMyProfile(s: Store, uid: nat): (r: Option<UserProfile>)
    requires Wf(s)
    ensures r.None? <==> forall k | k in s.profiles.rows :: s.profiles.rows[k].userId != uid
    ensures r.Some? ==> r.value.userId == uid && r.value in s.profiles.rows.Values
  {
    match ProfileOf(s.profiles, uid)
    case None => None
    case Some(k) => Some(s.profiles.rows[k])
  }

  /** `PATCH /profiles/me`: 400 for a rejected payload; otherwise the
      caller's profile is created from the payload or has the payload's
      keys overwritten. The caller's user row is not consulted. */
  function UpdateMyProfile(s: Store, uid: nat, p: ProfilePayload, now: int): (r: Reply<Store>)
    requires Wf(s)
    ensures !Loads(LoadPatch(p)) ==> r == Raised(BAD_REQUEST, s)
    ensures Loads(LoadPatch(p)) ==> r.status == OK && !r.raised && Wf(r.state)
    ensures r.state == s.(profiles := r.state.profiles)
    ensures r.status == OK && ProfileOf(s.profiles, uid).Some? ==>
      ReplacesOne(s.profiles, r.state.profiles, ProfileOf(s.profiles, uid).value,
                  Patch(s.profiles.rows[ProfileOf(s.profiles, uid).value], LoadPatch(p)))
    ensures r.status == OK && ProfileOf(s.profiles, uid).None? ==>
      AddsOne(s.profiles, r.state.profiles, s.profiles.next, Patch(BlankProfile(uid, now), LoadPatch(p)))
    ensures OneProfilePerUser(s.profiles) ==> OneProfilePerUser(r.state.profiles)
  {
    var d := LoadPatch(p);
    if !Loads(d) then Raised(BAD_REQUEST, s)
    else match ProfileOf(s.profiles, uid)
      case Some(k) =>
        PutKeepsOneProfile(s.profiles, k, Patch(s.profiles.rows[k], d));
        Returned(OK, s.(profiles := Put(s.profiles, k, Patch(s.profiles.rows[k], d))))
      case None =>
        AddKeepsOneProfile(s.profiles, Patch(BlankProfile(uid, now), d));
        Returned(OK, s.(profiles := Insert(s.profiles, Patch(BlankProfile(uid, now), d))))
  }

  /** A successful PATCH is what a later GET sees: the patched profile. */
  lemma PatchThenGet(s: Store, uid: nat, p: ProfilePayload, now: int)
    requires Wf(s) && Loads(LoadPatch(p))
    ensures var before := if ProfileOf(s.profiles, uid).Some? then s.profiles.rows[ProfileOf(s.profiles, uid).value]
                          else BlankProfile(uid, now);
            GetMyProfile(UpdateMyProfile(s, uid, p, now).state, uid) == Some(Patch(before, LoadPatch(p)))
  {
    var t := UpdateMyProfile(s, uid, p, now).state;
    match ProfileOf(s.profiles, uid)
    case Some(k) =>
      SameFirstProfile(s.profiles, k, Patch(s.profiles.rows[k], LoadPatch(p)));
    case None =>
      NewFirstProfile(s.profiles, Patch(BlankProfile(uid, now), LoadPatch(p)));
  }

  /** `GET /profiles/<user_id>` past its `Admin` guard: 404 when the user
      has no profile. */
  function GetUserProfile(s: Store, uid: nat): (r: Reply<Option<UserProfile>>)
    requires Wf(s)
    ensures r.status == NOT_FOUND <==> forall k | k in s.profiles.rows :: s.profiles.rows[k].userId != uid
    ensures r.status == NOT_FOUND ==> r.raised && r.state.None?
    ensures r.status != NOT_FOUND ==> r.status == OK && r.state.Some? && r.state.value.userId == uid
    ensures r.state == GetMyProfile(s, uid)
  {
    match GetMyProfile(s, uid)
    case None => Raised(NOT_FOUND, None)
    case Some(p) => Returned(OK, Some(p))
  }
}
