/** The profile row as both profile views change it: a payload of four
    optional keys, loaded into "skipped or a value", and written onto the
    row key by key. */
module ProfileRows {
  import opened Wrappers
  import opened Tables
  import opened Schema
  import opened Marshal

  /** The JSON body: `name`, `bio`, `avatar_url`, `social_links`.
      `Malformed` is a value of the wrong type or, for `avatar_url`, one
      the `Url` field rejects. */
  datatype ProfilePayload = ProfilePayload(name: Field<string>, bio: Field<string>,
                                           avatarUrl: Field<string>, socialLinks: Field<string>)

  /** The loaded dict: a key the payload left out is `Skipped`; a value is
      `None` only where the field allows `null`. */
  datatype ProfileData = ProfileData(name: Loaded<Option<string>>, bio: Loaded<Option<string>>,
                                     avatarUrl: Loaded<Option<string>>, socialLinks: Loaded<Option<string>>)

  /** One optional string field: no default, at most `hi` characters
      (`hi` < 0: no limit), `null` accepted only when `nullable`. A field
      that is neither required nor defaulted is left out of the result when
      the key is missing, which `LoadField` expresses as a partial load. */
  function LoadOptional(f: Field<string>, hi: int, nullable: bool): (r: Loaded<Option<string>>)
    ensures r.Skipped? <==> f.Absent?
    ensures f.Given? ==> r == (if hi < 0 || |f.v| <= hi then Value(Some(f.v)) else Invalid)
    ensures f.Null? ==> r == (if nullable then Value(None) else Invalid)
    ensures f.Malformed? ==> r.Invalid?
  {
    LoadField(f, true, None, if nullable then Some(None) else None, Nullable(Length(0, hi)))
  }

  predicate Loads(d: ProfileData) {
    !d.name.Invalid? && !d.bio.Invalid? && !d.avatarUrl.Invalid? && !d.socialLinks.Invalid?
  }

  /** A loaded field written onto a column: the value if the key was
      there, the old column otherwise. */
  function SetIf(l: Loaded<Option<string>>, prev: Option<string>): (r: Option<string>)
    ensures l.Value? ==> r == l.v
    ensures !l.Value? ==> r == prev
  {
    if l.Value? then l.v else prev
  }

  /** `setattr(profile, key, value)` for every key of the loaded dict. */
  function Patch(p: UserProfile, d: ProfileData): (r: UserProfile)
    ensures r.userId == p.userId && r.createdAt == p.createdAt && r.updatedAt == p.updatedAt
    ensures r.name == SetIf(d.name, p.name) && r.bio == SetIf(d.bio, p.bio)
    ensures r.avatarUrl == SetIf(d.avatarUrl, p.avatarUrl) && r.socialLinks == SetIf(d.socialLinks, p.socialLinks)
  {
    p.(name := SetIf(d.name, p.name), bio := SetIf(d.bio, p.bio),
       avatarUrl := SetIf(d.avatarUrl, p.avatarUrl), socialLinks := SetIf(d.socialLinks, p.socialLinks))
  }

  /** A payload that names no key changes nothing, and applying the same
      payload twice is applying it once. */
  lemma PatchLaws(p: UserProfile, d: ProfileData)
    ensures (!d.name.Value? && !d.bio.Value? && !d.avatarUrl.Value? && !d.socialLinks.Value?) ==> Patch(p, d) == p
    ensures Patch(Patch(p, d), d) == Patch(p, d)
  {
  }

  /** A new, empty profile for `uid`: every column `NULL`. */
  function BlankProfile(uid: nat, now: int): (r: UserProfile)
    ensures r.userId == uid && r.name.None? && r.bio.None? && r.avatarUrl.None? && r.socialLinks.None?
  {
    UserProfile(uid, None, None, None, None, now, now)
  }

  /** `UserProfile.query.filter_by(user_id=uid).first()`, which is also
      what `user.profile` reads. */
  function ProfileOf(t: Table<UserProfile>, uid: nat): (r: Option<nat>)
    requires Tables.Valid(t)
    ensures r.Some? ==> r.value in t.rows && t.rows[r.value].userId == uid
    ensures r.None? <==> forall k | k in t.rows :: t.rows[k].userId != uid
  {
    First(t, (p: UserProfile) => p.userId == uid)
  }

  /** The number of profile rows a user has. */
  function ProfileCount(t: Table<UserProfile>, uid: nat): nat {
    |set k | k in t.rows && t.rows[k].userId == uid|
  }

  /** Under the unique `user_id` column a user with a profile has exactly
      one. */
  lemma OneProfile(t: Table<UserProfile>, uid: nat)
    requires Tables.Valid(t) && OneProfilePerUser(t) && ProfileOf(t, uid).Some?
    ensures ProfileCount(t, uid) == 1
  {
    var k := ProfileOf(t, uid).value;
    assert (set j | j in t.rows && t.rows[j].userId == uid) == {k};
  }

  /** Writing a profile for `uid` — new or in place of `uid`'s own row —
      keeps one profile per user. */
  lemma AddKeepsOneProfile(t: Table<UserProfile>, p: UserProfile)
    requires Tables.Valid(t) && ProfileOf(t, p.userId).None?
    ensures OneProfilePerUser(t) ==> OneProfilePerUser(Insert(t, p))
  {
  }

  lemma PutKeepsOneProfile(t: Table<UserProfile>, k: nat, p: UserProfile)
    requires Tables.Valid(t) && k in t.rows && t.rows[k].userId == p.userId
    ensures OneProfilePerUser(t) ==> OneProfilePerUser(Put(t, k, p))
  {
  }

  /** Replacing the first profile of `uid` by another of `uid`'s keeps it
      the first. */
  lemma SameFirstProfile(t: Table<UserProfile>, k: nat, row: UserProfile)
    requires Tables.Valid(t) && ProfileOf(t, row.userId) == Some(k)
    ensures ProfileOf(Put(t, k, row), row.userId) == Some(k)
  {
    FirstKeptByPut(t, (p: UserProfile) => p.userId == row.userId, k, row);
  }

  /** The only profile of `uid` is the one just inserted. */
  lemma NewFirstProfile(t: Table<UserProfile>, row: UserProfile)
    requires Tables.Valid(t) && ProfileOf(t, row.userId).None?
    ensures ProfileOf(Insert(t, row), row.userId) == Some(t.next)
  {
    FirstOfInsert(t, (p: UserProfile) => p.userId == row.userId, row);
  }
}
