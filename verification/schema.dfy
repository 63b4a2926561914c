/** The relational store of backend/app/models.py: one table per model,
    the enumerations, and the uniqueness constraints the schema declares. */
module Schema {
  import opened Wrappers
  import opened Tables

  /** `ContentStatusEnum`: the stored string values. */
  datatype ContentStatus = Draft | Published | Flagged

  /** `ContentTypeEnum`: the stored string values. */
  datatype ContentType = Article | Video | Audio

  function StatusValue(s: ContentStatus): string {
    match s
    case Draft => "Draft"
    case Published => "Published"
    case Flagged => "Flagged"
  }

  function TypeValue(t: ContentType): string {
    match t
    case Article => "Article"
    case Video => "Video"
    case Audio => "Audio"
  }

  /** `ContentStatusEnum(value)`: `None` where Python raises `ValueError`
      (and marshmallow's `OneOf` refuses the value). */
  function ParseStatus(v: string): (r: Option<ContentStatus>)
    ensures r.Some? ==> StatusValue(r.value) == v
    ensures r.None? ==> forall s: ContentStatus :: StatusValue(s) != v
  {
    if v == "Draft" then Some(Draft)
    else if v == "Published" then Some(Published)
    else if v == "Flagged" then Some(Flagged)
    else None
  }

  function ParseType(v: string): (r: Option<ContentType>)
    ensures r.Some? ==> TypeValue(r.value) == v
    ensures r.None? ==> forall t: ContentType :: TypeValue(t) != v
  {
    if v == "Article" then Some(Article)
    else if v == "Video" then Some(Video)
    else if v == "Audio" then Some(Audio)
    else None
  }

  /** The Python names of `ContentStatusEnum`'s members, as opposed to
      their stored values. */
  function StatusName(s: ContentStatus): string {
    match s
    case Draft => "DRAFT"
    case Published => "PUBLISHED"
    case Flagged => "FLAGGED"
  }

  /** `ContentStatusEnum.<n>`: attribute lookup by member name; `None` is
      the `AttributeError` for a name the class does not define. */
  function StatusMember(n: string): (r: Option<ContentStatus>)
    ensures r.Some? ==> StatusName(r.value) == n
    ensures r.None? ==> forall s: ContentStatus :: StatusName(s) != n
  {
    if n == "DRAFT" then Some(Draft)
    else if n == "PUBLISHED" then Some(Published)
    else if n == "FLAGGED" then Some(Flagged)
    else None
  }

  /** The enumerations' values are exactly their members' values: parsing a
      member's value gives that member back. */
  lemma EnumValuesRoundTrip(s: ContentStatus, t: ContentType)
    ensures ParseStatus(StatusValue(s)) == Some(s)
    ensures ParseType(TypeValue(t)) == Some(t)
  {
  }

  datatype User = User(email: string, passwordHash: string, isActive: bool, createdAt: int)
  datatype Role = Role(name: string)
  /** `UserRole`: no uniqueness on the pair (models.py declares none). */
  datatype UserRole = UserRole(userId: nat, roleId: nat)
  datatype UserProfile = UserProfile(
    userId: nat, name: Option<string>, bio: Option<string>,
    avatarUrl: Option<string>, socialLinks: Option<string>,
    createdAt: int, updatedAt: int)
  datatype Category = Category(name: string, description: Option<string>, createdBy: Option<nat>)
  datatype Content = Content(
    title: string, body: string, mediaUrl: Option<string>,
    contentType: ContentType, status: ContentStatus,
    categoryId: Option<nat>, authorId: nat, createdAt: int)
  /** A comment: `content_id` and `user_id` are required, `parent_id` is an
      optional reference to another comment. */
  datatype Comment = Comment(contentId: nat, userId: nat, body: string, parentId: Option<int>, createdAt: int)
  datatype Subscription = Subscription(userId: nat, categoryId: nat, createdAt: int)
  datatype Notification = Notification(userId: nat, contentId: Option<nat>, message: string, isRead: bool, createdAt: int)
  datatype RefreshToken = RefreshToken(token: string, userId: nat, expiresAt: int, revoked: bool)
  datatype PasswordResetToken = PasswordResetToken(userId: nat, token: string, expiresAt: int, used: bool)
  datatype AuditEntry = AuditEntry(
    userId: Option<int>, action: string, targetType: Option<string>,
    targetId: Option<int>, timestamp: int, details: map<string, string>)

  datatype Store = Store(
    users: Table<User>,
    roles: Table<Role>,
    userRoles: Table<UserRole>,
    profiles: Table<UserProfile>,
    categories: Table<Category>,
    contents: Table<Content>,
    comments: Table<Comment>,
    subscriptions: Table<Subscription>,
    notifications: Table<Notification>,
    refreshTokens: Table<RefreshToken>,
    resetTokens: Table<PasswordResetToken>,
    auditLogs: Table<AuditEntry>)

  /** Column defaults: a fresh notification is unread, a fresh refresh
      token is not revoked, a fresh reset token is unused. */
  function NewNotification(userId: nat, contentId: Option<nat>, message: string, now: int): (n: Notification)
    ensures !n.isRead && n.userId == userId && n.contentId == contentId
  {
    Notification(userId, contentId, message, false, now)
  }

  function NewRefreshToken(jti: string, userId: nat, expiresAt: int): (t: RefreshToken)
    ensures !t.revoked && t.token == jti && t.userId == userId
  {
    RefreshToken(jti, userId, expiresAt, false)
  }

  function NewResetToken(userId: nat, token: string, expiresAt: int): (t: PasswordResetToken)
    ensures !t.used && t.token == token && t.userId == userId
  {
    PasswordResetToken(userId, token, expiresAt, false)
  }

  // ---- uniqueness constraints declared by the schema ----

  predicate UniqueEmails(t: Table<User>) {
    forall a, b | a in t.rows && b in t.rows && a != b :: t.rows[a].email != t.rows[b].email
  }

  predicate UniqueRoleNames(t: Table<Role>) {
    forall a, b | a in t.rows && b in t.rows && a != b :: t.rows[a].name != t.rows[b].name
  }

  predicate UniqueCategoryNames(t: Table<Category>) {
    forall a, b | a in t.rows && b in t.rows && a != b :: t.rows[a].name != t.rows[b].name
  }

  predicate UniqueRefreshTokens(t: Table<RefreshToken>) {
    forall a, b | a in t.rows && b in t.rows && a != b :: t.rows[a].token != t.rows[b].token
  }

  predicate UniqueResetTokens(t: Table<PasswordResetToken>) {
    forall a, b | a in t.rows && b in t.rows && a != b :: t.rows[a].token != t.rows[b].token
  }

  /** `user_profiles.user_id` is unique. */
  predicate OneProfilePerUser(t: Table<UserProfile>) {
    forall a, b | a in t.rows && b in t.rows && a != b :: t.rows[a].userId != t.rows[b].userId
  }

  /** Column widths the handlers' validation keeps: `email String(128)`
      and `Category.name String(64)`. */
  predicate WithinWidths(s: Store) {
    && (forall k | k in s.users.rows :: |s.users.rows[k].email| <= 128)
    && (forall k | k in s.categories.rows :: |s.categories.rows[k].name| <= 64)
  }

  /** Every table well formed: the shape any handler may assume. */
  predicate Wf(s: Store) {
    && Tables.Valid(s.users) && Tables.Valid(s.roles) && Tables.Valid(s.userRoles)
    && Tables.Valid(s.profiles) && Tables.Valid(s.categories) && Tables.Valid(s.contents)
    && Tables.Valid(s.comments) && Tables.Valid(s.subscriptions) && Tables.Valid(s.notifications)
    && Tables.Valid(s.refreshTokens) && Tables.Valid(s.resetTokens) && Tables.Valid(s.auditLogs)
  }

  /** Well formed, and every declared uniqueness constraint met. */
  predicate Valid(s: Store) {
    && Wf(s)
    && UniqueEmails(s.users) && UniqueRoleNames(s.roles) && UniqueCategoryNames(s.categories)
    && UniqueRefreshTokens(s.refreshTokens) && UniqueResetTokens(s.resetTokens)
    && OneProfilePerUser(s.profiles)
    && WithinWidths(s)
  }

  /** The names of the roles a user holds through `user_roles`, resolved
      through `roles` (what `user.roles` should yield as names). */
  function RoleNames(s: Store, uid: nat): (names: set<string>)
    ensures forall n :: n in names <==>
      exists k, r :: k in s.userRoles.rows && s.userRoles.rows[k].userId == uid
                  && r == s.userRoles.rows[k].roleId && r in s.roles.rows && s.roles.rows[r].name == n
  {
    set k, r | k in s.userRoles.rows && s.userRoles.rows[k].userId == uid
             && r == s.userRoles.rows[k].roleId && r in s.roles.rows :: s.roles.rows[r].name
  }

  /** Does the user hold at least one `UserRole` row? */
  predicate HasAnyUserRole(s: Store, uid: nat) {
    exists k | k in s.userRoles.rows :: s.userRoles.rows[k].userId == uid
  }
}
