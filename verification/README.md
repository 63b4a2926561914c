# A verified model of the content-platform backend

This project models the request handlers of a Flask/SQLAlchemy backend. The
backend serves users, roles, content with categories and subscriptions,
threaded comments, likes, follows, notifications, refresh and
password-reset tokens, profiles and an audit log. Everything is written in
Dafny 4.11.

The database becomes an immutable `Store`. Each table is a
`Table<T>(rows: map<nat, T>, next: nat)` whose `next` is the auto-increment
id. Each view is a pure function from the store, the caller, the request
and the clock to a `Reply(status, state, raised)`:

- `status` is the HTTP status.
- `state` is the store after the view.
- `raised` records that the view left by an exception (`abort`, a
  marshmallow `ValidationError`, an `AttributeError`) rather than by a
  `return`. The `@audit` decorator treats the two differently.

Collaborators are abstracted:

- bcrypt is an uninterpreted `hash: string -> string`;
- a JWT is its opaque `jti` string;
- `datetime.utcnow()` is an integer `now`.

A marshmallow field arrives as `Absent | Null | Given(v) | Malformed`. It is
loaded into `Invalid | Skipped | Value(v)`.

Modules follow the repository's files:

| module | file | what it holds |
|---|---|---|
| `Schema` | `schema.dfy` | backend/app/models.py: rows, enums, column defaults, uniqueness constraints |
| `Tables`, `Ordering`, `Wrappers`, `Http`, `Marshal` | `tables.dfy`, `ordering.dfy`, `wrappers.dfy`, `http.dfy`, `marshal.dfy` | tables with auto-increment keys, "first row matching", stable sorting, status codes, field loading |
| `CommentForest` | `forest.dfy` | the three comment-thread builders |
| `ContentViews`, `ContentAudit` | `content.dfy`, `content_audit.dfy` | backend/app/content.py |
| `CommentViews` | `comments.dfy` | backend/app/comments.py |
| `AuthViews` | `auth.dfy` | backend/app/auth.py |
| `LegacyAuth` | `auth_routes.dfy` | backend/app/auth_routes.py |
| `CategoryViews` | `categories.dfy` | backend/app/categories.py |
| `ProfileRows`, `UserViews`, `ProfileViews` | `profile_rows.dfy`, `users.dfy`, `profiles.dfy` | the profile row shared by backend/app/users.py and backend/app/profiles.py |
| `NotificationViews` | `notifications.dfy` | backend/app/notifications.py and backend/app/notfications.py |
| `Audit` | `audit.dfy` | backend/app/audit.py |
| `Pagination` | `pagination.dfy` | the activity feed's page arithmetic |
| `SocialViews` | `social.dfy` | backend/app/users/routes.py over backend/app/users/models.py |

backend/app/notfications.py repeats backend/app/notifications.py with only
local names changed. Its two views are therefore modelled once, and each row
below cites both files.

## Model

| member | source | states |
|---|---|---|
| Schema.ParseStatus | backend/app/models.py:70-73 | a string parses to a status iff it is one of the status values, and the parsed status has that value |
| Schema.StatusMember | backend/app/models.py:70-73 | looking up a status member by its Python name succeeds exactly for the three declared names, and the member found carries that name |
| Schema.ParseType | backend/app/models.py:75-78 | a string parses to a type iff it is one of the type values, and the parsed type has that value |
| Schema.EnumValuesRoundTrip | backend/app/models.py:70-78 | parsing a member's value gives the same member back, for both enumerations |
| Schema.NewNotification | backend/app/models.py:143-150 | a new notification is unread and keeps its user and content |
| Schema.NewRefreshToken | backend/app/models.py:80-86 | a new refresh-token record is not revoked |
| Schema.NewResetToken | backend/app/models.py:88-94 | a new reset token is unused |
| Schema.RoleNames | backend/app/models.py:22-33 | a name belongs to a user's role names iff some `user_roles` row links that user to a role of that name |
| CommentForest.AssembleSpec | backend/app/content.py:189-208 | the single pass puts exactly the falsy-parent comments at the root, in input order, and under each comment id exactly the comments naming it |
| CommentForest.OrphansDropped | backend/app/content.py:203-206 | a comment whose parent is not among the comments appears neither at the root nor under any comment |
| CommentForest.AssembleKeepsOrder | backend/app/content.py:189-206 | input sorted by creation time gives sorted roots and sorted reply lists |
| CommentForest.EachCommentOnce | backend/app/content.py:190-208 | with unique ids and no orphans, the roots and all reply lists together hold each comment exactly once |
| CommentForest.StrictAgreesWhenNoOrphans | backend/app/comments.py:38-48 | the unguarded pass fails iff some parent is missing, and otherwise builds the same forest as the guarded one |
| CommentForest.BuildCommentTreeSpec | backend/app/users/routes.py:127-140 | the recursive builder's top level is exactly the comments with no parent, each node's children are exactly the comments naming it (in input order), and every node shown is an input comment whose parent is none or present |
| CommentForest.RecursiveAgreesWithMapPass | backend/app/users/routes.py:127-140 | when no parent id is 0, the recursive builder and the map pass give the same roots and the same children |
| ContentViews.WriterGate | backend/app/content.py:37-40 | the writer gate never raises, and lets a user through iff their role names include TechWriter or Admin |
| ContentViews.WriterGateAsWritten | backend/app/content.py:37-40 | the gate as written never lets anyone through, and raises iff the user holds at least one `UserRole` row |
| ContentViews.AuthorOrAdmin | backend/app/content.py:122-125 | the edit gate never raises, and lets a user through iff they are the author or hold Admin |
| ContentViews.AuthorOrAdminAsWritten | backend/app/content.py:151-154 | the edit gate as written raises iff the user holds a `UserRole` row, and passes iff they hold none and are the author |
| ContentViews.WriterGateByRows | backend/app/content.py:37-40 | the corrected gate passes iff some `user_roles` row links the user to a role named TechWriter or Admin |
| ContentViews.AdminStore | backend/app/models.py:22-33 | the example store really holds a user who has the Admin role through a `UserRole` row |
| ContentViews.AdminRefusedAsWritten | backend/app/content.py:37-40 | an Admin is refused, with an exception, by both gates as written, and let through by both corrected gates |
| ContentViews.LoadContent | backend/app/content.py:21-33 | the payload loads exactly when the title is given with at most 256 characters, the body is given or absent, the media URL and category id are well formed, the type is a known value, and the status is a known value or absent; a full load also needs the title and type, and a partial load keeps only the keys sent; a full load defaults status to Draft, the value of the DRAFT member, the body to empty and the media URL and category to none; loaded values are the ones given |
| ContentViews.StatusDefaultAsWritten | backend/app/content.py:29-32 | as written, the status default names a member the enumeration does not define, so its lookup fails, while the DRAFT member exists |
| ContentViews.CategoryKey | backend/app/content.py:21-33 | a category id is kept only when given, and then names a stored category |
| ContentViews.Subscribers | backend/app/content.py:41-45 | the subscriber list holds exactly the subscriptions to the category, each once, in key order |
| ContentViews.Notify | backend/app/content.py:45-48 | the fan-out keeps every existing notification and adds rows only under fresh keys, one per recipient |
| ContentViews.NotifyAdds | backend/app/content.py:45-48 | the i-th recipient gets an unread notification about the content under key `next + i` |
| ContentViews.NotifyCount | backend/app/content.py:45-48 | the fan-out adds exactly as many rows as there are recipients |
| ContentViews.SendNotifications | backend/app/content.py:41-49 | `_send_notifications` changes only the notification table, and fails only when there are subscribers |
| ContentViews.SendNotificationsOnePerSubscription | backend/app/content.py:41-49 | each subscription to the category gets its own unread notification about the content, with no exclusion of the author |
| ContentViews.SendNotificationsCount | backend/app/content.py:41-49 | the fan-out adds exactly one notification per subscription and keeps every earlier one |
| ContentViews.NewContent | backend/app/content.py:60-66 | the stored content carries the caller as author and the loaded title and status |
| ContentViews.Commit | backend/app/content.py:66-75 | the row is stored under its key and only contents and notifications change; non-Published content notifies nobody; Published content answers the success status iff the fan-out succeeds, and then the store is the fan-out over the new contents; when the fan-out raises the row stays stored and no notification is added |
| ContentViews.CreateContent | backend/app/content.py:53-75 | 404 for an unknown caller, 403 for a caller failing the writer gate, 400 for a rejected payload, 404 for an unknown category, each with the store unchanged; when all four checks pass the answer is 201, or 500 when a Published content's notifications fail, and in both cases the contents gain exactly the row built from the loaded payload under the next key, authored by the caller; only contents and notifications change |
| ContentViews.CreateAllowedIffWriter | backend/app/content.py:37-40 | for a known caller creation is refused with 403 iff the caller holds neither TechWriter nor Admin, and then nothing changes |
| ContentViews.CreatePublishedNotifies | backend/app/content.py:73-74 | a created Published content sends one notification per subscription to its category |
| ContentViews.Apply | backend/app/content.py:134-135 | a partial update writes exactly the supplied fields and keeps author and creation time |
| ContentViews.ApplyIsPatch | backend/app/content.py:126-135 | an empty update changes nothing, and applying the same update twice is applying it once |
| ContentViews.UpdateContent | backend/app/content.py:115-143 | unknown user or content 404; a caller who is neither author nor Admin 403; 400 for a rejected payload; 404 for an unknown category; each with the store unchanged; when all checks pass the answer is 200, or 500 when the patched content is Published and its notifications fail; success replaces only that content, by the patch of the loaded fields; only contents and notifications change, and notifications only when the content ends up Published; a 500 leaves the patched Published row stored |
| ContentViews.UpdatePublishedNotifies | backend/app/content.py:141-142 | an update that leaves the content Published ends in the fan-out state over the updated contents, one notification per subscription |
| ContentViews.UpdateKeepsUnsuppliedFields | backend/app/content.py:126-135 | after a successful update every field the payload left out keeps its stored value |
| ContentViews.CreateContentAsWritten | backend/app/content.py:64-72 | as written, a request that passes every check gets 500 with nothing stored, and none gets 201 |
| ContentViews.UpdateContentAsWritten | backend/app/content.py:130-140 | as written, an update that sends a type or status never gets 200, and one that passes every check gets 500 with nothing changed; other updates behave as intended |
| ContentViews.EnumColumnsRefusedAsWritten | backend/app/content.py:64-65 | a writer's valid Draft content and an author's update that sets the type succeed in the corrected views and get 500 as written |
| ContentViews.DeleteContent | backend/app/content.py:144-161 | deletion succeeds iff the caller is known and the author or an Admin, and removes exactly that content |
| ContentViews.AddComment | backend/app/content.py:162-184 | 404 for missing content; 400 for a missing, null or malformed body or a malformed parent id; 400 for a truthy parent that is no comment of the same content; 201 exactly when none of these applies, and then one new comment is added, with the caller as author, the given body and parent id, and the time of the request; nothing else changes |
| ContentViews.RowsOf | backend/app/content.py:187-189 | the content's comment nodes are exactly its comments, each once |
| ContentViews.RowsOfComplete | backend/app/content.py:187-189 | every comment of the content is among its nodes |
| ContentViews.Thread | backend/app/content.py:187-189 | the query result is the content's comments, each once, sorted by creation time |
| ContentViews.ListComments | backend/app/content.py:185-208 | the listing is a 404 iff the content is missing |
| ContentViews.ListCommentsShape | backend/app/content.py:189-208 | the listing's roots are the content's falsy-parent comments in creation order, and each comment's replies are its children in creation order |
| ContentViews.ListCommentsDropsOrphans | backend/app/content.py:203-206 | a comment whose parent is no comment of the content appears nowhere in the listing |
| ContentViews.ListCommentsEachOnce | backend/app/content.py:190-208 | when every parent is a comment of the same content, every comment appears exactly once |
| ContentAudit.AuditedCreateContent | backend/app/content.py:55 | the decorator passes the status through; an abort changes nothing; a created content is logged once with no target id |
| ContentAudit.AuditedUpdateContent | backend/app/content.py:117 | a successful update is logged once against the content id; refusals are not logged |
| ContentAudit.AuditedDeleteContent | backend/app/content.py:146 | only a deletion that happened is logged, against the content id |
| ContentAudit.AuditedAddComment | backend/app/content.py:164 | a stored comment is logged once with no target id; a 404 or 400 is not logged |
| CommentViews.LoadComment | backend/app/comments.py:10-12 | the payload loads exactly when the body is given and non-empty and the parent id is absent, null or a well-formed integer; the parent id is kept as given, and none when absent or null |
| CommentViews.CreateComment | backend/app/comments.py:16-34 | 404 for missing content; a raised 400 for a rejected payload; a returned 400, storing nothing, exactly when a truthy parent is no comment of the same content; 201 exactly when the content exists, the payload loads and any truthy parent is in the content, and then one comment is added with the loaded body and parent id, by the caller, at the request time; nothing else changes |
| CommentViews.CreateKeepsParentsClosed | backend/app/comments.py:22-26 | creating a comment keeps every reply's parent inside the reply's content |
| CommentViews.AddCommentKeepsParentsClosed | backend/app/content.py:170-177 | the content blueprint's comment creation keeps the same invariant |
| CommentViews.ListComments | backend/app/comments.py:35-48 | the listing is a 404 iff the content is missing |
| CommentViews.ListCrashesIffOrphan | backend/app/comments.py:44-46 | the listing raises iff some comment of the content names a parent that is not a comment of the same content |
| CommentViews.ClosedListingAgrees | backend/app/comments.py:35-48 | on a store whose parents are closed the listing succeeds and equals the content blueprint's listing |
| AuthViews.LoadRegister | backend/app/auth.py:21-23 | registration loads iff an email of at most 128 characters and a password of at least 8 are given |
| AuthViews.LoadLogin | backend/app/auth.py:24-26 | login loads iff both email and password are given |
| AuthViews.UserByEmail | backend/app/auth.py:54 | the lookup finds a user with that email iff one exists |
| AuthViews.CreateTokens | backend/app/auth.py:35-49 | minting stores exactly one new non-revoked record for the user, and fails iff the jti is already on record |
| AuthViews.Register | backend/app/auth.py:50-73 | a rejected payload is 400 and a taken email 409, both with no change; 201 iff the email is free and the jti new, adding exactly one active user and one token record; emails stay unique |
| AuthViews.Login | backend/app/auth.py:74-90 | 400 for a rejected payload; 401 with no change iff the password does not match the first user with the email; 200 iff it matches and the token id is fresh, with one new token record for that user; 500 iff it matches and the token id is taken |
| AuthViews.RegisterThenLogin | backend/app/auth.py:50-90 | whoever registers can log in with the same credentials |
| AuthViews.TokenRecord | backend/app/auth.py:94 | the lookup finds a record with that jti iff one exists |
| AuthViews.Refresh | backend/app/auth.py:91-103 | refresh never changes the store; with unique tokens it succeeds iff the jti has a non-revoked record |
| AuthViews.Logout | backend/app/auth.py:104-112 | logout always answers 200; an unknown jti changes nothing; a known one has exactly its record revoked |
| AuthViews.LogoutIdempotent | backend/app/auth.py:104-112 | logging out twice is logging out once |
| AuthViews.FirstAfterPut | backend/app/auth.py:108-110 | revoking the record in place keeps it the record found for that jti |
| AuthViews.LogoutThenRefreshFails | backend/app/auth.py:94-97 | after logout the same refresh token is refused |
| AuthViews.LoginThenRefresh | backend/app/auth.py:94-97 | the token a login mints is accepted by refresh |
| AuthViews.RequestPasswordReset | backend/app/auth.py:128-145 | the same 200 whether or not the email is known; a token expiring one hour later is stored only for a known email and a fresh token |
| AuthViews.LoadReset | backend/app/auth.py:29-31 | a reset loads iff a token and a new password of at least 8 are given |
| AuthViews.UnusedToken | backend/app/auth.py:149 | the lookup finds an unused token with that string iff one exists |
| AuthViews.ResetPassword | backend/app/auth.py:146-160 | 400 with no change for a missing, used or expired token; success rehashes the user's password and marks the token used |
| AuthViews.ResetTokenSingleUse | backend/app/auth.py:149-155 | with unique tokens a second reset with the same token is a 400 that changes nothing |
| AuthViews.RequestThenReset | backend/app/auth.py:128-155 | a reset requested for a known email can be used within the hour |
| AuthViews.RoleByName | backend/app/auth.py:232 | the lookup finds a role with that name iff one exists |
| AuthViews.Promote | backend/app/auth.py:227-236 | unknown user or role 404; 409 iff the pair is held; 200 iff the user and role exist and the pair is not yet held, and then exactly one `UserRole` row is added; pairs stay unique |
| AuthViews.PromoteAsWritten | backend/app/auth.py:227-237 | as written, promoting a known user to a known role they do not hold stores the pair but answers 500 |
| LegacyAuth.RoleOf | backend/app/auth_routes.py:17 | the role defaults to "user" when absent |
| LegacyAuth.LegacyRegister | backend/app/auth_routes.py:8-49 | for the user record the view was written for: 400 for a missing field, then 400 for a password mismatch, then 409 for a known email, none of which changes anything; otherwise 201 and exactly that record is added |
| LegacyAuth.LegacyRegisterAsWritten | backend/app/auth_routes.py:8-39 | against the imported `User`: the same 400, 400 and 409; 500 iff those checks pass; never 201 and never a change to the users |
| LegacyAuth.LegacyLogin | backend/app/auth_routes.py:52-78 | for the intended record: 400 for missing fields, then 404 for an unknown email; 401 iff the first record with the email does not hold the password's hash; 200 iff it does; never changes the users |
| LegacyAuth.LegacyLoginAsWritten | backend/app/auth_routes.py:52-73 | against the imported `User`: the same 400, 404 and 401; 500 iff the credentials match; never 200 |
| LegacyAuth.LegacyRegisterThenLogin | backend/app/auth_routes.py:8-78 | for the intended record, a registered user can log in with the same credentials |
| LegacyAuth.LegacyRoundTripFailsAsWritten | backend/app/auth_routes.py:33-73 | as written, a valid new sign-up answers 500 and stores nothing, and a stored user with the right password gets 500 |
| CategoryViews.LoadCategory | backend/app/categories.py:12-20 | the load accepts a name of 1 to 64 characters and a description of at most 256 or null; a missing description is null on a full load and skipped on a partial one |
| CategoryViews.CreateCategory | backend/app/categories.py:39-63 | 400 for a rejected payload; 409 iff the name is taken; 201 iff the payload loads and the name is free, and then exactly one category is added; names stay unique and within width |
| CategoryViews.UpdateCategory | backend/app/categories.py:64-92 | 404 for an unknown id; 400 without a name; 409 iff another category holds the name; 200 iff the payload loads with a name that is the category's own or held by no other category; a missing description is kept; names stay unique |
| CategoryViews.DeleteCategory | backend/app/categories.py:93-105 | 404 for an unknown id; otherwise exactly that category is removed |
| CategoryViews.AllRows | backend/app/categories.py:26 | the query yields every category once |
| CategoryViews.ListCategories | backend/app/categories.py:24-30 | the listing holds every category once, sorted by name |
| CategoryViews.AuditedCreateCategory | backend/app/categories.py:42 | a rejected payload is not logged; a returned 201 or 409 is logged once with no target id |
| CategoryViews.AuditedUpdateCategory | backend/app/categories.py:67 | aborts are not logged; returned answers are logged once against the category id |
| CategoryViews.AuditedDeleteCategory | backend/app/categories.py:96 | only a deletion that happened is logged |
| ProfileRows.LoadOptional | backend/app/users.py:12-16 | an optional string field is skipped iff absent, accepted within its length bound, and null only where allowed |
| ProfileRows.Patch | backend/app/users.py:53-55 | the patch writes exactly the supplied keys and keeps owner and timestamps |
| ProfileRows.PatchLaws | backend/app/profiles.py:45-49 | an empty payload changes nothing, and patching twice is patching once |
| ProfileRows.BlankProfile | backend/app/users.py:38-41 | a new profile belongs to the user and has every column null |
| ProfileRows.ProfileOf | backend/app/profiles.py:22 | the lookup finds a profile of the user iff one exists |
| ProfileRows.OneProfile | backend/app/models.py:38 | under the unique `user_id` a user with a profile has exactly one |
| ProfileRows.AddKeepsOneProfile | backend/app/users.py:50-52 | inserting the first profile of a user keeps one profile per user |
| ProfileRows.PutKeepsOneProfile | backend/app/users.py:53-55 | rewriting a user's profile in place keeps one profile per user |
| ProfileRows.SameFirstProfile | backend/app/users.py:53-55 | after rewriting, the same row is still the user's profile |
| ProfileRows.NewFirstProfile | backend/app/users.py:50-52 | after inserting, the new row is the user's profile |
| UserViews.LoadProfile | backend/app/users.py:12-16 | the load accepts a name of at most 128 and social links of at most 512, and no nulls; supplied values are kept |
| UserViews.GetMyProfile | backend/app/users.py:32-42 | 404 for an unknown caller; otherwise the caller ends with a profile, an empty one added only when they had none |
| UserViews.UpdateMyProfile | backend/app/users.py:43-62 | 400 before 404; a loaded payload from a known caller always succeeds; success creates a missing profile and writes exactly the supplied keys onto the caller's profile, changing no other row |
| UserViews.ProfileViewsLeaveOne | backend/app/users.py:38-52 | a read leaves a known caller with exactly one profile; an update with a loaded payload answers 200 and leaves exactly one; a rejected payload leaves the count unchanged |
| UserViews.AuditedGetMyProfile | backend/app/users.py:34 | every read by a known caller is logged once, with no target id |
| UserViews.AuditedUpdateMyProfile | backend/app/users.py:45 | a successful update is logged once; a refusal changes nothing |
| UserViews.AuditedPromote | backend/app/users.py:63-79 | a promotion stores the pair and is logged once against the user id |
| UserViews.AuditedPromoteAsWritten | backend/app/users.py:63-79 | as written a promotion stores the pair, answers 500 and is not logged |
| ProfileViews.LoadPatch | backend/app/profiles.py:11-15 | the load accepts a name of at most 128, a bio of at most 1024 and social links of at most 512; avatar and links accept null |
| ProfileViews.GetMyProfile | backend/app/profiles.py:19-35 | the answer is empty iff the caller has no profile, and nothing is created |
| ProfileViews.UpdateMyProfile | backend/app/profiles.py:36-64 | 400 for a rejected payload; otherwise a missing profile is created from the payload, or the existing one has exactly the payload's keys overwritten |
| ProfileViews.PatchThenGet | backend/app/profiles.py:19-64 | a later read returns the patched profile |
| ProfileViews.GetUserProfile | backend/app/profiles.py:65-78 | 404 iff the user has no profile, otherwise that profile |
| NotificationViews.Inbox | backend/app/notifications.py:15-20 | the inbox holds exactly the caller's notifications, each once, newest first |
| NotificationViews.ListNotifications | backend/app/notfications.py:9-36 | the page is the window of the caller's inbox, newest first, with the total count; page and per_page default to 1 and 20 |
| NotificationViews.InboxCountsOwn | backend/app/notifications.py:9-36 | the total is the number of the caller's notifications |
| NotificationViews.WindowIsSlice | backend/app/notifications.py:15-20 | a page is a contiguous run of the inbox |
| NotificationViews.MarkRead | backend/app/notifications.py:37-63 | 404 with no change iff the notification is missing or not the caller's; an unread one has exactly its flag set; a read one answers "Already marked as read" with no change |
| NotificationViews.MarkReadIdempotent | backend/app/notfications.py:37-55 | marking twice is marking once: the second call changes nothing |
| Audit.ResolveDetails | backend/app/audit.py:42-47 | details are `{}` unless the details function returned a non-empty dict |
| Audit.ResolveTarget | backend/app/audit.py:33-41 | the target id comes from the named URL argument if present, otherwise from the result's JSON |
| Audit.RecordAction | backend/app/audit.py:10-27 | one entry with the given fields is appended on a good commit; a failed commit leaves the log as it was |
| Audit.Audited | backend/app/audit.py:28-51 | the decorator returns the view's result unchanged, logs exactly one entry after a return whatever the status, and none after an exception |
| Audit.TupleResultTarget | backend/app/audit.py:33-41 | for a tuple result the target is the URL argument when present and none otherwise |
| Audit.Limit | backend/app/audit.py:55 | the limit defaults to 50; a limit up to 200 is kept and one over 200 becomes 200 |
| Audit.SortAll | backend/app/audit.py:56 | all entries, each once, newest first |
| Audit.ListLogs | backend/app/audit.py:52-67 | at most min(limit, 200) entries, exactly that many when available, each a stored entry listed once, newest first |
| Audit.ListLogsKeepsNewest | backend/app/audit.py:56 | no entry left out is newer than one shown |
| Pagination.ActivityPage | backend/app/users/routes.py:255-263 | a per_page of 0 raises; otherwise the total is the feed length and the page number is echoed |
| Pagination.PagesIsCeiling | backend/app/users/routes.py:263 | pages is the ceiling of total / per_page |
| Pagination.PageIsWindow | backend/app/users/routes.py:256-258 | for page and per_page at least 1 the page is the clipped window [(page-1)·per_page, page·per_page) |
| Pagination.PagesPartitionFeed | backend/app/users/routes.py:255-263 | pages 1 to `pages` laid end to end are the whole feed |
| SocialViews.NewMember | backend/app/users/models.py:16-24 | a new user is active, with empty subscription and wishlist lists and every notification preference on |
| SocialViews.SetOfCard | backend/app/users/routes.py:29-31 | a list has at most as many distinct elements as entries, and as many iff it has no repeats |
| SocialViews.CountCheckMeans | backend/app/users/routes.py:30-31 | the length check passes iff every id exists and no id repeats |
| SocialViews.UpdateSubscriptions | backend/app/users/routes.py:26-35 | 400 iff some id is no category or an id repeats; otherwise only the caller's subscription list is replaced |
| SocialViews.UpdateWishlist | backend/app/users/routes.py:176-185 | 400 iff some id is no content or an id repeats; otherwise only the caller's wishlist is replaced |
| SocialViews.CreatePost | backend/app/users/routes.py:40-65 | one new content by the caller; each subscriber other than the caller gets exactly one notification; the caller gets none |
| SocialViews.Excerpt | backend/app/users/routes.py:113 | the excerpt is a prefix of the body of at most 50 characters |
| SocialViews.CreateComment | backend/app/users/routes.py:91-119 | with the parent check comparing like with like: 404 for missing content or a missing parent; 400 iff the parent belongs to other content; success adds one comment and notifies the author unless the author is the caller |
| SocialViews.CreateCommentAsWritten | backend/app/users/routes.py:96-99 | as written, 400 iff the content exists and a truthy parent exists, whatever content it belongs to; without a truthy parent it is the intended view |
| SocialViews.ReplyRefusedAsWritten | backend/app/users/routes.py:98 | a reply to a comment of the same content is stored by the intended view and refused with 400 as written |
| SocialViews.CommentNodes | backend/app/users/routes.py:126 | the nodes are exactly the content's comments, each once |
| SocialViews.ViewComments | backend/app/users/routes.py:124-141 | 404 iff the content is missing; otherwise the recursive tree of the content's comments |
| SocialViews.OccursInStore | backend/app/users/routes.py:127-140 | every node of the tree is a stored comment of the content whose parent is none or a comment of the same content |
| SocialViews.LikeOf | backend/app/users/routes.py:150 | the lookup finds the caller's like of the content iff one exists |
| SocialViews.Upsert | backend/app/users/routes.py:150-159 | an existing like is overwritten in place and otherwise one is added; at most one like per user and content is kept |
| SocialViews.LikeContent | backend/app/users/routes.py:146-171 | 404 for missing content; success records the caller's reaction in the single row for the pair and notifies the author unless the author is the caller |
| SocialViews.LikeTwiceKeepsOneRow | backend/app/users/routes.py:150-159 | liking twice keeps one row holding the second reaction |
| SocialViews.Follow | backend/app/users/routes.py:270-284 | 404 for an unknown user, 400 for self, 400 if already following; otherwise exactly that pair is added and the target is notified |
| SocialViews.Unfollow | backend/app/users/routes.py:289-298 | 404 for an unknown user, 400 for self, 400 if not following; otherwise exactly that pair is removed |
| SocialViews.FollowKeepsGraphOk | backend/app/users/models.py:5-8 | following and unfollowing keep the follow pairs between known, distinct users |
| SocialViews.FollowUnfollowRestores | backend/app/users/routes.py:270-298 | a follow undone by an unfollow, or an unfollow undone by a follow, restores the follow set |
| SocialViews.Latest | backend/app/users/routes.py:223 | the query keeps the min(50, n) newest rows, newest first |
| SocialViews.PostsFeed | backend/app/users/routes.py:223-230 | one "posted" entry per content of the caller, at most 50 |
| SocialViews.CommentsFeed | backend/app/users/routes.py:233-240 | one "commented" entry per comment of the caller, at most 50 |
| SocialViews.LikesFeed | backend/app/users/routes.py:243-249 | one "liked" or "disliked" entry per like of the caller, at most 50 |
| SocialViews.Feed | backend/app/users/routes.py:219-249 | the feed length is the sum over the three kinds of min(50, the caller's rows of that kind) |
| SocialViews.GetUserActivity | backend/app/users/routes.py:214-265 | with a sort key that orders every activity: 500 iff the caller is unknown or per_page is 0; the total is the feed length; for page and per_page at least 1 the page is the window of the sorted feed |
| SocialViews.GetUserActivityAsWritten | backend/app/users/routes.py:214-265 | as written, 500 iff the caller is unknown, per_page is 0, or the feed mixes likes with posts or comments; otherwise the intended view |
| SocialViews.ActivityCrashesAsWritten | backend/app/users/routes.py:252 | a caller with a post and a like gets a page from the intended view and a 500 as written |

## Left out

- The `roles_required` guard (backend/app/categories.py:41, backend/app/auth.py:229, backend/app/users.py:65, backend/app/profiles.py:67) is imported but not defined anywhere visible. Guarded views are modelled past the guard, and no property is claimed about it.
- `jwt_required` is left out. The caller's identity is a parameter.
- bcrypt and JWT encoding are left out. They are library round trips: a hash is an uninterpreted function and a token is its `jti`.
- The OAuth views (backend/app/auth.py:162-226) need an external identity provider.
- `/auth/me` (backend/app/auth.py:113-127) only serialises a row.
- `get_category` (backend/app/categories.py:31-38) only serialises a row.
- `list_content` and `get_content` (backend/app/content.py:76-114) are read-only listings and were not among the modelled views.
- The `handle_validation` error handlers are left out. A marshmallow error is a 400 that the view raised.
- Transactions and isolation are left out.
- Most `SQLAlchemyError` rollback paths are left out. The exceptions are three: the audit commit (`commitOk`), the unique-token collisions on register and login, and the reset-token collision, which is rolled back. The commit failure that every content create and every type or status update meets as written is not a chance failure; it is listed under Findings.
- ORM delete cascades are left out. Deleting a content or category leaves its comments and subscriptions as rows.
- `updated_at` `onupdate` is left out. `ProfileRows.Patch` keeps the timestamps.
- Flask-SQLAlchemy `paginate` normalisation is left out.
- NotificationViews.ListNotifications: requires page and per_page of at least 1, because the library's clamping of other values is not modelled.
- SocialViews.GetUserActivity: does not model the `ValueError` of a non-integer `page` or `per_page`, which is folded into "argument absent".
- SocialViews.GetUserActivity: the order the sort produces is a parameter, constrained only to be a permutation of the gathered feed.
- SocialViews.CreatePost: the recipients are the users whose subscription list holds the category. The source selects them with `User.subscriptions.contains([cat])` on a plain `db.JSON` column (backend/app/users/models.py:18). That is a JSONB containment test only on engines that have one; elsewhere it is a string match or an error. The model takes the containment reading.
- Audit.ListLogs: a negative `limit` is `None`, because what `LIMIT -n` does depends on the database engine.
- LegacyAuth.LegacyRegister, with LegacyLogin and LegacyRegisterThenLogin, works on the user record the views were written for. Against the imported `User` the views answer 500 instead of 201 and 200; that is LegacyRegisterAsWritten and LegacyLoginAsWritten, listed under Findings.
- Unknown keys in a JSON body are not modelled. Every schema except `CategorySchema` keeps marshmallow's default `unknown=RAISE`, so an extra key is a 400. The payload datatypes cannot hold an extra key. This affects the following members:
  - ContentViews.LoadContent and ContentViews.AddComment (`ContentSchema`, `CommentSchema`);
  - CommentViews.LoadComment;
  - AuthViews.LoadRegister, AuthViews.LoadLogin, AuthViews.LoadReset and AuthViews.RequestPasswordReset;
  - UserViews.LoadProfile and ProfileViews.LoadPatch.
- SocialViews.CreatePost: a missing JSON key is a 500. Column widths and content existence are not checked.
- `create_notification` (imported by backend/app/users/routes.py) is not part of this model. It is taken to add one notification for the named user.
- The content model behind backend/app/users/routes.py is not part of this model. Its rows are the fields the views read.
- backend/app/users/routes.py is modelled only for the listed views. The following are left out:
  - `update_user_profile`, whose `ramoquest` typo makes it raise;
  - `read_content`, `share_content`, `get_recommendations` and `get_followed_content`;
  - `get_user_stats`, `search_users`, `get_content_analytics` and `get_notifications`.
- The stray `app.register_blueprint` at backend/app/users/models.py:36 is left out.
- The SMS password reset, the comment edit-window and delete rules, and the admin moderation endpoints are left out. They appear only in the tests; no handler for them is present.
- `EmailVerificationToken`, `Reaction` and `Wishlist` (backend/app/models.py) are not read by any modelled view.
- Email and URL format validators are abstracted. A payload field carries the validator's verdict as `Malformed`.
- `data` being `None` (no JSON body) in backend/app/auth_routes.py and backend/app/users/routes.py is left out. The payload is always an object.

## Findings

| source | as written | input that shows it | evidently intended | confidence | as-written member | corrected member |
|---|---|---|---|---|---|---|
| backend/app/content.py:37-40 | `{r.name for r in user.roles}` reads `.name` on `UserRole` rows, which have none (backend/app/models.py:14, 29-33) | a TechWriter or Admin creating content: any user with one `user_roles` row gets an `AttributeError` (500); a user with none gets 403 | the names of the roles linked through `user_roles` | not executed | ContentViews.WriterGateAsWritten | ContentViews.WriterGate |
| backend/app/content.py:122-125 | `any(r.name == "Admin" for r in user.roles)` raises on the first `UserRole` row | an Admin, or an author holding any role, updating content: 500 | author, or holder of the Admin role | not executed | ContentViews.AuthorOrAdminAsWritten | ContentViews.AuthorOrAdmin |
| backend/app/content.py:151-154 | the same check in `delete_content` | an Admin deleting another user's content: 500 | author, or holder of the Admin role | not executed | ContentViews.AdminRefusedAsWritten | ContentViews.AuthorOrAdmin |
| backend/app/auth.py:236-237 | the role list is read after the commit, through `.name` on `UserRole` | promoting any user: the pair is stored, then 500 | 200 with the user's role names | not executed | AuthViews.PromoteAsWritten | AuthViews.Promote |
| backend/app/users.py:75-79 | the same read after the commit, under `@audit` | promoting any user: the pair is stored, 500, and no audit entry | 200, logged against the user id | not executed | UserViews.AuditedPromoteAsWritten | UserViews.AuditedPromote |
| backend/app/auth_routes.py:33-39 | `User(name=..., email=..., phone=..., password_hash=..., role=...)` passes keywords that the imported `User` (backend/app/models.py:5-11) does not declare, so the constructor raises `TypeError` | a sign-up with every field, matching passwords and a new email: 500, and nothing stored | a user record with name, phone and role columns is stored, then 201 | not executed | LegacyAuth.LegacyRegisterAsWritten | LegacyAuth.LegacyRegister |
| backend/app/auth_routes.py:73 | `create_token(existing_user.id, existing_user.role)` reads `role`, which `User` does not have | a stored user logging in with the right password: `AttributeError`, 500 | 200 with a token carrying the user's role | not executed | LegacyAuth.LegacyLoginAsWritten | LegacyAuth.LegacyLogin |
| backend/app/users/routes.py:98 | `parent_comment.content_id != content_id` compares the integer column with the URL segment, a string, since the route has no `int:` converter; the comparison is always true. The content model (backend/app/content/models.py) is not part of this model, and its column is taken to be an integer like the other ids | a reply whose parent is a comment of the same content: 400 "Invalid parent comment" | 400 only when the parent belongs to other content | not executed | SocialViews.CreateCommentAsWritten | SocialViews.CreateComment |
| backend/app/users/routes.py:252 | the sort key is an ISO string for posts and comments and an integer id for likes, and Python cannot order a string against an integer | a caller with one post and one like: `TypeError`, 500 | activities ordered newest first by a comparable timestamp | not executed | SocialViews.GetUserActivityAsWritten | SocialViews.GetUserActivity |
| backend/app/content.py:30 | `load_default=ContentStatusEnum.Draft.value` runs while the class body is evaluated, and the members are named DRAFT, PUBLISHED and FLAGGED (backend/app/models.py:70-73), so importing content.py raises `AttributeError`. `ContentStatusEnum.Published` at lines 73 and 141 has the same spelling | any request to a content view: the module does not load | the DRAFT member's value, "Draft", as the default status | not executed | ContentViews.StatusDefaultAsWritten | ContentViews.LoadContent |
| backend/app/content.py:64-65 | `ContentTypeEnum(...)` and `ContentStatusEnum(...)` put enumeration members into the `String(50)` columns `content_type` and `status` (backend/app/models.py:61-62); the database driver cannot bind an `Enum` member, so the commit raises a `SQLAlchemyError` and the view answers 500; lines 130-133 do the same on update | a TechWriter creating a valid Draft article, or an author updating the type: 500, and nothing stored | the member's string value stored in the column, then 201 or 200 | not executed | ContentViews.CreateContentAsWritten | ContentViews.CreateContent |
| backend/app/content.py:130-133 | the same conversion in `update_content`, for a payload carrying `content_type` or `status` | an author setting `content_type` to "Article": 500, and nothing changed | the patched row stored, then 200 | not executed | ContentViews.UpdateContentAsWritten | ContentViews.UpdateContent |
