/** backend/app/content.py: the content views, their role and ownership
    gates, the subscriber fan-out, and the comment thread of a content. */
module ContentViews {
  import opened Wrappers
  import opened Tables
  import opened Http
  import opened Schema
  import opened Marshal
  import opened Ordering
  import opened CommentForest

  // ---- gates ----

  /** A permission check either lets the request through, refuses it with
      403, or raises (500). */
  datatype Gate = Pass | Deny | Crash

  /** `_require_writer_or_admin`, with each `UserRole` resolved to its
      role's name. */
  function WriterGate(s: Store, uid: nat): (g: Gate)
    ensures g != Crash
    ensures g == Pass <==> "TechWriter" in RoleNames(s, uid) || "Admin" in RoleNames(s, uid)
  {
    var names := RoleNames(s, uid);
    if "TechWriter" !in names && "Admin" !in names then Deny else Pass
  }

  /** `_require_writer_or_admin` as written: `user.roles` yields `UserRole`
      rows, which have no `name`, so the set comprehension raises
      `AttributeError` for a user holding any role and is empty otherwise. */
  function WriterGateAsWritten(s: Store, uid: nat): (g: Gate)
    ensures g != Pass
    ensures g == Crash <==> HasAnyUserRole(s, uid)
  {
    if HasAnyUserRole(s, uid) then Crash else Deny
  }

  /** The check of `update_content` and `delete_content`: the author, or a
      holder of Admin. */
  function AuthorOrAdmin(s: Store, uid: nat, c: Content): (g: Gate)
    ensures g != Crash
    ensures g == Pass <==> c.authorId == uid || "Admin" in RoleNames(s, uid)
  {
    if c.authorId == uid || "Admin" in RoleNames(s, uid) then Pass else Deny
  }

  /** The same check as written: `is_admin` iterates `user.roles` before
      the author test is used, so any user holding a role raises. */
  function AuthorOrAdminAsWritten(s: Store, uid: nat, c: Content): (g: Gate)
    ensures g == Crash <==> HasAnyUserRole(s, uid)
    ensures g == Pass <==> !HasAnyUserRole(s, uid) && c.authorId == uid
  {
    if HasAnyUserRole(s, uid) then Crash
    else if c.authorId == uid then Pass
    else Deny
  }

  /** The gate lets a user through iff some `user_roles` row links them to
      a role named TechWriter or Admin. */
  lemma WriterGateByRows(s: Store, uid: nat)
    ensures WriterGate(s, uid) == Pass <==>
      exists k | k in s.userRoles.rows ::
        s.userRoles.rows[k].userId == uid && s.userRoles.rows[k].roleId in s.roles.rows
        && s.roles.rows[s.userRoles.rows[k].roleId].name in {"TechWriter", "Admin"}
  {
    var names := RoleNames(s, uid);
    if "TechWriter" in names || "Admin" in names {
      var n := if "TechWriter" in names then "TechWriter" else "Admin";
      var k, r :| k in s.userRoles.rows && s.userRoles.rows[k].userId == uid
                  && r == s.userRoles.rows[k].roleId && r in s.roles.rows && s.roles.rows[r].name == n;
      assert s.roles.rows[s.userRoles.rows[k].roleId].name in {"TechWriter", "Admin"};
    }
  }

  /** A one-user store in which user 1 holds the Admin role. */
  function AdminStore(): (s: Store)
    ensures 1 in s.users.rows && HasAnyUserRole(s, 1)
    ensures "Admin" in RoleNames(s, 1)
  {
    var s := Store(
      Table(map[1 := User("admin@example.com", "h", true, 0)], 2),
      Table(map[1 := Role("Admin")], 2),
      Table(map[1 := UserRole(1, 1)], 2),
      Empty(), Empty(), Empty(), Empty(), Empty(), Empty(), Empty(), Empty(), Empty());
    assert s.userRoles.rows[1].userId == 1;
    s
  }

  /** An Admin is refused by the gates as written (the request raises),
      where the intended gates let them through. */
  lemma AdminRefusedAsWritten(c: Content)
    ensures WriterGateAsWritten(AdminStore(), 1) == Crash
    ensures WriterGate(AdminStore(), 1) == Pass
    ensures AuthorOrAdminAsWritten(AdminStore(), 1, c) == Crash
    ensures AuthorOrAdmin(AdminStore(), 1, c) == Pass
  {
  }

  // ---- ContentSchema ----

  datatype ContentPayload = ContentPayload(
    title: Field<string>, body: Field<string>, mediaUrl: Field<string>,
    contentType: Field<string>, status: Field<string>, categoryId: Field<int>)

  /** The loaded dict: `None` for a key the (partial) load left out. */
  datatype ContentData = ContentData(
    title: Option<string>, body: Option<string>, mediaUrl: Option<Option<string>>,
    contentType: Option<ContentType>, status: Option<ContentStatus>,
    categoryId: Option<Option<int>>)

  /** `ContentSchema().load(payload, partial=partial)`; `None` is a
      `ValidationError` (400). */
  function LoadContent(p: ContentPayload, partial: bool): (r: Option<ContentData>)
    ensures r.Some? <==>
      && (match p.title case Given(t) => |t| <= 256 case Absent => partial case _ => false)
      && (p.body.Given? || p.body.Absent?)
      && !p.mediaUrl.Malformed?
      && (match p.contentType case Given(v) => ParseType(v).Some? case Absent => partial case _ => false)
      && (match p.status case Given(v) => ParseStatus(v).Some? case Absent => true case _ => false)
      && !p.categoryId.Malformed?
    ensures p.title.Given? && |p.title.v| > 256 ==> r.None?
    ensures !partial && (p.title.Absent? || p.contentType.Absent?) ==> r.None?
    ensures p.contentType.Given? && ParseType(p.contentType.v).None? ==> r.None?
    ensures p.status.Given? && ParseStatus(p.status.v).None? ==> r.None?
    ensures r.Some? && !partial ==>
      r.value.title.Some? && r.value.body.Some? && r.value.mediaUrl.Some?
      && r.value.contentType.Some? && r.value.status.Some? && r.value.categoryId.Some?
    ensures r.Some? && !partial && p.status.Absent? ==> r.value.status == Some(Draft)
    ensures r.Some? && partial ==>
      (r.value.title.Some? <==> p.title.Present()) && (r.value.body.Some? <==> p.body.Present())
      && (r.value.mediaUrl.Some? <==> p.mediaUrl.Present())
      && (r.value.contentType.Some? <==> p.contentType.Present())
      && (r.value.status.Some? <==> p.status.Present())
      && (r.value.categoryId.Some? <==> p.categoryId.Present())
    ensures r.Some? && r.value.title.Some? ==> p.title == Given(r.value.title.value) && |r.value.title.value| <= 256
    ensures r.Some? && r.value.status.Some? && p.status.Given? ==> StatusValue(r.value.status.value) == p.status.v
    ensures r.Some? && p.contentType.Given? ==> r.value.contentType == ParseType(p.contentType.v)
    ensures r.Some? && r.value.body.Some? ==> r.value.body.value == (if p.body.Given? then p.body.v else "")
    ensures r.Some? && r.value.mediaUrl.Some? ==> r.value.mediaUrl.value == (if p.mediaUrl.Given? then Some(p.mediaUrl.v) else None)
    ensures r.Some? && r.value.categoryId.Some? ==> r.value.categoryId.value == (if p.categoryId.Given? then Some(p.categoryId.v) else None)
  {
    var t := LoadField(p.title, partial, None, None, Length(0, 256));
    var b := LoadField(p.body, partial, Some(""), None, AnyValue());
    var m := LoadField(p.mediaUrl, partial, Some(None), Some(None), Nullable(AnyValue()));
    var ty := LoadField(p.contentType, partial, None, None, ParseType);
    var st := LoadField(p.status, partial, Some(Draft), None, ParseStatus);
    var c := LoadField(p.categoryId, partial, Some(None), Some(None), Nullable(AnyValue()));
    if t.Invalid? || b.Invalid? || m.Invalid? || ty.Invalid? || st.Invalid? || c.Invalid? then None
    else Some(ContentData(Got(t), Got(b), Got(m), Got(ty), Got(st), Got(c)))
  }

  /** The `load_default` of `ContentSchema.status` as written. The class
      body looks up `ContentStatusEnum.Draft`, but the members are named
      DRAFT, PUBLISHED and FLAGGED, so the lookup raises `AttributeError`
      and content.py cannot be imported; `None` is that failure. The same
      spelling of Published (content.py:73, 141) is never reached. */
  function StatusDefaultAsWritten(): (r: Option<ContentStatus>)
    ensures r.None?
    ensures StatusMember("DRAFT") == Some(Draft)
  {
    StatusMember("Draft")
  }

  /** `category_id` is `None`, or names a stored category. */
  predicate CategoryOk(s: Store, cat: Option<int>) {
    cat.None? || (cat.value >= 0 && cat.value in s.categories.rows)
  }

  function CategoryKey(s: Store, cat: Option<int>): (r: Option<nat>)
    requires CategoryOk(s, cat)
    ensures r.Some? <==> cat.Some?
    ensures r.Some? ==> r.value == cat.value && r.value in s.categories.rows
  {
    if cat.None? then None else Some(cat.value as nat)
  }

  // ---- _send_notifications ----

  /** The subscriptions to a category (`filter_by(category_id=...)`; a
      `None` category matches none, the column being non-null). */
  function Subscribers(s: Store, cat: Option<nat>): (r: seq<(nat, Subscription)>)
    requires Tables.Valid(s.subscriptions)
    ensures forall i | 0 <= i < |r| ::
      (r[i].0 in s.subscriptions.rows && r[i].1 == s.subscriptions.rows[r[i].0] && cat == Some(r[i].1.categoryId))
    ensures forall k | k in s.subscriptions.rows && cat == Some(s.subscriptions.rows[k].categoryId) ::
      exists i :: 0 <= i < |r| && r[i].0 == k
    ensures forall i, j | 0 <= i < j < |r| :: r[i].0 < r[j].0
  {
    if cat.None? then [] else Select(s.subscriptions, (x: Subscription) => x.categoryId == cat.value)
  }

  /** One unread notification per recipient, in order, under fresh keys. */
  function Notify(t: Table<Notification>, users: seq<nat>, cid: nat, msg: string, now: int): (r: Table<Notification>)
    requires Tables.Valid(t)
    ensures Tables.Valid(r) && r.next == t.next + |users|
    ensures forall k | k in t.rows :: k in r.rows && r.rows[k] == t.rows[k]
    ensures forall k | k in r.rows :: k in t.rows || t.next <= k < t.next + |users|
    decreases |users|
  {
    if |users| == 0 then t
    else Notify(Insert(t, NewNotification(users[0], Some(cid), msg, now)), users[1..], cid, msg, now)
  }

  /** The `i`-th recipient's notification sits under key `next + i`. */
  lemma {:induction false} NotifyAdds(t: Table<Notification>, users: seq<nat>, cid: nat, msg: string, now: int, i: nat)
    requires Tables.Valid(t) && i < |users|
    ensures var r := Notify(t, users, cid, msg, now);
            t.next + i in r.rows && r.rows[t.next + i] == NewNotification(users[i], Some(cid), msg, now)
    decreases |users|
  {
    if i > 0 {
      NotifyAdds(Insert(t, NewNotification(users[0], Some(cid), msg, now)), users[1..], cid, msg, now, i - 1);
    }
  }

  /** The fan-out adds exactly as many rows as there are recipients. */
  lemma {:induction false} NotifyCount(t: Table<Notification>, users: seq<nat>, cid: nat, msg: string, now: int)
    requires Tables.Valid(t)
    ensures |Notify(t, users, cid, msg, now).rows| == |t.rows| + |users|
    decreases |users|
  {
    if |users| > 0 {
      var t1 := Insert(t, NewNotification(users[0], Some(cid), msg, now));
      assert |t1.rows| == |t.rows| + 1 by {
        assert t1.rows.Keys == t.rows.Keys + {t.next};
      }
      NotifyCount(t1, users[1..], cid, msg, now);
    }
  }

  /** The recipients of a fan-out: each subscription's user, in order. */
  function Recipients(subs: seq<(nat, Subscription)>): (r: seq<nat>)
    ensures |r| == |subs| && forall i | 0 <= i < |subs| :: r[i] == subs[i].1.userId
  {
    seq(|subs|, i requires 0 <= i < |subs| => subs[i].1.userId)
  }

  function Message(c: Content, categoryName: string): string {
    "New " + TypeValue(c.contentType) + " in " + categoryName + ": " + c.title
  }

  /** `_send_notifications(content)`: `None` when there are subscribers but
      the category row is gone (`content.category.name` raises). */
  function SendNotifications(s: Store, cid: nat, c: Content, now: int): (r: Option<Store>)
    requires Tables.Valid(s.subscriptions) && Tables.Valid(s.notifications)
    ensures r.Some? ==> r.value == s.(notifications := r.value.notifications)
    ensures r.Some? ==> Tables.Valid(r.value.notifications)
    ensures r.None? ==> |Subscribers(s, c.categoryId)| > 0
  {
    var subs := Subscribers(s, c.categoryId);
    if |subs| == 0 then Some(s)
    else if c.categoryId.value !in s.categories.rows then None
    else
      var msg := Message(c, s.categories.rows[c.categoryId.value].name);
      Some(s.(notifications := Notify(s.notifications, Recipients(subs), cid, msg, now)))
  }

  /** Every subscriber of the category gets exactly one new notification
      about the content, the author included; nothing else is added. */
  lemma SendNotificationsOnePerSubscription(s: Store, cid: nat, c: Content, now: int, i: nat)
    requires Tables.Valid(s.subscriptions) && Tables.Valid(s.notifications)
    requires SendNotifications(s, cid, c, now).Some?
    requires i < |Subscribers(s, c.categoryId)|
    ensures var n := SendNotifications(s, cid, c, now).value.notifications;
            var k := s.notifications.next + i;
            k in n.rows && k !in s.notifications.rows
            && n.rows[k].userId == Subscribers(s, c.categoryId)[i].1.userId
            && n.rows[k].contentId == Some(cid) && !n.rows[k].isRead
  {
    var subs := Subscribers(s, c.categoryId);
    var msg := Message(c, s.categories.rows[c.categoryId.value].name);
    var us := Recipients(subs);
    assert SendNotifications(s, cid, c, now).value.notifications == Notify(s.notifications, us, cid, msg, now);
    NotifyAdds(s.notifications, us, cid, msg, now, i);
  }

  /** The fan-out adds exactly one row per subscription and keeps every
      existing notification. */
  lemma SendNotificationsCount(s: Store, cid: nat, c: Content, now: int)
    requires Tables.Valid(s.subscriptions) && Tables.Valid(s.notifications)
    requires SendNotifications(s, cid, c, now).Some?
    ensures var n := SendNotifications(s, cid, c, now).value.notifications;
            |n.rows| == |s.notifications.rows| + |Subscribers(s, c.categoryId)|
            && forall k | k in s.notifications.rows :: k in n.rows && n.rows[k] == s.notifications.rows[k]
  {
    var subs := Subscribers(s, c.categoryId);
    if |subs| > 0 {
      var msg := Message(c, s.categories.rows[c.categoryId.value].name);
      NotifyCount(s.notifications, Recipients(subs), cid, msg, now);
    }
  }

  // ---- create / update / delete ----

  /** The row `create_content` stores for loaded data `d`. */
  function NewContent(s: Store, d: ContentData, author: nat, now: int): (c: Content)
    requires d.title.Some? && d.body.Some? && d.mediaUrl.Some? && d.contentType.Some?
    requires d.status.Some? && d.categoryId.Some? && CategoryOk(s, d.categoryId.value)
    ensures c.authorId == author && c.createdAt == now
    ensures c.title == d.title.value && c.body == d.body.value && c.mediaUrl == d.mediaUrl.value
    ensures c.contentType == d.contentType.value && c.status == d.status.value
    ensures c.categoryId == CategoryKey(s, d.categoryId.value)
  {
    Content(d.title.value, d.body.value, d.mediaUrl.value, d.contentType.value,
            d.status.value, CategoryKey(s, d.categoryId.value), author, now)
  }

  /** Store a content row under `cid`, then fan out when it is Published.
      The row is committed before the fan-out, so it stays stored when
      the fan-out raises. */
  function Commit(s: Store, c: Content, isNew: bool, cid: nat, now: int, ok: int): (r: Reply<Store>)
    requires Wf(s) && (isNew ==> cid == s.contents.next) && (!isNew ==> cid in s.contents.rows)
    requires ok == OK || ok == CREATED
    ensures r.status == ok || (r.status == SERVER_ERROR && r.raised)
    ensures r.status == ok ==> !r.raised
    ensures Tables.Valid(r.state.contents)
    ensures r.state.contents.rows == s.contents.rows[cid := c]
    ensures r.state.contents.next == if isNew then s.contents.next + 1 else s.contents.next
    ensures r.state == s.(contents := r.state.contents, notifications := r.state.notifications)
    ensures c.status != Published ==> r.status == ok && r.state.notifications == s.notifications
    ensures c.status == Published ==>
      var fan := SendNotifications(s.(contents := r.state.contents), cid, c, now);
      && (r.status == ok <==> fan.Some?)
      && (fan.Some? ==> r.state == fan.value)
      && (fan.None? ==> r.state.notifications == s.notifications)
  {
    var s1 := s.(contents := if isNew then Insert(s.contents, c) else Put(s.contents, cid, c));
    assert s1.contents.rows == s.contents.rows[cid := c];
    if c.status == Published then
      match SendNotifications(s1, cid, c, now)
      case None => Raised(SERVER_ERROR, s1)
      case Some(s2) => Returned(ok, s2)
    else Returned(ok, s1)
  }

  /** `POST /content`: 404 for an unknown caller, 403 unless they write or
      administer, 400 for a rejected payload, 404 for an unknown
      `category_id`; otherwise the loaded row is stored under the next key
      and, when Published, the subscribers are notified. */
  function CreateContent(s: Store, caller: nat, p: ContentPayload, now: int): (r: Reply<Store>)
    requires Wf(s)
    ensures caller !in s.users.rows ==> r == Raised(NOT_FOUND, s)
    ensures caller in s.users.rows && WriterGate(s, caller) != Pass ==> r == Raised(FORBIDDEN, s)
    ensures caller in s.users.rows && WriterGate(s, caller) == Pass && LoadContent(p, false).None? ==>
      r == Raised(BAD_REQUEST, s)
    ensures (caller in s.users.rows && WriterGate(s, caller) == Pass && LoadContent(p, false).Some?
             && !CategoryOk(s, LoadContent(p, false).value.categoryId.value)) ==> r == Raised(NOT_FOUND, s)
    ensures r.status == CREATED || r.status == SERVER_ERROR ==>
      && caller in s.users.rows && WriterGate(s, caller) == Pass
      && LoadContent(p, false).Some? && CategoryOk(s, LoadContent(p, false).value.categoryId.value)
      && r.state.contents.rows == s.contents.rows[s.contents.next := NewContent(s, LoadContent(p, false).value, caller, now)]
    ensures (caller in s.users.rows && WriterGate(s, caller) == Pass && LoadContent(p, false).Some?
             && CategoryOk(s, LoadContent(p, false).value.categoryId.value)) ==>
      r.status == CREATED || (r.status == SERVER_ERROR && LoadContent(p, false).value.status == Some(Published))
    ensures r.status == SERVER_ERROR ==> r.raised && LoadContent(p, false).value.status == Some(Published)
    ensures r.status != CREATED && r.status != SERVER_ERROR ==> r.state == s && r.raised
    ensures r.state == s.(contents := r.state.contents, notifications := r.state.notifications)
  {
    if caller !in s.users.rows then Raised(NOT_FOUND, s)
    else if WriterGate(s, caller) != Pass then Raised(FORBIDDEN, s)
    else match LoadContent(p, false)
      case None => Raised(BAD_REQUEST, s)
      case Some(d) =>
        if !CategoryOk(s, d.categoryId.value) then Raised(NOT_FOUND, s)
        else Commit(s, NewContent(s, d, caller, now), true, s.contents.next, now, CREATED)
  }

  /** Only writers and admins create content: for a known caller the answer
      is 403, with nothing stored, exactly when they hold neither role. */
  lemma CreateAllowedIffWriter(s: Store, caller: nat, p: ContentPayload, now: int)
    requires Wf(s) && caller in s.users.rows
    ensures CreateContent(s, caller, p, now).status == FORBIDDEN <==>
      "TechWriter" !in RoleNames(s, caller) && "Admin" !in RoleNames(s, caller)
    ensures CreateContent(s, caller, p, now).status == FORBIDDEN ==> CreateContent(s, caller, p, now).state == s
    ensures (("TechWriter" in RoleNames(s, caller) || "Admin" in RoleNames(s, caller))
             && LoadContent(p, false).Some? && CategoryOk(s, LoadContent(p, false).value.categoryId.value)) ==>
      && CreateContent(s, caller, p, now).status in {CREATED, SERVER_ERROR}
      && s.contents.next in CreateContent(s, caller, p, now).state.contents.rows
  {
  }

  /** A Published content created with a category notifies each of the
      category's subscribers once. */
  lemma CreatePublishedNotifies(s: Store, caller: nat, p: ContentPayload, now: int)
    requires Wf(s)
    requires CreateContent(s, caller, p, now).status == CREATED
    requires s.contents.next in CreateContent(s, caller, p, now).state.contents.rows
    requires CreateContent(s, caller, p, now).state.contents.rows[s.contents.next].status == Published
    ensures var c := CreateContent(s, caller, p, now).state.contents.rows[s.contents.next];
            var s1 := s.(contents := Insert(s.contents, c));
            SendNotifications(s1, s.contents.next, c, now).Some?
            && CreateContent(s, caller, p, now).state == SendNotifications(s1, s.contents.next, c, now).value
  {
  }

  /** `setattr` for every key of the partially loaded dict. */
  function Apply(s: Store, c: Content, d: ContentData): (r: Content)
    requires d.categoryId.Some? ==> CategoryOk(s, d.categoryId.value)
    ensures r.authorId == c.authorId && r.createdAt == c.createdAt
    ensures r.title == (if d.title.Some? then d.title.value else c.title)
    ensures r.body == (if d.body.Some? then d.body.value else c.body)
    ensures r.mediaUrl == (if d.mediaUrl.Some? then d.mediaUrl.value else c.mediaUrl)
    ensures r.contentType == (if d.contentType.Some? then d.contentType.value else c.contentType)
    ensures r.status == (if d.status.Some? then d.status.value else c.status)
    ensures d.categoryId.Some? ==> r.categoryId == CategoryKey(s, d.categoryId.value)
    ensures d.categoryId.None? ==> r.categoryId == c.categoryId
  {
    Content(
      if d.title.Some? then d.title.value else c.title,
      if d.body.Some? then d.body.value else c.body,
      if d.mediaUrl.Some? then d.mediaUrl.value else c.mediaUrl,
      if d.contentType.Some? then d.contentType.value else c.contentType,
      if d.status.Some? then d.status.value else c.status,
      if d.categoryId.Some? then CategoryKey(s, d.categoryId.value) else c.categoryId,
      c.authorId, c.createdAt)
  }

  /** A partial update is a patch: an empty patch changes nothing and
      applying the same patch twice is applying it once. */
  lemma ApplyIsPatch(s: Store, c: Content, d: ContentData)
    requires d.categoryId.Some? ==> CategoryOk(s, d.categoryId.value)
    ensures d == ContentData(None, None, None, None, None, None) ==> Apply(s, c, d) == c
    ensures Apply(s, Apply(s, c, d), d) == Apply(s, c, d)
  {
  }

  /** `PUT /content/<content_id>`. */
  function UpdateContent(s: Store, caller: nat, cid: nat, p: ContentPayload, now: int): (r: Reply<Store>)
    requires Wf(s)
    ensures caller !in s.users.rows || cid !in s.contents.rows ==> r == Raised(NOT_FOUND, s)
    ensures (caller in s.users.rows && cid in s.contents.rows
             && AuthorOrAdmin(s, caller, s.contents.rows[cid]) != Pass) ==> r == Raised(FORBIDDEN, s)
    ensures r.status == OK ==>
      && cid in s.contents.rows && AuthorOrAdmin(s, caller, s.contents.rows[cid]) == Pass
      && r.state.contents.rows.Keys == s.contents.rows.Keys
      && (forall k | k in s.contents.rows && k != cid :: r.state.contents.rows[k] == s.contents.rows[k])
      && LoadContent(p, true).Some?
      && (LoadContent(p, true).value.categoryId.Some? ==> CategoryOk(s, LoadContent(p, true).value.categoryId.value))
      && r.state.contents.rows[cid] == Apply(s, s.contents.rows[cid], LoadContent(p, true).value)
    ensures (caller in s.users.rows && cid in s.contents.rows && AuthorOrAdmin(s, caller, s.contents.rows[cid]) == Pass
             && LoadContent(p, true).None?) ==> r == Raised(BAD_REQUEST, s)
    ensures (caller in s.users.rows && cid in s.contents.rows && AuthorOrAdmin(s, caller, s.contents.rows[cid]) == Pass
             && LoadContent(p, true).Some? && LoadContent(p, true).value.categoryId.Some?
             && !CategoryOk(s, LoadContent(p, true).value.categoryId.value)) ==> r == Raised(NOT_FOUND, s)
    ensures (caller in s.users.rows && cid in s.contents.rows && AuthorOrAdmin(s, caller, s.contents.rows[cid]) == Pass
             && LoadContent(p, true).Some?
             && (LoadContent(p, true).value.categoryId.Some? ==> CategoryOk(s, LoadContent(p, true).value.categoryId.value))) ==>
      || r.status == OK
      || (r.status == SERVER_ERROR && Apply(s, s.contents.rows[cid], LoadContent(p, true).value).status == Published)
    ensures r.status != OK && r.status != SERVER_ERROR ==> r.state == s && r.raised
    ensures r.state == s.(contents := r.state.contents, notifications := r.state.notifications)
    ensures r.status == OK && r.state.contents.rows[cid].status != Published ==> r.state.notifications == s.notifications
    ensures r.status == SERVER_ERROR ==>
      && r.raised && cid in s.contents.rows && LoadContent(p, true).Some?
      && r.state.contents.rows == s.contents.rows[cid := Apply(s, s.contents.rows[cid], LoadContent(p, true).value)]
      && r.state.contents.rows[cid].status == Published
  {
    if caller !in s.users.rows || cid !in s.contents.rows then Raised(NOT_FOUND, s)
    else if AuthorOrAdmin(s, caller, s.contents.rows[cid]) != Pass then Raised(FORBIDDEN, s)
    else match LoadContent(p, true)
      case None => Raised(BAD_REQUEST, s)
      case Some(d) =>
        if d.categoryId.Some? && !CategoryOk(s, d.categoryId.value) then Raised(NOT_FOUND, s)
        else Commit(s, Apply(s, s.contents.rows[cid], d), false, cid, now, OK)
  }

  /** An update that leaves the content Published notifies each of its
      category's subscribers, as a creation does: the store after the
      request is the fan-out over the updated contents. */
  lemma UpdatePublishedNotifies(s: Store, caller: nat, cid: nat, p: ContentPayload, now: int)
    requires Wf(s)
    requires UpdateContent(s, caller, cid, p, now).status == OK
    requires UpdateContent(s, caller, cid, p, now).state.contents.rows[cid].status == Published
    ensures var after := UpdateContent(s, caller, cid, p, now).state;
            var c := after.contents.rows[cid];
            var s1 := s.(contents := Put(s.contents, cid, c));
            SendNotifications(s1, cid, c, now).Some?
            && after == SendNotifications(s1, cid, c, now).value
  {
    var d := LoadContent(p, true).value;
    var c := Apply(s, s.contents.rows[cid], d);
    assert UpdateContent(s, caller, cid, p, now) == Commit(s, c, false, cid, now, OK);
  }

  /** A field the update payload leaves out keeps its stored value. */
  lemma UpdateKeepsUnsuppliedFields(s: Store, caller: nat, cid: nat, p: ContentPayload, now: int)
    requires Wf(s) && UpdateContent(s, caller, cid, p, now).status == OK
    ensures cid in s.contents.rows && cid in UpdateContent(s, caller, cid, p, now).state.contents.rows
    ensures var before := s.contents.rows[cid];
            var after := UpdateContent(s, caller, cid, p, now).state.contents.rows[cid];
            && after.authorId == before.authorId && after.createdAt == before.createdAt
            && (p.title.Absent? ==> after.title == before.title)
            && (p.body.Absent? ==> after.body == before.body)
            && (p.mediaUrl.Absent? ==> after.mediaUrl == before.mediaUrl)
            && (p.contentType.Absent? ==> after.contentType == before.contentType)
            && (p.status.Absent? ==> after.status == before.status)
            && (p.categoryId.Absent? ==> after.categoryId == before.categoryId)
  {
  }

  /** `POST /content` as written at lines 64-66, with the member spelling
      of line 30 corrected: the loaded strings are replaced by
      `ContentTypeEnum` and `ContentStatusEnum` members, which go into the
      `String(50)` columns of backend/app/models.py:61-62. The database
      driver cannot bind an `Enum` member, so the commit raises a
      `SQLAlchemyError`; the view rolls back and returns 500, with nothing
      stored and no notification sent. */
  function CreateContentAsWritten(s: Store, caller: nat, p: ContentPayload, now: int): (r: Reply<Store>)
    requires Wf(s)
    ensures r.status != CREATED
    ensures (caller in s.users.rows && WriterGate(s, caller) == Pass && LoadContent(p, false).Some?
             && CategoryOk(s, LoadContent(p, false).value.categoryId.value)) ==> r == Returned(SERVER_ERROR, s)
    ensures CreateContent(s, caller, p, now).status != CREATED && CreateContent(s, caller, p, now).status != SERVER_ERROR ==>
      r == CreateContent(s, caller, p, now)
  {
    var c := CreateContent(s, caller, p, now);
    if c.status == CREATED || c.status == SERVER_ERROR then Returned(SERVER_ERROR, s) else c
  }

  /** `PUT /content/<content_id>` as written at lines 130-135: only a
      payload that carries `content_type` or `status` puts an `Enum`
      member into a string column, so only such an update fails at the
      commit (500, rolled back); any other update commits as intended. */
  function UpdateContentAsWritten(s: Store, caller: nat, cid: nat, p: ContentPayload, now: int): (r: Reply<Store>)
    requires Wf(s)
    ensures p.contentType.Given? || p.status.Given? ==> r.status != OK
    ensures (UpdateContent(s, caller, cid, p, now).status in {OK, SERVER_ERROR}
             && (p.contentType.Given? || p.status.Given?)) ==> r == Returned(SERVER_ERROR, s)
    ensures !p.contentType.Given? && !p.status.Given? ==> r == UpdateContent(s, caller, cid, p, now)
    ensures UpdateContent(s, caller, cid, p, now).status !in {OK, SERVER_ERROR} ==> r == UpdateContent(s, caller, cid, p, now)
  {
    var u := UpdateContent(s, caller, cid, p, now);
    if (u.status == OK || u.status == SERVER_ERROR) && (p.contentType.Given? || p.status.Given?) then
      Returned(SERVER_ERROR, s)
    else u
  }

  /** A writer's valid Draft content is stored by the corrected view and
      refused as written; so is an author's update that sets the type. */
  lemma EnumColumnsRefusedAsWritten(s: Store, caller: nat, cid: nat, p: ContentPayload, q: ContentPayload, now: int)
    requires Wf(s) && caller in s.users.rows && WriterGate(s, caller) == Pass
    requires LoadContent(p, false).Some? && CategoryOk(s, LoadContent(p, false).value.categoryId.value)
    requires p.status.Absent?
    requires cid in s.contents.rows && s.contents.rows[cid].authorId == caller
    requires q == ContentPayload(Absent, Absent, Absent, Given("Article"), Given("Draft"), Absent)
    ensures CreateContent(s, caller, p, now).status == CREATED
    ensures CreateContentAsWritten(s, caller, p, now) == Returned(SERVER_ERROR, s)
    ensures UpdateContent(s, caller, cid, q, now).status == OK
    ensures UpdateContentAsWritten(s, caller, cid, q, now) == Returned(SERVER_ERROR, s)
  {
    assert LoadContent(q, true).Some?;
  }

  /** `DELETE /content/<content_id>`. */
  function DeleteContent(s: Store, caller: nat, cid: nat): (r: Reply<Store>)
    requires Wf(s)
    ensures caller !in s.users.rows || cid !in s.contents.rows ==> r == Raised(NOT_FOUND, s)
    ensures r.status == OK <==>
      caller in s.users.rows && cid in s.contents.rows && AuthorOrAdmin(s, caller, s.contents.rows[cid]) == Pass
    ensures r.status == OK ==>
      && r.state == s.(contents := r.state.contents)
      && r.state.contents.rows.Keys == s.contents.rows.Keys - {cid}
      && (forall k | k in r.state.contents.rows :: r.state.contents.rows[k] == s.contents.rows[k])
    ensures r.status != OK ==> r.state == s
  {
    if caller !in s.users.rows || cid !in s.contents.rows then Raised(NOT_FOUND, s)
    else if AuthorOrAdmin(s, caller, s.contents.rows[cid]) != Pass then Raised(FORBIDDEN, s)
    else Returned(OK, s.(contents := Delete(s.contents, cid)))
  }

  // ---- comments ----

  datatype CommentPayload = CommentPayload(body: Field<string>, parentId: Field<int>)

  /** `parent` is the id of a comment on content `cid`
      (`Comment.query.filter_by(id=parent, content_id=cid).first()`). */
  predicate IsCommentOf(s: Store, cid: nat, parent: int) {
    parent >= 0 && parent in s.comments.rows && s.comments.rows[parent].contentId == cid
  }

  /** `POST /content/<content_id>/comments`. */
  function AddComment(s: Store, caller: nat, cid: nat, p: CommentPayload, now: int): (r: Reply<Store>)
    requires Wf(s)
    ensures cid !in s.contents.rows ==> r == Raised(NOT_FOUND, s)
    ensures (cid in s.contents.rows && p.parentId.Given? && p.parentId.v != 0 && p.body.Given?
             && !IsCommentOf(s, cid, p.parentId.v)) ==> r == Raised(BAD_REQUEST, s)
    ensures cid in s.contents.rows && (!p.body.Given? || p.parentId.Malformed?) ==> r == Raised(BAD_REQUEST, s)
    ensures r.status == CREATED <==>
      && cid in s.contents.rows && p.body.Given? && !p.parentId.Malformed?
      && (p.parentId.Given? && p.parentId.v != 0 ==> IsCommentOf(s, cid, p.parentId.v))
    ensures r.status == CREATED ==>
      && r.state == s.(comments := r.state.comments)
      && r.state.comments.rows.Keys == s.comments.rows.Keys + {s.comments.next}
      && (forall k | k in s.comments.rows :: r.state.comments.rows[k] == s.comments.rows[k])
      && var c := r.state.comments.rows[s.comments.next];
         c.contentId == cid && c.userId == caller && p.body == Given(c.body) && c.createdAt == now
         && c.parentId == (if p.parentId.Given? then Some(p.parentId.v) else None)
         && (TruthyId(c.parentId) ==> IsCommentOf(s, cid, c.parentId.value))
    ensures r.status != CREATED ==> r.state == s && r.raised
  {
    if cid !in s.contents.rows then Raised(NOT_FOUND, s)
    else
      var b := LoadField(p.body, false, None, None, AnyValue());
      var pa := LoadField(p.parentId, false, Some(None), Some(None), Nullable(AnyValue()));
      if b.Invalid? || pa.Invalid? then Raised(BAD_REQUEST, s)
      else if TruthyId(pa.v) && !IsCommentOf(s, cid, pa.v.value) then Raised(BAD_REQUEST, s)
      else Returned(CREATED, s.(comments := Insert(s.comments, Comment(cid, caller, b.v, pa.v, now))))
  }

  /** The serialised node of a comment row. */
  datatype CommentInfo = CommentInfo(userId: nat, body: string, createdAt: int)

  function NodeOf(row: (nat, Comment)): Node<CommentInfo> {
    Node(row.0, row.1.parentId, CommentInfo(row.1.userId, row.1.body, row.1.createdAt))
  }

  /** `ORDER BY created_at`. */
  predicate ByCreated(a: Node<CommentInfo>, b: Node<CommentInfo>) {
    a.info.createdAt <= b.info.createdAt
  }

  predicate DistinctIds(a: Node<CommentInfo>, b: Node<CommentInfo>) {
    a.id != b.id
  }

  function NodesOf(sel: seq<(nat, Comment)>): (r: seq<Node<CommentInfo>>)
    ensures |r| == |sel| && forall i | 0 <= i < |sel| :: r[i] == NodeOf(sel[i])
  {
    seq(|sel|, i requires 0 <= i < |sel| => NodeOf(sel[i]))
  }

  /** A content's comments as nodes, in key order. */
  function RowsOf(s: Store, cid: nat): (r: seq<Node<CommentInfo>>)
    requires Tables.Valid(s.comments)
    ensures forall i | 0 <= i < |r| ::
      (r[i].id in s.comments.rows && r[i].id >= 0 && s.comments.rows[r[i].id].contentId == cid
       && r[i] == NodeOf((r[i].id as nat, s.comments.rows[r[i].id])))
    ensures Pairwise(r, DistinctIds)
  {
    NodesOf(Select(s.comments, (c: Comment) => c.contentId == cid))
  }

  /** Every comment of the content is among its rows. */
  lemma RowsOfComplete(s: Store, cid: nat, k: nat)
    requires Tables.Valid(s.comments) && k in s.comments.rows && s.comments.rows[k].contentId == cid
    ensures NodeOf((k, s.comments.rows[k])) in RowsOf(s, cid)
  {
    var sel := Select(s.comments, (c: Comment) => c.contentId == cid);
    var i :| 0 <= i < |sel| && sel[i].0 == k;
    assert RowsOf(s, cid)[i] == NodeOf((k, s.comments.rows[k]));
  }

  /** `Comment.query.filter_by(content_id=cid).order_by(Comment.created_at)`,
      as nodes; equal timestamps keep key order. */
  function Thread(s: Store, cid: nat): (r: seq<Node<CommentInfo>>)
    requires Tables.Valid(s.comments)
    ensures SortedBy(r, ByCreated)
    ensures UniqueIds(r)
    ensures multiset(r) == multiset(RowsOf(s, cid))
    ensures forall x | x in r ::
      (x.id in s.comments.rows && x.id >= 0 && s.comments.rows[x.id].contentId == cid
       && x == NodeOf((x.id as nat, s.comments.rows[x.id])))
    ensures forall k | k in s.comments.rows && s.comments.rows[k].contentId == cid ::
      NodeOf((k, s.comments.rows[k])) in r
  {
    IntKeyAscPreorder((n: Node<CommentInfo>) => n.info.createdAt, ByCreated);
    var rows := RowsOf(s, cid);
    var r := SortBy(rows, ByCreated);
    PairwiseSortBy(rows, ByCreated, DistinctIds);
    assert forall x | x in r :: x in multiset(rows);
    assert forall k | k in s.comments.rows && s.comments.rows[k].contentId == cid ::
      NodeOf((k, s.comments.rows[k])) in r by {
      forall k | k in s.comments.rows && s.comments.rows[k].contentId == cid
        ensures NodeOf((k, s.comments.rows[k])) in r
      {
        RowsOfComplete(s, cid, k);
        assert NodeOf((k, s.comments.rows[k])) in multiset(rows);
      }
    }
    r
  }

  /** `GET /content/<content_id>/comments`: `None` is the 404. */
  function ListComments(s: Store, cid: nat): (r: Option<Forest<CommentInfo>>)
    requires Tables.Valid(s.comments)
    ensures r.None? <==> cid !in s.contents.rows
  {
    if cid !in s.contents.rows then None else Some(Assemble(Thread(s, cid)))
  }

  /** The listing's top level is exactly the content's comments with a
      falsy `parent_id`, oldest first; under each comment are exactly the
      comments naming it, oldest first. */
  lemma ListCommentsShape(s: Store, cid: nat)
    requires Tables.Valid(s.comments) && cid in s.contents.rows
    ensures var f := ListComments(s, cid).value;
            && (forall x | x in f.roots :: !TruthyId(x.parent) && x in Thread(s, cid))
            && (forall k | k in s.comments.rows && s.comments.rows[k].contentId == cid
                  && !TruthyId(s.comments.rows[k].parentId) :: NodeOf((k, s.comments.rows[k])) in f.roots)
            && SortedBy(f.roots, ByCreated)
            && (forall x | x in Thread(s, cid) :: x.id in f.replies
                  && f.replies[x.id] == ChildrenOf(Thread(s, cid), x.id)
                  && SortedBy(f.replies[x.id], ByCreated))
  {
    var t := Thread(s, cid);
    AssembleSpec(t);
    AssembleKeepsOrder(t, ByCreated);
  }

  /** A comment whose parent is not a comment of the same content is
      missing from the listing altogether. */
  lemma ListCommentsDropsOrphans(s: Store, cid: nat, k: nat)
    requires Tables.Valid(s.comments) && cid in s.contents.rows
    requires k in s.comments.rows && s.comments.rows[k].contentId == cid
    requires TruthyId(s.comments.rows[k].parentId)
    requires !IsCommentOf(s, cid, s.comments.rows[k].parentId.value)
    ensures var f := ListComments(s, cid).value;
            var x := NodeOf((k, s.comments.rows[k]));
            x !in f.roots && forall p | p in f.replies :: x !in f.replies[p]
  {
    var t := Thread(s, cid);
    var x := NodeOf((k, s.comments.rows[k]));
    assert x.parent.value !in IdSet(t);
    OrphansDropped(t, x);
  }

  /** When every reply's parent is a comment of the same content, the
      listing holds each of the content's comments exactly once. */
  lemma ListCommentsEachOnce(s: Store, cid: nat)
    requires Tables.Valid(s.comments) && cid in s.contents.rows
    requires forall k | k in s.comments.rows && s.comments.rows[k].contentId == cid
      && TruthyId(s.comments.rows[k].parentId) :: IsCommentOf(s, cid, s.comments.rows[k].parentId.value)
    ensures var t := Thread(s, cid);
            var f := ListComments(s, cid).value;
            (forall i | 0 <= i < |t| :: t[i].id in f.replies)
            && multiset(f.roots) + Gather(f.replies, Ids(t)) == multiset(t)
            && |t| == |RowsOf(s, cid)|
  {
    var t := Thread(s, cid);
    assert NoOrphans(t) by {
      forall c | c in t && TruthyId(c.parent) ensures c.parent.value in IdSet(t) {
        var q := c.parent.value;
        assert IsCommentOf(s, cid, q);
        assert NodeOf((q as nat, s.comments.rows[q])) in t;
      }
    }
    EachCommentOnce(t);
    assert |multiset(t)| == |multiset(RowsOf(s, cid))|;
  }
}
