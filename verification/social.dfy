/** backend/app/users/routes.py and backend/app/users/models.py: the
    users blueprint's social views — subscriptions and wishlist, posting,
    comments and likes with the notifications they send, the follow graph,
    the threaded comment view and the activity feed. This blueprint keeps
    its own user record (string ids, JSON list columns) and its own
    notification rows, so it has a store of its own. */
module SocialViews {
  import opened Wrappers
  import opened Tables
  import opened Http
  import opened Ordering
  import opened Pagination
  import opened CommentForest

  // ---- users/models.py ----

  /** `notification_preferences`. */
  datatype Prefs = Prefs(newContent: bool, like: bool, comment: bool)

  datatype Member = Member(
    username: string, email: string, passwordHash: string, role: string, isActive: bool,
    subscriptions: seq<int>, wishlist: seq<int>, prefs: Prefs)

  /** A user row as the column defaults leave it: active, no subscriptions,
      an empty wishlist and every notification kind switched on. */
  function NewMember(username: string, email: string, passwordHash: string, role: string): (m: Member)
    ensures m.username == username && m.email == email && m.role == role
    ensures m.isActive && m.subscriptions == [] && m.wishlist == []
    ensures m.prefs.newContent && m.prefs.like && m.prefs.comment
  {
    Member(username, email, passwordHash, role, true, [], [], Prefs(true, true, true))
  }

  /** `username` and `email` are each unique. */
  predicate UniqueHandles(users: map<string, Member>) {
    forall a, b | a in users && b in users && a != b ::
      users[a].username != users[b].username && users[a].email != users[b].email
  }

  // ---- the rows the views touch (content/models.py is not part of this model) ----

  datatype Post = Post(authorId: string, categoryId: int, title: string, body: string,
                       contentType: string, createdAt: int)
  datatype PostComment = PostComment(contentId: nat, userId: string, body: string,
                                     parent: Option<int>, createdAt: int)
  datatype Like = Like(contentId: nat, userId: string, isLike: bool)

  datatype NoteKind = NewContentNote | CommentNote | LikeNote | FollowNote

  /** What `create_notification` stores: one row for one recipient. */
  datatype Note = Note(userId: string, message: string, contentId: Option<nat>, kind: NoteKind)

  /** `follows` holds `(follower_id, followed_id)` pairs: a set, because
      the pair is the table's primary key. */
  datatype Social = Social(
    users: map<string, Member>,
    follows: set<(string, string)>,
    categories: set<int>,
    posts: Table<Post>,
    comments: Table<PostComment>,
    likes: Table<Like>,
    notes: multiset<Note>)

  predicate Wf(s: Social) {
    Tables.Valid(s.posts) && Tables.Valid(s.comments) && Tables.Valid(s.likes)
  }

  /** A view's answer: status, JSON message, and the store afterwards. An
      abort or an exception carries the empty message. */
  datatype Answer = Answer(status: int, message: string, state: Social)

  /** An integer from the JSON body or the URL naming a row of `t`. */
  predicate HasKey<T>(t: Table<T>, id: int) {
    0 <= id && id as nat in t.rows
  }

  /** Every note the request added is addressed to someone other than
      `actor`, and no note was removed. */
  predicate SparesActor(before: multiset<Note>, after: multiset<Note>, actor: string) {
    before <= after && forall n | n in after - before :: n.userId != actor
  }

  // ---- subscriptions and wishlist ----

  /** `len(Model.query.filter(Model.id.in_(ids)).all())`: the number of
      distinct existing rows the list names. */
  function MatchCount(ids: seq<int>, known: set<int>): nat {
    |set i | i in ids && i in known|
  }

  predicate Distinct(ids: seq<int>) {
    forall i, j | 0 <= i < j < |ids| :: ids[i] != ids[j]
  }

  function SetOf(ids: seq<int>): (r: set<int>)
    ensures forall x :: x in r <==> x in ids
  {
    set i | i in ids
  }

  /** A list has at most as many distinct values as entries, and exactly as
      many when it has no repeats. */
  lemma {:induction false} SetOfCard(ids: seq<int>)
    ensures |SetOf(ids)| <= |ids|
    ensures |SetOf(ids)| == |ids| <==> Distinct(ids)
  {
    if |ids| > 0 {
      var rest := ids[1..];
      SetOfCard(rest);
      assert SetOf(ids) == {ids[0]} + SetOf(rest);
      if ids[0] in rest {
        assert SetOf(ids) == SetOf(rest);
        var j :| 0 <= j < |rest| && rest[j] == ids[0];
        assert ids[j + 1] == ids[0];
      } else {
        assert Distinct(ids) <==> Distinct(rest) by {
          if Distinct(rest) {
            forall i, j | 0 <= i < j < |ids| ensures ids[i] != ids[j] {
              if i == 0 {
                assert ids[j] == rest[j - 1];
              } else {
                assert ids[i] == rest[i - 1] && ids[j] == rest[j - 1];
              }
            }
          }
          if Distinct(ids) {
            forall i, j | 0 <= i < j < |rest| ensures rest[i] != rest[j] {
              assert rest[i] == ids[i + 1] && rest[j] == ids[j + 1];
            }
          }
        }
      }
    }
  }

  /** The length check `len(valid) == len(ids)` accepts exactly the lists
      whose ids all exist and are pairwise distinct. */
  lemma CountCheckMeans(ids: seq<int>, known: set<int>)
    ensures MatchCount(ids, known) == |ids| <==> (forall i | i in ids :: i in known) && Distinct(ids)
  {
    SetOfCard(ids);
    var hit := set i | i in ids && i in known;
    assert hit <= SetOf(ids);
    if (forall i | i in ids :: i in known) {
      assert hit == SetOf(ids);
    } else {
      var x :| x in ids && x !in known;
      SubsetCard(hit, SetOf(ids) - {x});
    }
  }

  lemma SubsetCard(a: set<int>, b: set<int>)
    requires a <= b
    ensures |a| <= |b|
  {
    assert b == a + (b - a);
  }

  /** Only `users[caller]` changed, and in it only what `m` says. */
  predicate MemberReplaced(s: Social, r: Social, caller: string, m: Member) {
    && r == s.(users := r.users)
    && caller in s.users && r.users == s.users[caller := m]
  }

  const INVALID_CATEGORIES: string := "Invalid category IDs"
  const SUBSCRIPTIONS_UPDATED: string := "Subscriptions updated successfully"
  const INVALID_CONTENTS: string := "Invalid content IDs"
  const WISHLIST_UPDATED: string := "Wishlist updated successfully"

  /** `PUT /api/users/subscriptions` with `category_ids` (an absent key is
      the empty list). */
  function UpdateSubscriptions(s: Social, caller: string, ids: seq<int>): (r: Answer)
    ensures r.status == BAD_REQUEST <==> !((forall i | i in ids :: i in s.categories) && Distinct(ids))
    ensures r.status == BAD_REQUEST ==> r == Answer(BAD_REQUEST, INVALID_CATEGORIES, s)
    ensures r.status != BAD_REQUEST && caller !in s.users ==> r == Answer(SERVER_ERROR, "", s)
    ensures r.status != BAD_REQUEST && caller in s.users ==>
      && r.status == OK && r.message == SUBSCRIPTIONS_UPDATED
      && MemberReplaced(s, r.state, caller, s.users[caller].(subscriptions := ids))
  {
    CountCheckMeans(ids, s.categories);
    if MatchCount(ids, s.categories) != |ids| then Answer(BAD_REQUEST, INVALID_CATEGORIES, s)
    else if caller !in s.users then Answer(SERVER_ERROR, "", s)
    else Answer(OK, SUBSCRIPTIONS_UPDATED, s.(users := s.users[caller := s.users[caller].(subscriptions := ids)]))
  }

  function PostIds(s: Social): (r: set<int>)
    ensures forall i :: i in r <==> HasKey(s.posts, i)
  {
    set k | k in s.posts.rows :: k as int
  }

  /** `PUT /api/users/wishlist` with `content_ids`. */
  function UpdateWishlist(s: Social, caller: string, ids: seq<int>): (r: Answer)
    ensures r.status == BAD_REQUEST <==> !((forall i | i in ids :: HasKey(s.posts, i)) && Distinct(ids))
    ensures r.status == BAD_REQUEST ==> r == Answer(BAD_REQUEST, INVALID_CONTENTS, s)
    ensures r.status != BAD_REQUEST && caller !in s.users ==> r == Answer(SERVER_ERROR, "", s)
    ensures r.status != BAD_REQUEST && caller in s.users ==>
      && r.status == OK && r.message == WISHLIST_UPDATED
      && MemberReplaced(s, r.state, caller, s.users[caller].(wishlist := ids))
  {
    CountCheckMeans(ids, PostIds(s));
    if MatchCount(ids, PostIds(s)) != |ids| then Answer(BAD_REQUEST, INVALID_CONTENTS, s)
    else if caller !in s.users then Answer(SERVER_ERROR, "", s)
    else Answer(OK, WISHLIST_UPDATED, s.(users := s.users[caller := s.users[caller].(wishlist := ids)]))
  }

  // ---- posting and the subscribers it notifies ----

  /** The users whose subscriptions list `cat`, the author excepted. */
  function Recipients(s: Social, cat: int, author: string): (r: set<string>)
    ensures forall u :: u in r <==> u in s.users && cat in s.users[u].subscriptions && u != author
  {
    set u | u in s.users && cat in s.users[u].subscriptions && u != author
  }

  function SubscriberNote(u: string, title: string, id: nat): Note {
    Note(u, "New content posted in your subscribed category: " + title, Some(id), NewContentNote)
  }

  function Announce(s: Social, cat: int, author: string, title: string, id: nat): multiset<Note> {
    multiset(set u | u in Recipients(s, cat, author) :: SubscriberNote(u, title, id))
  }

  /** The JSON body of `POST /api/users/content`; `None` is a missing key. */
  datatype PostPayload = PostPayload(title: Option<string>, body: Option<string>,
                                     contentType: Option<string>, categoryId: Option<int>)

  predicate Complete(p: PostPayload) {
    p.title.Some? && p.body.Some? && p.contentType.Some? && p.categoryId.Some?
  }

  const CONTENT_CREATED: string := "Content created successfully"

  /** `POST /api/users/content`: a missing key or an unknown caller raises
      (500); otherwise the post is stored and every subscriber of its
      category other than the author receives one notification. */
  function CreatePost(s: Social, caller: string, p: PostPayload, now: int): (r: Answer)
    requires Wf(s)
    ensures !Complete(p) || caller !in s.users ==> r == Answer(SERVER_ERROR, "", s)
    ensures Complete(p) && caller in s.users ==>
      && r.status == CREATED && r.message == CONTENT_CREATED && Wf(r.state)
      && r.state == s.(posts := r.state.posts, notes := r.state.notes)
      && AddsOne(s.posts, r.state.posts, s.posts.next,
                 Post(caller, p.categoryId.value, p.title.value, p.body.value, p.contentType.value, now))
    ensures SparesActor(s.notes, r.state.notes, caller)
    ensures Complete(p) && caller in s.users ==>
      && (forall u | u in s.users && p.categoryId.value in s.users[u].subscriptions && u != caller ::
            (r.state.notes - s.notes)[SubscriberNote(u, p.title.value, s.posts.next)] == 1)
      && (forall n | n in r.state.notes - s.notes ::
            (r.state.notes - s.notes)[n] == 1 && n.kind == NewContentNote && n.contentId == Some(s.posts.next)
            && n.userId in s.users && p.categoryId.value in s.users[n.userId].subscriptions)
  {
    if !Complete(p) || caller !in s.users then Answer(SERVER_ERROR, "", s)
    else
      var id := s.posts.next;
      var added := Announce(s, p.categoryId.value, caller, p.title.value, id);
      var t := s.(posts := Insert(s.posts, Post(caller, p.categoryId.value, p.title.value, p.body.value, p.contentType.value, now)),
                  notes := s.notes + added);
      assert t.notes - s.notes == added;
      Answer(CREATED, CONTENT_CREATED, t)
  }

  // ---- comments ----

  function Excerpt(body: string): (r: string)
    ensures |r| <= 50 && r <= body
  {
    if |body| <= 50 then body else body[..50]
  }

  /** `Comment.query.get_or_404(parent)` found a comment of `cid`. */
  const INVALID_PARENT: string := "Invalid parent comment"
  const COMMENT_CREATED: string := "Comment created successfully"

  /** `POST /api/users/content/<content_id>/comment`. The content must
      exist (404); a truthy `parent_comment_id` must name a comment (404)
      of the same content (400); a missing `body` or an unknown caller
      raises (500). The comment is stored with the parent id as sent, and
      the content's author is notified unless the author is the caller. */
  function CreateComment(s: Social, caller: string, cid: nat, parent: Option<int>, body: Option<string>, now: int): (r: Answer)
    requires Wf(s)
    ensures cid !in s.posts.rows ==> r == Answer(NOT_FOUND, "", s)
    ensures cid in s.posts.rows && TruthyId(parent) && !HasKey(s.comments, parent.value) ==>
      r == Answer(NOT_FOUND, "", s)
    ensures r.status == BAD_REQUEST <==>
      cid in s.posts.rows && TruthyId(parent) && HasKey(s.comments, parent.value)
      && s.comments.rows[parent.value as nat].contentId != cid
    ensures r.status == BAD_REQUEST ==> r == Answer(BAD_REQUEST, INVALID_PARENT, s)
    ensures r.status == CREATED <==>
      && cid in s.posts.rows && caller in s.users && body.Some?
      && (TruthyId(parent) ==> HasKey(s.comments, parent.value) && s.comments.rows[parent.value as nat].contentId == cid)
    ensures r.status !in {NOT_FOUND, BAD_REQUEST, CREATED} ==> r == Answer(SERVER_ERROR, "", s)
    ensures r.status == CREATED ==>
      && r.message == COMMENT_CREATED && Wf(r.state)
      && r.state == s.(comments := r.state.comments, notes := r.state.notes)
      && AddsOne(s.comments, r.state.comments, s.comments.next, PostComment(cid, caller, body.value, parent, now))
      && var author := s.posts.rows[cid].authorId;
         r.state.notes - s.notes ==
           if author == caller then multiset{}
           else multiset{Note(author, "New comment on your content '" + s.posts.rows[cid].title + "': "
                                      + Excerpt(body.value) + "...", Some(cid), CommentNote)}
    ensures r.status != CREATED ==> r.state == s
    ensures SparesActor(s.notes, r.state.notes, caller)
  {
    if cid !in s.posts.rows then Answer(NOT_FOUND, "", s)
    else if TruthyId(parent) && !HasKey(s.comments, parent.value) then Answer(NOT_FOUND, "", s)
    else if TruthyId(parent) && s.comments.rows[parent.value as nat].contentId != cid then
      Answer(BAD_REQUEST, INVALID_PARENT, s)
    else if caller !in s.users || body.None? then Answer(SERVER_ERROR, "", s)
    else
      var post := s.posts.rows[cid];
      var comments := Insert(s.comments, PostComment(cid, caller, body.value, parent, now));
      var added := if post.authorId == caller then multiset{}
                   else multiset{Note(post.authorId, "New comment on your content '" + post.title + "': "
                                                     + Excerpt(body.value) + "...", Some(cid), CommentNote)};
      var t := s.(comments := comments, notes := s.notes + added);
      assert t.notes - s.notes == added;
      Answer(CREATED, COMMENT_CREATED, t)
  }

  /** `create_comment` as written. The route has no `int:` converter, so
      `content_id` is the URL's string, and line 98 compares it with the
      parent comment's integer `content_id`; in Python an integer never
      equals a string. Every parent that exists is therefore refused, and
      only a comment without a truthy parent gets past the check. */
  function CreateCommentAsWritten(s: Social, caller: string, cid: nat, parent: Option<int>, body: Option<string>,
                                  now: int): (r: Answer)
    requires Wf(s)
    ensures r.status == BAD_REQUEST <==> cid in s.posts.rows && TruthyId(parent) && HasKey(s.comments, parent.value)
    ensures r.status == BAD_REQUEST ==> r == Answer(BAD_REQUEST, INVALID_PARENT, s)
    ensures TruthyId(parent) ==> r.state == s && r.status != CREATED
    ensures !TruthyId(parent) ==> r == CreateComment(s, caller, cid, parent, body, now)
  {
    if cid !in s.posts.rows then Answer(NOT_FOUND, "", s)
    else if TruthyId(parent) && !HasKey(s.comments, parent.value) then Answer(NOT_FOUND, "", s)
    else if TruthyId(parent) then Answer(BAD_REQUEST, INVALID_PARENT, s)
    else CreateComment(s, caller, cid, parent, body, now)
  }

  /** A reply to a comment of the same content, which the intended check
      stores, is refused as written. */
  lemma ReplyRefusedAsWritten(s: Social, caller: string, cid: nat, parent: int, body: string, now: int)
    requires Wf(s) && cid in s.posts.rows && caller in s.users && parent != 0
    requires HasKey(s.comments, parent) && s.comments.rows[parent as nat].contentId == cid
    ensures CreateComment(s, caller, cid, Some(parent), Some(body), now).status == CREATED
    ensures CreateCommentAsWritten(s, caller, cid, Some(parent), Some(body), now).status == BAD_REQUEST
  {
  }

  /** The thread of one content as `build_comment_tree` sees it: each
      comment's id, parent id as stored, and what the JSON shows. */
  datatype Shown = Shown(body: string, userId: string, createdAt: int)

  function CommentNode(row: (nat, PostComment)): Node<Shown> {
    Node(row.0, row.1.parent, Shown(row.1.body, row.1.userId, row.1.createdAt))
  }

  predicate OfContent(cid: nat, c: PostComment) {
    c.contentId == cid
  }

  /** `Comment.query.filter_by(content_id=cid).all()`, in primary-key order. */
  function CommentNodes(s: Social, cid: nat): (r: seq<Node<Shown>>)
    requires Wf(s)
    ensures UniqueIds(r)
    ensures forall x | x in r ::
      (0 <= x.id && x.id as nat in s.comments.rows
       && s.comments.rows[x.id as nat].contentId == cid && x == CommentNode((x.id as nat, s.comments.rows[x.id as nat])))
    ensures forall k | k in s.comments.rows && s.comments.rows[k].contentId == cid ::
      CommentNode((k, s.comments.rows[k])) in r
  {
    var sel := Select(s.comments, (c: PostComment) => OfContent(cid, c));
    var r := MapSeq(sel, CommentNode);
    forall x | x in r
      ensures 0 <= x.id && x.id as nat in s.comments.rows
        && s.comments.rows[x.id as nat].contentId == cid && x == CommentNode((x.id as nat, s.comments.rows[x.id as nat]))
    {
      var i :| 0 <= i < |r| && r[i] == x;
      assert x == CommentNode(sel[i]);
    }
    forall k | k in s.comments.rows && s.comments.rows[k].contentId == cid
      ensures CommentNode((k, s.comments.rows[k])) in r
    {
      var i :| 0 <= i < |sel| && sel[i].0 == k;
      assert r[i] == CommentNode((k, s.comments.rows[k]));
    }
    assert UniqueIds(r) by {
      forall i, j | 0 <= i < j < |r| ensures r[i].id != r[j].id {
        assert r[i].id == sel[i].0 && r[j].id == sel[j].0;
      }
    }
    r
  }

  /** `GET /api/users/content/<content_id>/comments`: 404 for a missing
      content (`None`), else the recursive tree: at the top the comments
      whose parent is `None`, under each comment the comments naming it,
      both in query order; a comment whose parent is neither `None` nor a
      comment of this content appears nowhere. */
  function ViewComments(s: Social, cid: nat): (r: Option<seq<Tree<Shown>>>)
    requires Wf(s)
    ensures r.None? <==> cid !in s.posts.rows
    ensures r.Some? ==>
      && Nodes(r.value) == Matching(CommentNodes(s, cid), None)
      && ChildrenMatch(CommentNodes(s, cid), r.value)
      && forall x | Occurs(r.value, x) ::
           0 <= x.id && x.id as nat in s.comments.rows && s.comments.rows[x.id as nat].contentId == cid
           && (x.parent == None || (HasKey(s.comments, x.parent.value)
                                    && s.comments.rows[x.parent.value as nat].contentId == cid))
  {
    if cid !in s.posts.rows then None
    else
      var cs := CommentNodes(s, cid);
      BuildCommentTreeSpec(cs);
      OccursInStore(s, cid);
      Some(BuildCommentTree(cs))
  }

  /** What the tree shows lies in the store: comments of `cid` whose
      parent is `None` or another comment of `cid`. */
  lemma OccursInStore(s: Social, cid: nat)
    requires Wf(s)
    ensures forall x | Occurs(BuildCommentTree(CommentNodes(s, cid)), x) ::
      && 0 <= x.id && x.id as nat in s.comments.rows && s.comments.rows[x.id as nat].contentId == cid
      && (x.parent == None || (HasKey(s.comments, x.parent.value)
                               && s.comments.rows[x.parent.value as nat].contentId == cid))
  {
    var cs := CommentNodes(s, cid);
    BuildCommentTreeSpec(cs);
    forall x | Occurs(BuildCommentTree(cs), x) && x.parent != None
      ensures HasKey(s.comments, x.parent.value) && s.comments.rows[x.parent.value as nat].contentId == cid
    {
      var c :| c in cs && c.id == x.parent.value;
    }
  }

  // ---- likes ----

  /** The caller's like of `cid`, if any:
      `Like.query.filter_by(user_id=..., content_id=...).first()`. */
  function LikeOf(t: Table<Like>, uid: string, cid: nat): (r: Option<nat>)
    requires Tables.Valid(t)
    ensures r.Some? ==> r.value in t.rows && t.rows[r.value].userId == uid && t.rows[r.value].contentId == cid
    ensures r.None? <==> forall k | k in t.rows :: !(t.rows[k].userId == uid && t.rows[k].contentId == cid)
  {
    First(t, (l: Like) => l.userId == uid && l.contentId == cid)
  }

  /** At most one like row per (user, content). */
  predicate OneLikePerPair(t: Table<Like>) {
    forall a, b | a in t.rows && b in t.rows && a != b ::
      !(t.rows[a].userId == t.rows[b].userId && t.rows[a].contentId == t.rows[b].contentId)
  }

  /** The like row of `uid` for `cid` set to `isLike`: the existing row
      overwritten, or a new row when there is none. */
  function Upsert(t: Table<Like>, uid: string, cid: nat, isLike: bool): (r: Table<Like>)
    requires Tables.Valid(t)
    ensures Tables.Valid(r)
    ensures LikeOf(t, uid, cid).Some? ==>
      && ReplacesOne(t, r, LikeOf(t, uid, cid).value, Like(cid, uid, isLike))
      && LikeOf(r, uid, cid) == LikeOf(t, uid, cid)
    ensures LikeOf(t, uid, cid).None? ==>
      && AddsOne(t, r, t.next, Like(cid, uid, isLike))
      && LikeOf(r, uid, cid) == Some(t.next)
    ensures OneLikePerPair(t) ==> OneLikePerPair(r)
  {
    var row := Like(cid, uid, isLike);
    var p := (l: Like) => l.userId == uid && l.contentId == cid;
    match LikeOf(t, uid, cid)
    case Some(k) =>
      FirstKeptByPut(t, p, k, row);
      Put(t, k, row)
    case None =>
      FirstOfInsert(t, p, row);
      Insert(t, row)
  }

  const LIKE_RECORDED: string := "Like/Dislike recorded successfully"

  function LikeNoteFor(post: Post, isLike: bool, cid: nat): Note {
    Note(post.authorId, "Your content '" + post.title + "' was " + (if isLike then "liked" else "disliked")
                        + " by another user", Some(cid), LikeNote)
  }

  /** `POST /api/users/content/<content_id>/like`: an upsert. A second call
      overwrites the flag of the existing row instead of adding one. The
      author is notified unless the author is the caller. */
  function LikeContent(s: Social, caller: string, cid: nat, isLike: Option<bool>): (r: Answer)
    requires Wf(s)
    ensures cid !in s.posts.rows ==> r == Answer(NOT_FOUND, "", s)
    ensures cid in s.posts.rows && (caller !in s.users || isLike.None?) ==> r == Answer(SERVER_ERROR, "", s)
    ensures r.status == CREATED <==> cid in s.posts.rows && caller in s.users && isLike.Some?
    ensures r.status == CREATED ==>
      && r.message == LIKE_RECORDED && Wf(r.state)
      && r.state == s.(likes := r.state.likes, notes := r.state.notes)
      && LikeOf(r.state.likes, caller, cid).Some?
      && r.state.likes.rows[LikeOf(r.state.likes, caller, cid).value].isLike == isLike.value
      && (LikeOf(s.likes, caller, cid).Some? ==>
            ReplacesOne(s.likes, r.state.likes, LikeOf(s.likes, caller, cid).value,
                        Like(cid, caller, isLike.value)))
      && (LikeOf(s.likes, caller, cid).None? ==>
            AddsOne(s.likes, r.state.likes, s.likes.next, Like(cid, caller, isLike.value)))
      && r.state.notes - s.notes ==
           if s.posts.rows[cid].authorId == caller then multiset{}
           else multiset{LikeNoteFor(s.posts.rows[cid], isLike.value, cid)}
    ensures OneLikePerPair(s.likes) ==> OneLikePerPair(r.state.likes)
    ensures SparesActor(s.notes, r.state.notes, caller)
  {
    if cid !in s.posts.rows then Answer(NOT_FOUND, "", s)
    else if caller !in s.users || isLike.None? then Answer(SERVER_ERROR, "", s)
    else
      var post := s.posts.rows[cid];
      var likes := Upsert(s.likes, caller, cid, isLike.value);
      var added := if post.authorId == caller then multiset{} else multiset{LikeNoteFor(post, isLike.value, cid)};
      var t := s.(likes := likes, notes := s.notes + added);
      assert t.notes - s.notes == added;
      Answer(CREATED, LIKE_RECORDED, t)
  }

  /** Liking twice leaves one row for the pair: the second call adds no
      row, and the flag is the second call's. */
  lemma LikeTwiceKeepsOneRow(s: Social, caller: string, cid: nat, first: bool, second: bool)
    requires Wf(s) && cid in s.posts.rows && caller in s.users
    ensures var s1 := LikeContent(s, caller, cid, Some(first)).state;
            var s2 := LikeContent(s1, caller, cid, Some(second)).state;
            && s2.likes.rows.Keys == s1.likes.rows.Keys
            && LikeOf(s2.likes, caller, cid) == LikeOf(s1.likes, caller, cid)
            && s2.likes.rows[LikeOf(s2.likes, caller, cid).value].isLike == second
  {
  }

  // ---- the follow graph ----

  const SELF_FOLLOW: string := "Cannot follow yourself"
  const ALREADY_FOLLOWING: string := "Already following this user"
  const SELF_UNFOLLOW: string := "Cannot unfollow yourself"
  const NOT_FOLLOWING: string := "Not following this user"

  /** `POST /api/users/follow/<user_id>`: 404 for an unknown user, 400 for
      oneself or a pair already stored; otherwise the pair is added and the
      followed user notified. */
  function Follow(s: Social, caller: string, target: string): (r: Answer)
    ensures target !in s.users ==> r == Answer(NOT_FOUND, "", s)
    ensures target in s.users && target == caller ==> r == Answer(BAD_REQUEST, SELF_FOLLOW, s)
    ensures target in s.users && target != caller && caller !in s.users ==> r == Answer(SERVER_ERROR, "", s)
    ensures target in s.users && target != caller && caller in s.users && (caller, target) in s.follows ==>
      r == Answer(BAD_REQUEST, ALREADY_FOLLOWING, s)
    ensures r.status == OK <==>
      target in s.users && caller in s.users && target != caller && (caller, target) !in s.follows
    ensures r.status == OK ==>
      && r.message == "Now following " + s.users[target].username
      && r.state == s.(follows := r.state.follows, notes := r.state.notes)
      && r.state.follows == s.follows + {(caller, target)}
      && r.state.notes == s.notes + multiset{Note(target, s.users[caller].username + " started following you", None, FollowNote)}
    ensures SparesActor(s.notes, r.state.notes, caller)
  {
    if target !in s.users then Answer(NOT_FOUND, "", s)
    else if target == caller then Answer(BAD_REQUEST, SELF_FOLLOW, s)
    else if caller !in s.users then Answer(SERVER_ERROR, "", s)
    else if (caller, target) in s.follows then Answer(BAD_REQUEST, ALREADY_FOLLOWING, s)
    else
      var note := Note(target, s.users[caller].username + " started following you", None, FollowNote);
      var t := s.(follows := s.follows + {(caller, target)}, notes := s.notes + multiset{note});
      assert t.notes - s.notes == multiset{note};
      Answer(OK, "Now following " + s.users[target].username, t)
  }

  /** `POST /api/users/unfollow/<user_id>`: 404 for an unknown user, 400 for
      oneself or a pair not stored; otherwise exactly that pair is removed. */
  function Unfollow(s: Social, caller: string, target: string): (r: Answer)
    ensures target !in s.users ==> r == Answer(NOT_FOUND, "", s)
    ensures target in s.users && target == caller ==> r == Answer(BAD_REQUEST, SELF_UNFOLLOW, s)
    ensures target in s.users && target != caller && caller !in s.users ==> r == Answer(SERVER_ERROR, "", s)
    ensures target in s.users && target != caller && caller in s.users && (caller, target) !in s.follows ==>
      r == Answer(BAD_REQUEST, NOT_FOLLOWING, s)
    ensures r.status == OK <==>
      target in s.users && caller in s.users && target != caller && (caller, target) in s.follows
    ensures r.status == OK ==>
      && r.message == "Unfollowed " + s.users[target].username
      && r.state == s.(follows := s.follows - {(caller, target)})
    ensures SparesActor(s.notes, r.state.notes, caller)
  {
    if target !in s.users then Answer(NOT_FOUND, "", s)
    else if target == caller then Answer(BAD_REQUEST, SELF_UNFOLLOW, s)
    else if caller !in s.users then Answer(SERVER_ERROR, "", s)
    else if (caller, target) !in s.follows then Answer(BAD_REQUEST, NOT_FOLLOWING, s)
    else Answer(OK, "Unfollowed " + s.users[target].username, s.(follows := s.follows - {(caller, target)}))
  }

  /** Nobody follows themselves, and both ends of a pair are users. */
  predicate GraphOk(s: Social) {
    forall p | p in s.follows :: p.0 != p.1 && p.0 in s.users && p.1 in s.users
  }

  /** Both views keep the graph well formed. */
  lemma FollowKeepsGraphOk(s: Social, caller: string, target: string)
    ensures GraphOk(s) ==> GraphOk(Follow(s, caller, target).state)
    ensures GraphOk(s) ==> GraphOk(Unfollow(s, caller, target).state)
  {
  }

  /** Following and then unfollowing the same user restores the graph,
      and the other way round. */
  lemma FollowUnfollowRestores(s: Social, caller: string, target: string)
    ensures Follow(s, caller, target).status == OK ==>
      && Unfollow(Follow(s, caller, target).state, caller, target).status == OK
      && Unfollow(Follow(s, caller, target).state, caller, target).state.follows == s.follows
    ensures Unfollow(s, caller, target).status == OK ==>
      && Follow(Unfollow(s, caller, target).state, caller, target).status == OK
      && Follow(Unfollow(s, caller, target).state, caller, target).state.follows == s.follows
  {
    if Follow(s, caller, target).status == OK {
      assert s.follows + {(caller, target)} - {(caller, target)} == s.follows;
    }
    if Unfollow(s, caller, target).status == OK {
      assert s.follows - {(caller, target)} + {(caller, target)} == s.follows;
    }
  }

  // ---- the activity feed ----

  datatype Activity =
    | Posted(title: string, contentId: nat, at: int)
    | Commented(excerpt: string, contentId: nat, at: int)
    | Reacted(liked: bool, contentId: nat, likeId: nat)

  function Min50(n: nat): nat {
    if n < 50 then n else 50
  }

  /** `.order_by(key.desc()).limit(50)` over the rows `sel`. */
  function Latest<T(==, !new)>(sel: seq<(nat, T)>, key: ((nat, T)) -> int, le: ((nat, T), (nat, T)) -> bool): (r: seq<(nat, T)>)
    requires forall x, y :: le(x, y) == (key(x) >= key(y))
    ensures |r| == Min50(|sel|)
    ensures SortedBy(r, le)
    ensures forall x | x in r :: x in sel
    ensures forall x, y | x in r && y in sel && y !in r :: key(x) >= key(y)
  {
    IntKeyDescPreorder(key, le);
    var sorted := SortBy(sel, le);
    SameElements(sorted, sel);
    SortedPrefixDominates(sorted, le, Min50(|sel|));
    var r := sorted[..Min50(|sel|)];
    forall x | x in r ensures x in sel {
      var i :| 0 <= i < |r| && r[i] == x;
      assert sorted[i] == x;
    }
    forall x, y | x in r && y in sel && y !in r ensures key(x) >= key(y) {
      var i :| 0 <= i < |r| && r[i] == x;
      var j :| 0 <= j < |sorted| && sorted[j] == y;
      assert j >= |r|;
      assert le(sorted[i], sorted[j]);
    }
    r
  }

  predicate PostNewer(a: (nat, Post), b: (nat, Post)) { a.1.createdAt >= b.1.createdAt }
  predicate CommentNewer(a: (nat, PostComment), b: (nat, PostComment)) { a.1.createdAt >= b.1.createdAt }
  predicate LikeNewer(a: (nat, Like), b: (nat, Like)) { a.0 >= b.0 }

  function PostActivity(x: (nat, Post)): Activity { Posted(x.1.title, x.0, x.1.createdAt) }

  function CommentActivity(x: (nat, PostComment)): Activity {
    Commented(if |x.1.body| > 50 then x.1.body[..50] + "..." else x.1.body, x.1.contentId, x.1.createdAt)
  }

  function LikeActivity(x: (nat, Like)): Activity { Reacted(x.1.isLike, x.1.contentId, x.0) }

  function MapSeq<A, B>(s: seq<A>, f: A -> B): (r: seq<B>)
    ensures |r| == |s| && forall i | 0 <= i < |s| :: r[i] == f(s[i])
  {
    seq(|s|, i requires 0 <= i < |s| => f(s[i]))
  }

  /** The caller's activities as the view gathers them before its sort: up
      to 50 newest posts, up to 50 newest comments, up to 50 likes by
      descending id. */
  function Feed(s: Social, caller: string): (r: seq<Activity>)
    requires Wf(s)
    ensures |r| == Min50(|set k | k in s.posts.rows && s.posts.rows[k].authorId == caller|)
                 + Min50(|set k | k in s.comments.rows && s.comments.rows[k].userId == caller|)
                 + Min50(|set k | k in s.likes.rows && s.likes.rows[k].userId == caller|)
  {
    PostsFeed(s, caller) + CommentsFeed(s, caller) + LikesFeed(s, caller)
  }

  function PostsFeed(s: Social, caller: string): (r: seq<Activity>)
    requires Wf(s)
    ensures |r| == Min50(|set k | k in s.posts.rows && s.posts.rows[k].authorId == caller|)
    ensures forall i | 0 <= i < |r| :: r[i].Posted?
  {
    var own := (p: Post) => p.authorId == caller;
    var sel := Select(s.posts, own);
    assert |sel| == |set k | k in s.posts.rows && s.posts.rows[k].authorId == caller| by {
      SelectCount(s.posts, own);
      var a := KeysWhere(s.posts, own);
      var b := set k | k in s.posts.rows && s.posts.rows[k].authorId == caller;
      assert forall k :: k in a <==> k in b;
      assert a == b;
    }
    var top := Latest(sel, (x: (nat, Post)) => x.1.createdAt, PostNewer);
    MapSeq(top, PostActivity)
  }

  function CommentsFeed(s: Social, caller: string): (r: seq<Activity>)
    requires Wf(s)
    ensures |r| == Min50(|set k | k in s.comments.rows && s.comments.rows[k].userId == caller|)
    ensures forall i | 0 <= i < |r| :: r[i].Commented?
  {
    var own := (c: PostComment) => c.userId == caller;
    var sel := Select(s.comments, own);
    assert |sel| == |set k | k in s.comments.rows && s.comments.rows[k].userId == caller| by {
      SelectCount(s.comments, own);
      var a := KeysWhere(s.comments, own);
      var b := set k | k in s.comments.rows && s.comments.rows[k].userId == caller;
      assert forall k :: k in a <==> k in b;
      assert a == b;
    }
    var top := Latest(sel, (x: (nat, PostComment)) => x.1.createdAt, CommentNewer);
    MapSeq(top, CommentActivity)
  }

  function LikesFeed(s: Social, caller: string): (r: seq<Activity>)
    requires Wf(s)
    ensures |r| == Min50(|set k | k in s.likes.rows && s.likes.rows[k].userId == caller|)
    ensures forall i | 0 <= i < |r| :: r[i].Reacted?
  {
    var own := (l: Like) => l.userId == caller;
    var sel := Select(s.likes, own);
    assert |sel| == |set k | k in s.likes.rows && s.likes.rows[k].userId == caller| by {
      SelectCount(s.likes, own);
      var a := KeysWhere(s.likes, own);
      var b := set k | k in s.likes.rows && s.likes.rows[k].userId == caller;
      assert forall k :: k in a <==> k in b;
      assert a == b;
    }
    var top := Latest(sel, (x: (nat, Like)) => x.0 as int, LikeNewer);
    MapSeq(top, LikeActivity)
  }

  /** `GET /api/users/activity?page=&per_page=` (defaults 1 and 10), with
      a sort key that orders every activity (the view as written is
      `GetUserActivityAsWritten`). The sort by timestamp is the parameter
      `sorted`, a reordering of the gathered feed. An unknown caller or a `per_page` of 0 raises
      (500); otherwise the page is `sorted[start:end]` with Python's slice
      rules, `total` counts the feed and `pages` is `ceil(total/per_page)`. */
  function GetUserActivity(s: Social, caller: string, pageArg: Option<int>, perPageArg: Option<int>,
                           sorted: seq<Activity>): (r: Reply<Option<Page<Activity>>>)
    requires Wf(s) && multiset(sorted) == multiset(Feed(s, caller))
    ensures r.status == SERVER_ERROR <==> caller !in s.users || perPageArg.GetOr(10) == 0
    ensures r.status != SERVER_ERROR ==>
      && r.status == OK && r.state.Some?
      && r.state.value.total == |Feed(s, caller)|
      && r.state.value.current == pageArg.GetOr(1)
    ensures r.status == OK && pageArg.GetOr(1) >= 1 && perPageArg.GetOr(10) >= 1 ==>
      && r.state.value.items == Window(sorted, pageArg.GetOr(1), perPageArg.GetOr(10))
      && r.state.value.total <= r.state.value.pages * perPageArg.GetOr(10) < r.state.value.total + perPageArg.GetOr(10)
  {
    var page := pageArg.GetOr(1);
    var perPage := perPageArg.GetOr(10);
    if caller !in s.users then Raised(SERVER_ERROR, None)
    else match ActivityPage(sorted, page, perPage)
      case ZeroDivision => Raised(SERVER_ERROR, None)
      case Paged(pg) =>
        assert |sorted| == |Feed(s, caller)| by {
          assert |multiset(sorted)| == |multiset(Feed(s, caller))|;
        }
        assert perPage >= 1 ==> pg.total <= pg.pages * perPage < pg.total + perPage by {
          if perPage >= 1 { PagesIsCeiling(sorted, page, perPage); }
        }
        assert page >= 1 && perPage >= 1 ==> pg.items == Window(sorted, page, perPage) by {
          if page >= 1 && perPage >= 1 { PageIsWindow(sorted, page, perPage); }
        }
        Returned(OK, Some(pg))
  }

  /** The view's sort key is an ISO string for posts and comments and the
      like's integer id for likes; Python refuses to order a string
      against an integer, so sorting a feed holding both kinds raises
      `TypeError`. */
  predicate MixedKeys(feed: seq<Activity>) {
    (exists i | 0 <= i < |feed| :: feed[i].Reacted?) && (exists j | 0 <= j < |feed| :: !feed[j].Reacted?)
  }

  /** `get_user_activity` as written: a caller with both a like and a post
      or comment in the gathered feed gets a 500 from the sort. */
  function GetUserActivityAsWritten(s: Social, caller: string, pageArg: Option<int>, perPageArg: Option<int>,
                                    sorted: seq<Activity>): (r: Reply<Option<Page<Activity>>>)
    requires Wf(s) && multiset(sorted) == multiset(Feed(s, caller))
    ensures r.status == SERVER_ERROR <==>
      caller !in s.users || MixedKeys(Feed(s, caller)) || perPageArg.GetOr(10) == 0
    ensures caller in s.users && !MixedKeys(Feed(s, caller)) ==>
      r == GetUserActivity(s, caller, pageArg, perPageArg, sorted)
  {
    if caller in s.users && MixedKeys(Feed(s, caller)) then Raised(SERVER_ERROR, None)
    else GetUserActivity(s, caller, pageArg, perPageArg, sorted)
  }

  /** A caller who has posted and liked gets a page from the intended view
      and a 500 from the view as written. */
  lemma ActivityCrashesAsWritten(s: Social, caller: string, pageArg: Option<int>, perPageArg: Option<int>,
                                 sorted: seq<Activity>, pk: nat, lk: nat)
    requires Wf(s) && multiset(sorted) == multiset(Feed(s, caller))
    requires caller in s.users && perPageArg.GetOr(10) != 0
    requires pk in s.posts.rows && s.posts.rows[pk].authorId == caller
    requires lk in s.likes.rows && s.likes.rows[lk].userId == caller
    ensures GetUserActivity(s, caller, pageArg, perPageArg, sorted).status == OK
    ensures GetUserActivityAsWritten(s, caller, pageArg, perPageArg, sorted).status == SERVER_ERROR
  {
    var ps := PostsFeed(s, caller);
    var cs := CommentsFeed(s, caller);
    var ls := LikesFeed(s, caller);
    assert pk in set k | k in s.posts.rows && s.posts.rows[k].authorId == caller;
    assert lk in set k | k in s.likes.rows && s.likes.rows[k].userId == caller;
    var f := Feed(s, caller);
    assert f == ps + cs + ls;
    assert |ps| > 0 && |ls| > 0;
    assert f[0] == ps[0];
    assert f[|ps| + |cs|] == ls[0];
    assert MixedKeys(f);
  }
}
