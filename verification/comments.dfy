/** backend/app/comments.py: the comments blueprint under
    `/content/<content_id>/comments`, whose listing has no orphan guard. */
module CommentViews {
  import opened Wrappers
  import opened Tables
  import opened Http
  import opened Schema
  import opened Marshal
  import opened CommentForest
  import opened ContentViews

  /** `CommentSchema().load(payload)`: `body` required with at least one
      character, `parent_id` an optional integer. */
  function LoadComment(p: CommentPayload): (r: Option<(string, Option<int>)>)
    ensures r.Some? <==> p.body.Given? && |p.body.v| >= 1 && !p.parentId.Malformed?
    ensures p.body.Given? && |p.body.v| == 0 ==> r.None?
    ensures p.body.Absent? || p.body.Null? ==> r.None?
    ensures r.Some? ==> p.body == Given(r.value.0) && |r.value.0| >= 1
    ensures r.Some? && p.parentId.Given? ==> r.value.1 == Some(p.parentId.v)
    ensures r.Some? && (p.parentId.Absent? || p.parentId.Null?) ==> r.value.1 == None
  {
    var b := LoadField(p.body, false, None, None, Length(1, -1));
    var pa := LoadField(p.parentId, false, Some(None), Some(None), Nullable(AnyValue()));
    if b.Invalid? || pa.Invalid? then None else Some((b.v, pa.v))
  }

  /** `POST /content/<content_id>/comments`. */
  function CreateComment(s: Store, caller: nat, cid: nat, p: CommentPayload, now: int): (r: Reply<Store>)
    requires Wf(s)
    ensures cid !in s.contents.rows ==> r == Raised(NOT_FOUND, s)
    ensures cid in s.contents.rows && p.body.Given? && |p.body.v| == 0 ==> r == Raised(BAD_REQUEST, s)
    ensures cid in s.contents.rows && LoadComment(p).None? ==> r == Raised(BAD_REQUEST, s)
    ensures (cid in s.contents.rows && LoadComment(p).Some? && TruthyId(LoadComment(p).value.1)
             && !IsCommentOf(s, cid, LoadComment(p).value.1.value)) ==> r == Returned(BAD_REQUEST, s)
    ensures r.status == BAD_REQUEST && !r.raised ==>
      LoadComment(p).Some? && TruthyId(LoadComment(p).value.1) && !IsCommentOf(s, cid, LoadComment(p).value.1.value)
    ensures r.status == CREATED <==>
      && cid in s.contents.rows && LoadComment(p).Some?
      && (TruthyId(LoadComment(p).value.1) ==> IsCommentOf(s, cid, LoadComment(p).value.1.value))
    ensures r.status == CREATED ==>
      && r.state == s.(comments := r.state.comments)
      && r.state.comments.rows.Keys == s.comments.rows.Keys + {s.comments.next}
      && (forall k | k in s.comments.rows :: r.state.comments.rows[k] == s.comments.rows[k])
      && var c := r.state.comments.rows[s.comments.next];
         c.contentId == cid && c.userId == caller && |c.body| >= 1
         && c.body == LoadComment(p).value.0 && c.parentId == LoadComment(p).value.1 && c.createdAt == now
         && (TruthyId(c.parentId) ==> IsCommentOf(s, cid, c.parentId.value))
    ensures r.status != CREATED ==> r.state == s
  {
    if cid !in s.contents.rows then Raised(NOT_FOUND, s)
    else match LoadComment(p)
      case None => Raised(BAD_REQUEST, s)
      case Some((body, parent)) =>
        if TruthyId(parent) && !IsCommentOf(s, cid, parent.value) then Returned(BAD_REQUEST, s)
        else Returned(CREATED, s.(comments := Insert(s.comments, Comment(cid, caller, body, parent, now))))
  }

  /** Every reply names a comment of its own content: what the parent
      check on creation establishes. */
  predicate ParentsClosed(s: Store) {
    forall k | k in s.comments.rows && TruthyId(s.comments.rows[k].parentId) ::
      IsCommentOf(s, s.comments.rows[k].contentId, s.comments.rows[k].parentId.value)
  }

  /** Creating a comment keeps every parent reference inside its content. */
  lemma CreateKeepsParentsClosed(s: Store, caller: nat, cid: nat, p: CommentPayload, now: int)
    requires Wf(s) && ParentsClosed(s)
    ensures ParentsClosed(CreateComment(s, caller, cid, p, now).state)
  {
    var r := CreateComment(s, caller, cid, p, now);
    if r.status == CREATED {
      var t := r.state;
      forall k | k in t.comments.rows && TruthyId(t.comments.rows[k].parentId)
        ensures IsCommentOf(t, t.comments.rows[k].contentId, t.comments.rows[k].parentId.value)
      {
        var q := t.comments.rows[k].parentId.value;
        if k in s.comments.rows {
          assert IsCommentOf(s, s.comments.rows[k].contentId, q);
        } else {
          assert IsCommentOf(s, cid, q);
        }
      }
    }
  }

  /** content.py's `add_comment` applies the same parent rule, so it keeps
      the property too. */
  lemma AddCommentKeepsParentsClosed(s: Store, caller: nat, cid: nat, p: CommentPayload, now: int)
    requires Wf(s) && ParentsClosed(s)
    ensures ParentsClosed(AddComment(s, caller, cid, p, now).state)
  {
    var r := AddComment(s, caller, cid, p, now);
    if r.status == CREATED {
      var t := r.state;
      forall k | k in t.comments.rows && TruthyId(t.comments.rows[k].parentId)
        ensures IsCommentOf(t, t.comments.rows[k].contentId, t.comments.rows[k].parentId.value)
      {
        var q := t.comments.rows[k].parentId.value;
        if k in s.comments.rows {
          assert IsCommentOf(s, s.comments.rows[k].contentId, q);
        } else {
          assert IsCommentOf(s, cid, q);
        }
      }
    }
  }

  /** The listing's outcome: 404, the `KeyError` of line 46 (500), or the
      forest. */
  datatype Listing<T> = NotFound | Crashed | Listed(value: T)

  /** `GET /content/<content_id>/comments`. */
  function ListComments(s: Store, cid: nat): (r: Listing<Forest<CommentInfo>>)
    requires Tables.Valid(s.comments)
    ensures r.NotFound? <==> cid !in s.contents.rows
  {
    if cid !in s.contents.rows then NotFound
    else match AssembleStrict(Thread(s, cid))
      case None => Crashed
      case Some(f) => Listed(f)
  }

  /** The listing raises exactly when some comment of the content names a
      parent that is not a comment of the same content. */
  lemma ListCrashesIffOrphan(s: Store, cid: nat)
    requires Tables.Valid(s.comments) && cid in s.contents.rows
    ensures ListComments(s, cid).Crashed? <==>
      exists k | k in s.comments.rows :: s.comments.rows[k].contentId == cid
        && TruthyId(s.comments.rows[k].parentId) && !IsCommentOf(s, cid, s.comments.rows[k].parentId.value)
  {
    var t := Thread(s, cid);
    StrictAgreesWhenNoOrphans(t);
    if !NoOrphans(t) {
      var c :| c in t && TruthyId(c.parent) && c.parent.value !in IdSet(t);
      var k := c.id as nat;
      assert s.comments.rows[k].contentId == cid;
    } else {
      forall k | k in s.comments.rows && s.comments.rows[k].contentId == cid
        && TruthyId(s.comments.rows[k].parentId)
        ensures IsCommentOf(s, cid, s.comments.rows[k].parentId.value)
      {
        var x := NodeOf((k, s.comments.rows[k]));
        assert x in t;
        var y :| y in t && y.id == x.parent.value;
      }
    }
  }

  /** On a store whose parents are closed, comments.py's listing never
      raises and builds the same forest as content.py's guarded listing. */
  lemma ClosedListingAgrees(s: Store, cid: nat)
    requires Tables.Valid(s.comments) && ParentsClosed(s) && cid in s.contents.rows
    ensures ListComments(s, cid).Listed?
    ensures ListComments(s, cid).value == ContentViews.ListComments(s, cid).value
  {
    ListCrashesIffOrphan(s, cid);
    StrictAgreesWhenNoOrphans(Thread(s, cid));
  }
}
