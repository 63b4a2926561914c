/** backend/app/notifications.py: the caller's notification inbox and the
    read flag. backend/app/notfications.py holds the same two views with
    only local names changed (`notif`/`n`, `notification`/`note`), so the
    members below model both files. */
module NotificationViews {
  import opened Wrappers
  import opened Tables
  import opened Http
  import opened Schema
  import opened Ordering
  import opened Pagination

  /** `ORDER BY created_at DESC`. */
  predicate NewestFirst(a: (nat, Notification), b: (nat, Notification)) {
    a.1.createdAt >= b.1.createdAt
  }

  predicate DistinctKeys(a: (nat, Notification), b: (nat, Notification)) {
    a.0 != b.0
  }

  /** `filter_by(user_id=uid).order_by(Notification.created_at.desc())`:
      each of the caller's notifications once, newest first. */
  function Inbox(t: Table<Notification>, uid: nat): (r: seq<(nat, Notification)>)
    requires Tables.Valid(t)
    ensures SortedBy(r, NewestFirst)
    ensures Pairwise(r, DistinctKeys)
    ensures forall x :: x in r <==> x.0 in t.rows && x.1 == t.rows[x.0] && x.1.userId == uid
  {
    IntKeyDescPreorder((x: (nat, Notification)) => x.1.createdAt, NewestFirst);
    var own := Own(t, uid);
    PairwiseSortBy(own, NewestFirst, DistinctKeys);
    var r := SortBy(own, NewestFirst);
    SameElements(r, own);
    r
  }

  /** `filter_by(user_id=uid)` in key order: the caller's notifications,
      each once. */
  function Own(t: Table<Notification>, uid: nat): (r: seq<(nat, Notification)>)
    requires Tables.Valid(t)
    ensures Pairwise(r, DistinctKeys)
    ensures forall x :: x in r <==> x.0 in t.rows && x.1 == t.rows[x.0] && x.1.userId == uid
  {
    var own := Select(t, (n: Notification) => n.userId == uid);
    assert Pairwise(own, DistinctKeys);
    assert forall x: (nat, Notification) | x.0 in t.rows && x.1 == t.rows[x.0] && x.1.userId == uid :: x in own by {
      forall x: (nat, Notification) | x.0 in t.rows && x.1 == t.rows[x.0] && x.1.userId == uid ensures x in own {
        var i :| 0 <= i < |own| && own[i].0 == x.0;
      }
    }
    own
  }

  /** The JSON the list view answers with. */
  datatype InboxPage = InboxPage(items: seq<(nat, Notification)>, page: int, perPage: int, total: nat)

  /** `GET /notifications?page=&per_page=`: defaults 1 and 20 (`None` is a
      missing or non-integer argument). */
  function ListNotifications(t: Table<Notification>, uid: nat, pageArg: Option<int>, perPageArg: Option<int>): (r: InboxPage)
    requires Tables.Valid(t) && pageArg.GetOr(1) >= 1 && perPageArg.GetOr(20) >= 1
    ensures r.page == pageArg.GetOr(1) && r.perPage == perPageArg.GetOr(20)
    ensures r.total == |Inbox(t, uid)|
    ensures |r.items| <= r.perPage
    ensures SortedBy(r.items, NewestFirst)
    ensures forall x | x in r.items :: x.1.userId == uid && x.0 in t.rows && t.rows[x.0] == x.1
    ensures r.items == Window(Inbox(t, uid), r.page, r.perPage)
  {
    var all := Inbox(t, uid);
    var w := Window(all, pageArg.GetOr(1), perPageArg.GetOr(20));
    WindowIsSlice(all, pageArg.GetOr(1), perPageArg.GetOr(20));
    InboxPage(w, pageArg.GetOr(1), perPageArg.GetOr(20), |all|)
  }

  /** A page is a contiguous run of the inbox. */
  lemma WindowIsSlice<T>(s: seq<T>, page: int, perPage: int)
    requires page >= 1 && perPage >= 1
    ensures exists lo, hi | 0 <= lo <= hi <= |s| :: Window(s, page, perPage) == s[lo..hi]
  {
    var lo := if (page - 1) * perPage < |s| then (page - 1) * perPage else |s|;
    var hi := if page * perPage < |s| then page * perPage else |s|;
    assert Window(s, page, perPage) == s[lo..hi];
  }

  /** The total counts the caller's notifications: every one is listed
      once in the inbox the pages cut. */
  lemma InboxCountsOwn(t: Table<Notification>, uid: nat)
    requires Tables.Valid(t)
    ensures |Inbox(t, uid)| == |set k | k in t.rows && t.rows[k].userId == uid|
  {
    var r := Inbox(t, uid);
    var ks := KeysOf(r);
    DistinctCard(ks);
    OwnKeys(t, uid, r, ks);
  }

  function KeysOf(r: seq<(nat, Notification)>): (ks: seq<nat>)
    ensures |ks| == |r| && forall i | 0 <= i < |r| :: ks[i] == r[i].0
  {
    seq(|r|, i requires 0 <= i < |r| => r[i].0)
  }

  lemma OwnKeys(t: Table<Notification>, uid: nat, r: seq<(nat, Notification)>, ks: seq<nat>)
    requires forall x :: x in r <==> x.0 in t.rows && x.1 == t.rows[x.0] && x.1.userId == uid
    requires |ks| == |r| && forall i | 0 <= i < |r| :: ks[i] == r[i].0
    ensures KeySet(ks) == set k | k in t.rows && t.rows[k].userId == uid
  {
    forall k | k in t.rows && t.rows[k].userId == uid ensures k in KeySet(ks) {
      assert (k, t.rows[k]) in r;
      var i :| 0 <= i < |r| && r[i] == (k, t.rows[k]);
      assert ks[i] == k;
    }
    forall k | k in KeySet(ks) ensures k in t.rows && t.rows[k].userId == uid {
      var i :| 0 <= i < |ks| && ks[i] == k;
      assert r[i] in r;
    }
  }

  const ALREADY_READ: string := "Already marked as read"
  const MARKED_READ: string := "Marked as read"

  datatype MarkReply = MarkReply(status: int, message: string, notifications: Table<Notification>)

  /** `POST /notifications/<note_id>/read`: 404 unless the notification
      exists and belongs to the caller. */
  function MarkRead(t: Table<Notification>, uid: nat, id: nat): (r: MarkReply)
    requires Tables.Valid(t)
    ensures r.status == NOT_FOUND <==> id !in t.rows || t.rows[id].userId != uid
    ensures r.status != NOT_FOUND ==> r.status == OK
    ensures r.status == NOT_FOUND ==> r.notifications == t
    ensures r.status == OK && t.rows[id].isRead ==> r == MarkReply(OK, ALREADY_READ, t)
    ensures r.status == OK && !t.rows[id].isRead ==>
      && r.message == MARKED_READ
      && ReplacesOne(t, r.notifications, id, t.rows[id].(isRead := true))
    ensures Tables.Valid(r.notifications)
  {
    if id !in t.rows || t.rows[id].userId != uid then MarkReply(NOT_FOUND, "", t)
    else if t.rows[id].isRead then MarkReply(OK, ALREADY_READ, t)
    else MarkReply(OK, MARKED_READ, Put(t, id, t.rows[id].(isRead := true)))
  }

  /** Marking twice is marking once: the second call answers "Already
      marked as read" and changes nothing. */
  lemma MarkReadIdempotent(t: Table<Notification>, uid: nat, id: nat)
    requires Tables.Valid(t) && MarkRead(t, uid, id).status == OK
    ensures var t1 := MarkRead(t, uid, id).notifications;
            MarkRead(t1, uid, id) == MarkReply(OK, ALREADY_READ, t1)
  {
  }
}
