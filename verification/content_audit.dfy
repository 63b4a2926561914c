/** backend/app/content.py: the four content views that carry `@audit`
    (lines 55, 117, 146 and 164), each wrapped by the decorator. */
module ContentAudit {
  import opened Wrappers
  import opened Tables
  import opened Http
  import opened Schema
  import opened Audit
  import opened ContentViews

  const CREATE_CONTENT_AUDIT: AuditSpec := AuditSpec("create_content", Some("Content"), Some("id"))
  const UPDATE_CONTENT_AUDIT: AuditSpec := AuditSpec("update_content", Some("Content"), Some("content_id"))
  const DELETE_CONTENT_AUDIT: AuditSpec := AuditSpec("delete_content", Some("Content"), Some("content_id"))
  const ADD_COMMENT_AUDIT: AuditSpec := AuditSpec("add_comment", Some("Comment"), Some("id"))

  /** `create_content` under `@audit`: an abort (404, 403) or a rejected
      payload raises and is not logged; a created content is logged with
      no target id, since the route has no `id` argument and the result is
      a tuple. */
  function AuditedCreateContent(s: Store, caller: nat, p: ContentPayload, now: int, commitOk: bool): (r: Reply<Store>)
    requires Wf(s)
    ensures r.status == CreateContent(s, caller, p, now).status
    ensures r.status != CREATED && r.status != SERVER_ERROR ==> r.state == s
    ensures r.status == CREATED && commitOk ==>
      && r.state.contents == CreateContent(s, caller, p, now).state.contents
      && AddsOne(s.auditLogs, r.state.auditLogs, s.auditLogs.next,
                 AuditEntry(Some(caller), "create_content", Some("Content"), None, now, map[]))
  {
    var c := CreateContent(s, caller, p, now);
    assert c.state.auditLogs == s.auditLogs;
    Audited(c, CREATE_CONTENT_AUDIT, map[], None, NoDetailsFn, Some(caller), now, commitOk)
  }

  /** `update_content` under `@audit`: a successful update is logged
      against the content id; refusals raise and are not logged. */
  function AuditedUpdateContent(s: Store, caller: nat, cid: nat, p: ContentPayload, now: int, commitOk: bool): (r: Reply<Store>)
    requires Wf(s)
    ensures r.status == UpdateContent(s, caller, cid, p, now).status
    ensures r.status != OK && r.status != SERVER_ERROR ==> r.state == s
    ensures r.status == OK && commitOk ==>
      && r.state.contents == UpdateContent(s, caller, cid, p, now).state.contents
      && AddsOne(s.auditLogs, r.state.auditLogs, s.auditLogs.next,
                 AuditEntry(Some(caller), "update_content", Some("Content"), Some(cid), now, map[]))
  {
    Audited(UpdateContent(s, caller, cid, p, now), UPDATE_CONTENT_AUDIT, map["content_id" := cid], None, NoDetailsFn,
            Some(caller), now, commitOk)
  }

  /** `delete_content` under `@audit`: only a deletion that happened is
      logged, against the content id. */
  function AuditedDeleteContent(s: Store, caller: nat, cid: nat, now: int, commitOk: bool): (r: Reply<Store>)
    requires Wf(s)
    ensures r.status == DeleteContent(s, caller, cid).status
    ensures r.status != OK ==> r.state == s
    ensures r.status == OK && commitOk ==>
      && cid !in r.state.contents.rows
      && AddsOne(s.auditLogs, r.state.auditLogs, s.auditLogs.next,
                 AuditEntry(Some(caller), "delete_content", Some("Content"), Some(cid), now, map[]))
  {
    Audited(DeleteContent(s, caller, cid), DELETE_CONTENT_AUDIT, map["content_id" := cid], None, NoDetailsFn,
            Some(caller), now, commitOk)
  }

  /** `add_comment` under `@audit`: a stored comment is logged with no
      target id; a 404 or 400 raises and is not logged. */
  function AuditedAddComment(s: Store, caller: nat, cid: nat, p: CommentPayload, now: int, commitOk: bool): (r: Reply<Store>)
    requires Wf(s)
    ensures r.status == AddComment(s, caller, cid, p, now).status
    ensures r.status != CREATED ==> r.state == s
    ensures r.status == CREATED && commitOk ==>
      && r.state.comments == AddComment(s, caller, cid, p, now).state.comments
      && AddsOne(s.auditLogs, r.state.auditLogs, s.auditLogs.next,
                 AuditEntry(Some(caller), "add_comment", Some("Comment"), None, now, map[]))
  {
    Audited(AddComment(s, caller, cid, p, now), ADD_COMMENT_AUDIT, map[], None, NoDetailsFn, Some(caller), now, commitOk)
  }
}
