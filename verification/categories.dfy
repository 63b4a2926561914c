/** backend/app/categories.py: the category views, their schema limits,
    name uniqueness on create and rename, and their audit entries. The
    `roles_required("Admin", "TechWriter")` guard in front of the writing
    views is not part of this model: each view starts past it. */
module CategoryViews {
  import opened Wrappers
  import opened Tables
  import opened Http
  import opened Schema
  import opened Marshal
  import opened Ordering
  import opened Audit

  datatype CategoryPayload = CategoryPayload(name: Field<string>, description: Field<string>)

  /** `CategorySchema(partial=partial).load(...)`: `name` required, 1 to 64
      characters; `description` nullable, at most 256, defaulting to `None`. */
  function LoadCategory(p: CategoryPayload, partial: bool): (r: Option<(Loaded<string>, Loaded<Option<string>>)>)
    ensures r.Some? <==>
      && (match p.name case Given(n) => 1 <= |n| <= 64 case Absent => partial case _ => false)
      && (match p.description case Given(d) => |d| <= 256 case Malformed => false case _ => true)
    ensures r.Some? && p.name.Given? ==> r.value.0 == Value(p.name.v)
    ensures r.Some? && p.name.Absent? ==> r.value.0 == Skipped
    ensures r.Some? && p.description.Given? ==> r.value.1 == Value(Some(p.description.v))
    ensures r.Some? && p.description.Null? ==> r.value.1 == Value(None)
    ensures r.Some? && p.description.Absent? ==> r.value.1 == (if partial then Skipped else Value(None))
  {
    var n := LoadField(p.name, partial, None, None, Length(1, 64));
    var d := LoadField(p.description, partial, Some(None), Some(None), Nullable(Length(0, 256)));
    if n.Invalid? || d.Invalid? then None else Some((n, d))
  }

  predicate NameTaken(t: Table<Category>, name: string) {
    exists k | k in t.rows :: t.rows[k].name == name
  }

  /** `POST /categories`, for the caller `caller`. */
  function CreateCategory(s: Store, caller: nat, p: CategoryPayload): (r: Reply<Store>)
    requires Wf(s)
    ensures LoadCategory(p, false).None? ==> r == Raised(BAD_REQUEST, s)
    ensures r.status == CONFLICT <==> LoadCategory(p, false).Some? && NameTaken(s.categories, p.name.v)
    ensures r.status == CREATED <==> LoadCategory(p, false).Some? && !NameTaken(s.categories, p.name.v)
    ensures r.status in {BAD_REQUEST, CONFLICT, CREATED}
    ensures r.status != CREATED ==> r.state == s
    ensures r.status == CREATED ==>
      && !r.raised && Wf(r.state) && r.state == s.(categories := r.state.categories)
      && AddsOne(s.categories, r.state.categories, s.categories.next,
                 Category(p.name.v, LoadCategory(p, false).value.1.v, Some(caller)))
    ensures UniqueCategoryNames(s.categories) ==> UniqueCategoryNames(r.state.categories)
    ensures WithinWidths(s) ==> WithinWidths(r.state)
  {
    match LoadCategory(p, false)
    case None => Raised(BAD_REQUEST, s)
    case Some((n, d)) =>
      if First(s.categories, (c: Category) => c.name == n.v).Some? then Returned(CONFLICT, s)
      else Returned(CREATED, s.(categories := Insert(s.categories, Category(n.v, d.v, Some(caller)))))
  }

  /** The category `id` after an accepted update: the new name, and the
      description replaced only when the payload carries the key. */
  predicate UpdatedAs(before: Category, after: Category, p: CategoryPayload) {
    && p.name.Given? && after.name == p.name.v && after.createdBy == before.createdBy
    && (p.description.Absent? ==> after.description == before.description)
    && (p.description.Given? ==> after.description == Some(p.description.v))
    && (p.description.Null? ==> after.description == None)
  }

  predicate NameTakenByOther(t: Table<Category>, id: nat, name: string) {
    exists k | k in t.rows :: k != id && t.rows[k].name == name
  }

  /** `PUT /categories/<category_id>`. */
  function UpdateCategory(s: Store, id: nat, p: CategoryPayload): (r: Reply<Store>)
    requires Wf(s)
    ensures id !in s.categories.rows ==> r == Raised(NOT_FOUND, s)
    ensures id in s.categories.rows && LoadCategory(p, true).None? ==> r == Raised(BAD_REQUEST, s)
    ensures id in s.categories.rows && LoadCategory(p, true).Some? && p.name.Absent? ==> r == Returned(BAD_REQUEST, s)
    ensures r.status == CONFLICT <==>
      && id in s.categories.rows && LoadCategory(p, true).Some? && p.name.Given?
      && p.name.v != s.categories.rows[id].name && NameTakenByOther(s.categories, id, p.name.v)
    ensures id in s.categories.rows && LoadCategory(p, true).Some? && p.name == Given(s.categories.rows[id].name) ==>
      r.status == OK
    ensures r.status == OK <==>
      && id in s.categories.rows && LoadCategory(p, true).Some? && p.name.Given?
      && (p.name.v == s.categories.rows[id].name || !NameTakenByOther(s.categories, id, p.name.v))
    ensures r.status in {NOT_FOUND, BAD_REQUEST, CONFLICT, OK}
    ensures r.status != OK ==> r.state == s
    ensures r.status == OK ==>
      && !r.raised && Wf(r.state) && r.state == s.(categories := r.state.categories)
      && id in r.state.categories.rows
      && UpdatedAs(s.categories.rows[id], r.state.categories.rows[id], p)
      && ReplacesOne(s.categories, r.state.categories, id, r.state.categories.rows[id])
    ensures UniqueCategoryNames(s.categories) ==> UniqueCategoryNames(r.state.categories)
    ensures WithinWidths(s) ==> WithinWidths(r.state)
  {
    if id !in s.categories.rows then Raised(NOT_FOUND, s)
    else match LoadCategory(p, true)
      case None => Raised(BAD_REQUEST, s)
      case Some((n, d)) =>
        if n.Skipped? then Returned(BAD_REQUEST, s)
        else
          var c := s.categories.rows[id];
          if n.v != c.name && First(s.categories, (x: Category) => x.name == n.v).Some? then
            var k := First(s.categories, (x: Category) => x.name == n.v).value;
            assert k != id;
            Returned(CONFLICT, s)
          else
            var c2 := c.(name := n.v, description := if d.Value? then d.v else c.description);
            Returned(OK, s.(categories := Put(s.categories, id, c2)))
  }

  /** `DELETE /categories/<category_id>`. */
  function DeleteCategory(s: Store, id: nat): (r: Reply<Store>)
    requires Wf(s)
    ensures id !in s.categories.rows ==> r == Raised(NOT_FOUND, s)
    ensures id in s.categories.rows ==>
      && r.status == OK && !r.raised && Wf(r.state) && r.state == s.(categories := r.state.categories)
      && r.state.categories.rows.Keys == s.categories.rows.Keys - {id}
      && forall k | k in r.state.categories.rows :: r.state.categories.rows[k] == s.categories.rows[k]
  {
    if id !in s.categories.rows then Raised(NOT_FOUND, s)
    else Returned(OK, s.(categories := Delete(s.categories, id)))
  }

  /** `ORDER BY name`. */
  predicate ByName(a: (nat, Category), b: (nat, Category)) {
    StrLe(a.1.name, b.1.name)
  }

  predicate AnyCategory(c: Category) { true }

  lemma ByNamePreorder()
    ensures TotalPreorder(ByName)
  {
    StrKeyPreorder((x: (nat, Category)) => x.1.name, ByName);
  }

  /** Every row of the table, each paired with its key. */
  function AllRows(t: Table<Category>): (all: seq<(nat, Category)>)
    requires Tables.Valid(t)
    ensures |all| == |t.rows|
    ensures forall x :: x in all <==> x.0 in t.rows && x.1 == t.rows[x.0]
  {
    var all := Select(t, AnyCategory);
    SelectAllCount(t, AnyCategory);
    assert forall k | k in t.rows :: (k, t.rows[k]) in all by {
      forall k | k in t.rows ensures (k, t.rows[k]) in all {
        var i :| 0 <= i < |all| && all[i].0 == k;
      }
    }
    all
  }

  /** `GET /categories`: every category once, ordered by name. */
  function ListCategories(t: Table<Category>): (r: seq<(nat, Category)>)
    requires Tables.Valid(t)
    ensures SortedBy(r, ByName)
    ensures |r| == |t.rows|
    ensures forall x :: x in r <==> x.0 in t.rows && x.1 == t.rows[x.0]
  {
    ByNamePreorder();
    var all := AllRows(t);
    var r := SortBy(all, ByName);
    SameElements(r, all);
    r
  }

  // ---- the audit entries the three writing views leave ----

  const CREATE_AUDIT: AuditSpec := AuditSpec("create_category", Some("Category"), Some("id"))
  const UPDATE_AUDIT: AuditSpec := AuditSpec("update_category", Some("Category"), Some("category_id"))
  const DELETE_AUDIT: AuditSpec := AuditSpec("delete_category", Some("Category"), Some("category_id"))

  /** `create_category` under `@audit`: a rejected payload raises and is
      not logged; a duplicate name is a returned 409, so it is logged, with
      no target id (the route has no `id` argument and the result is a
      tuple). */
  function AuditedCreateCategory(s: Store, caller: nat, p: CategoryPayload, now: int, commitOk: bool): (r: Reply<Store>)
    requires Wf(s)
    ensures r.status == CreateCategory(s, caller, p).status
    ensures LoadCategory(p, false).None? ==> r.state == s
    ensures LoadCategory(p, false).Some? && commitOk ==>
      AddsOne(CreateCategory(s, caller, p).state.auditLogs, r.state.auditLogs, s.auditLogs.next,
              AuditEntry(Some(caller), "create_category", Some("Category"), None, now, map[]))
  {
    Audited(CreateCategory(s, caller, p), CREATE_AUDIT, map[], None, NoDetailsFn, Some(caller), now, commitOk)
  }

  /** `update_category` under `@audit`: 404 and schema errors raise and are
      not logged; a missing name (400), a clash (409) and success are
      logged against the category id. */
  function AuditedUpdateCategory(s: Store, caller: nat, id: nat, p: CategoryPayload, now: int, commitOk: bool): (r: Reply<Store>)
    requires Wf(s)
    ensures r.status == UpdateCategory(s, id, p).status
    ensures id !in s.categories.rows || LoadCategory(p, true).None? ==> r.state == s
    ensures id in s.categories.rows && LoadCategory(p, true).Some? && commitOk ==>
      AddsOne(UpdateCategory(s, id, p).state.auditLogs, r.state.auditLogs, s.auditLogs.next,
              AuditEntry(Some(caller), "update_category", Some("Category"), Some(id), now, map[]))
  {
    Audited(UpdateCategory(s, id, p), UPDATE_AUDIT, map["category_id" := id], None, NoDetailsFn, Some(caller), now, commitOk)
  }

  /** `delete_category` under `@audit`: only a deletion that happened is
      logged. */
  function AuditedDeleteCategory(s: Store, caller: nat, id: nat, now: int, commitOk: bool): (r: Reply<Store>)
    requires Wf(s)
    ensures r.status == DeleteCategory(s, id).status
    ensures id !in s.categories.rows ==> r.state == s
    ensures id in s.categories.rows && commitOk ==>
      AddsOne(DeleteCategory(s, id).state.auditLogs, r.state.auditLogs, s.auditLogs.next,
              AuditEntry(Some(caller), "delete_category", Some("Category"), Some(id), now, map[]))
  {
    Audited(DeleteCategory(s, id), DELETE_AUDIT, map["category_id" := id], None, NoDetailsFn, Some(caller), now, commitOk)
  }
}
