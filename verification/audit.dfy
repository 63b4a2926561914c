/** backend/app/audit.py: `record_action`, the `audit` decorator and the
    `list_logs` view. */
module Audit {
  import opened Wrappers
  import opened Tables
  import opened Ordering
  import opened Http
  import opened Schema

  /** The decorator's arguments: `audit(action, target_type, target_id_arg)`. */
  datatype AuditSpec = AuditSpec(action: string, targetType: Option<string>, targetIdArg: Option<string>)

  /** What the optional `details_fn(kwargs, result)` did: there is none, it
      raised, or it returned a value (`None` standing for any falsy non-dict). */
  datatype DetailsOutcome = NoDetailsFn | DetailsRaised | DetailsReturned(value: Option<map<string, string>>)

  /** The `details` the entry stores: the function's dict, else `{}`. */
  function ResolveDetails(d: DetailsOutcome): (m: map<string, string>)
    ensures m != map[] ==> d.DetailsReturned? && d.value == Some(m)
    ensures d.DetailsReturned? && d.value.Some? ==> m == d.value.value
  {
    match d
    case DetailsReturned(Some(v)) => v
    case _ => map[]
  }

  /** The target id: `kwargs[target_id_arg]` when the URL carries it, else
      `result.json.get(target_id_arg)`; `json` is `None` for a result that has
      no `.json` (a `(response, status)` tuple), which reads as `{}`. */
  function ResolveTarget(arg: Option<string>, kwargs: map<string, int>, json: Option<map<string, int>>): (t: Option<int>)
    ensures t.Some? ==> TruthyStr(arg)
    ensures TruthyStr(arg) && arg.value in kwargs ==> t == Some(kwargs[arg.value])
    ensures t.Some? && arg.value !in kwargs ==> json.Some? && arg.value in json.value && t.value == json.value[arg.value]
  {
    if !TruthyStr(arg) then None
    else if arg.value in kwargs then Some(kwargs[arg.value])
    else if json.Some? && arg.value in json.value then Some(json.value[arg.value])
    else None
  }

  /** `record_action`: one entry with the caller's id (`None` when the
      identity does not parse as an integer) and `details or {}`; a failed
      commit is rolled back and swallowed, leaving the log as it was. */
  function RecordAction(log: Table<AuditEntry>, who: Option<int>, action: string,
                        targetType: Option<string>, targetId: Option<int>,
                        details: map<string, string>, now: int, commitOk: bool): (r: Table<AuditEntry>)
    requires Tables.Valid(log)
    ensures Tables.Valid(r)
    ensures !commitOk ==> r == log
    ensures commitOk ==> r.rows.Keys == log.rows.Keys + {log.next} && log.next !in log.rows
    ensures commitOk ==> r.rows[log.next] == AuditEntry(who, action, targetType, targetId, now, details)
    ensures forall k | k in log.rows :: k in r.rows && r.rows[k] == log.rows[k]
  {
    if commitOk then Insert(log, AuditEntry(who, action, targetType, targetId, now, details))
    else log
  }

  /** The `audit` decorator around a view whose outcome is `r`: a view that
      raised propagates untouched and is not logged; a view that returned
      (whatever its status) is logged once and its result passed through. */
  function Audited(r: Reply<Store>, spec: AuditSpec, kwargs: map<string, int>,
                   json: Option<map<string, int>>, det: DetailsOutcome,
                   who: Option<int>, now: int, commitOk: bool): (a: Reply<Store>)
    requires Tables.Valid(r.state.auditLogs)
    ensures a.status == r.status && a.raised == r.raised
    ensures a.state == r.state.(auditLogs := a.state.auditLogs)
    ensures r.raised ==> a.state.auditLogs == r.state.auditLogs
    ensures !r.raised && commitOk ==>
      |a.state.auditLogs.rows| == |r.state.auditLogs.rows| + 1
    ensures !r.raised && commitOk ==>
      var k := r.state.auditLogs.next;
      k in a.state.auditLogs.rows
      && a.state.auditLogs.rows[k] ==
         AuditEntry(who, spec.action, spec.targetType,
                    ResolveTarget(spec.targetIdArg, kwargs, json), now, ResolveDetails(det))
    ensures !r.raised && commitOk ==>
      AddsOne(r.state.auditLogs, a.state.auditLogs, r.state.auditLogs.next,
              AuditEntry(who, spec.action, spec.targetType,
                         ResolveTarget(spec.targetIdArg, kwargs, json), now, ResolveDetails(det)))
    ensures !commitOk ==> a == r
  {
    if r.raised then r
    else
      var log := RecordAction(r.state.auditLogs, who, spec.action, spec.targetType,
                              ResolveTarget(spec.targetIdArg, kwargs, json),
                              ResolveDetails(det), now, commitOk);
      Reply(r.status, r.state.(auditLogs := log), r.raised)
  }

  /** Every audited view of the application returns a `(response, status)`
      tuple, so the target id is the URL argument when the route has one
      and `None` otherwise (`create_content`, `add_comment` and
      `create_category` name an `id` their URLs lack). */
  lemma TupleResultTarget(arg: string, kwargs: map<string, int>)
    requires |arg| > 0
    ensures arg in kwargs ==> ResolveTarget(Some(arg), kwargs, None) == Some(kwargs[arg])
    ensures arg !in kwargs ==> ResolveTarget(Some(arg), kwargs, None) == None
  {
  }

  // ---- list_logs ----

  /** `ORDER BY timestamp DESC`. */
  predicate NewerFirst(a: (nat, AuditEntry), b: (nat, AuditEntry)) {
    a.1.timestamp >= b.1.timestamp
  }

  predicate AnyEntry(e: AuditEntry) { true }

  predicate DistinctRows(a: (nat, AuditEntry), b: (nat, AuditEntry)) {
    a.0 != b.0
  }

  /** `min(limit, 200)`, with `limit` 50 when the query string lacks it or
      it does not parse as an integer. */
  function Limit(arg: Option<int>): (n: int)
    ensures n <= 200
    ensures arg.None? ==> n == 50
    ensures arg.Some? && arg.value <= 200 ==> n == arg.value
    ensures arg.Some? && arg.value > 200 ==> n == 200
  {
    var l := arg.GetOr(50);
    if l < 200 then l else 200
  }

  /** `list_logs`: the newest `min(limit, 200)` entries, newest first.
      `None` stands for a negative limit, whose meaning depends on the
      database engine. */
  function ListLogs(log: Table<AuditEntry>, limitArg: Option<int>): (r: Option<seq<(nat, AuditEntry)>>)
    requires Tables.Valid(log)
    ensures r.Some? <==> Limit(limitArg) >= 0
    ensures r.Some? ==> |r.value| <= 200
    ensures r.Some? ==> |r.value| == if Limit(limitArg) < |log.rows| then Limit(limitArg) else |log.rows|
    ensures r.Some? ==> SortedBy(r.value, NewerFirst)
    ensures r.Some? ==> forall i | 0 <= i < |r.value| ::
      r.value[i].0 in log.rows && log.rows[r.value[i].0] == r.value[i].1
    ensures r.Some? ==> forall i, j | 0 <= i < j < |r.value| :: r.value[i].0 != r.value[j].0
  {
    var n := Limit(limitArg);
    if n < 0 then None
    else
      var all := SortAll(log);
      SelectAllCount(log, AnyEntry);
      var m := if n < |all| then n else |all|;
      SortedPrefixDominates(all, NewerFirst, m);
      PrefixDistinct(all, m);
      Some(all[..m])
  }

  /** A prefix of a listing without repeated rows has none either. */
  lemma PrefixDistinct(all: seq<(nat, AuditEntry)>, m: nat)
    requires Pairwise(all, DistinctRows) && m <= |all|
    ensures forall i, j | 0 <= i < j < m :: all[..m][i].0 != all[..m][j].0
  {
    forall i, j | 0 <= i < j < m ensures all[..m][i].0 != all[..m][j].0 {
      assert DistinctRows(all[i], all[j]);
    }
  }

  /** Every entry, newest first. */
  function SortAll(log: Table<AuditEntry>): (all: seq<(nat, AuditEntry)>)
    requires Tables.Valid(log)
    ensures SortedBy(all, NewerFirst)
    ensures multiset(all) == multiset(Select(log, AnyEntry)) && |all| == |Select(log, AnyEntry)|
    ensures forall i | 0 <= i < |all| :: all[i].0 in log.rows && log.rows[all[i].0] == all[i].1
    ensures Pairwise(all, DistinctRows)
  {
    IntKeyDescPreorder((e: (nat, AuditEntry)) => e.1.timestamp, NewerFirst);
    var sel := Select(log, AnyEntry);
    assert Pairwise(sel, DistinctRows);
    PairwiseSortBy(sel, NewerFirst, DistinctRows);
    var all := SortBy(sel, NewerFirst);
    assert forall i | 0 <= i < |all| :: all[i] in multiset(sel);
    all
  }

  /** `ORDER BY timestamp DESC LIMIT n` keeps the newest entries: every
      entry left out is no newer than every entry returned. */
  lemma ListLogsKeepsNewest(log: Table<AuditEntry>, limitArg: Option<int>, k: nat)
    requires Tables.Valid(log) && ListLogs(log, limitArg).Some?
    requires k in log.rows
    requires forall i | 0 <= i < |ListLogs(log, limitArg).value| :: ListLogs(log, limitArg).value[i].0 != k
    ensures forall i | 0 <= i < |ListLogs(log, limitArg).value| ::
      ListLogs(log, limitArg).value[i].1.timestamp >= log.rows[k].timestamp
  {
    var r := ListLogs(log, limitArg).value;
    var all := SortAll(log);
    var m := |r|;
    assert r == all[..m];
    SortedPrefixDominates(all, NewerFirst, m);
    var j := RowPosition(log, all, k);
    assert forall i | 0 <= i < m :: all[i].0 != k by {
      forall i | 0 <= i < m ensures all[i].0 != k {
        assert all[i] == r[i];
      }
    }
    assert j >= m;
    forall i | 0 <= i < m ensures r[i].1.timestamp >= log.rows[k].timestamp {
      assert r[i] == all[i];
      assert NewerFirst(all[i], all[j]);
    }
  }

  /** Where row `k` sits in the sorted listing. */
  lemma RowPosition(log: Table<AuditEntry>, all: seq<(nat, AuditEntry)>, k: nat) returns (j: nat)
    requires Tables.Valid(log) && k in log.rows && all == SortAll(log)
    ensures j < |all| && all[j] == (k, log.rows[k])
  {
    var sel := Select(log, AnyEntry);
    var i0 :| 0 <= i0 < |sel| && sel[i0].0 == k;
    assert sel[i0] in multiset(all);
    j :| 0 <= j < |all| && all[j] == sel[i0];
  }
}
