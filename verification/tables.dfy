/** A relational table as the handlers see it: rows keyed by an
    auto-increment primary key. `next` is the id the next insert receives,
    so every stored key lies in `[1, next)`. */
module Tables {
  import opened Wrappers

  datatype Table<T> = Table(rows: map<nat, T>, next: nat)

  predicate Valid<T>(t: Table<T>) {
    1 <= t.next && forall k | k in t.rows :: 1 <= k < t.next
  }

  function Empty<T>(): (t: Table<T>)
    ensures Valid(t) && |t.rows| == 0
  {
    Table(map[], 1)
  }

  /** `INSERT`: the new row receives the next primary key. */
  function Insert<T>(t: Table<T>, row: T): (r: Table<T>)
    requires Valid(t)
    ensures Valid(r)
    ensures t.next !in t.rows && t.next in r.rows && r.rows[t.next] == row
    ensures forall k | k in t.rows :: k in r.rows && r.rows[k] == t.rows[k]
    ensures r.rows.Keys == t.rows.Keys + {t.next}
    ensures r.next == t.next + 1
  {
    Table(t.rows[t.next := row], t.next + 1)
  }

  /** `UPDATE ... WHERE id = k`. */
  function Put<T>(t: Table<T>, k: nat, row: T): (r: Table<T>)
    requires Valid(t) && k in t.rows
    ensures Valid(r) && r.rows.Keys == t.rows.Keys && r.rows[k] == row
    ensures forall j | j in t.rows && j != k :: r.rows[j] == t.rows[j]
  {
    Table(t.rows[k := row], t.next)
  }

  /** `DELETE ... WHERE id = k`. */
  function Delete<T>(t: Table<T>, k: nat): (r: Table<T>)
    requires Valid(t)
    ensures Valid(r) && r.rows.Keys == t.rows.Keys - {k}
    ensures forall j | j in r.rows :: r.rows[j] == t.rows[j]
  {
    Table(t.rows - {k}, t.next)
  }

  /** `t2` is `t1` with one row added under the fresh key `k`; every
      other row kept. */
  ghost predicate AddsOne<T>(t1: Table<T>, t2: Table<T>, k: nat, row: T) {
    && k !in t1.rows && k in t2.rows && t2.rows[k] == row
    && t2.rows.Keys == t1.rows.Keys + {k}
    && (forall j | j in t1.rows :: j in t2.rows && t2.rows[j] == t1.rows[j])
  }

  /** `t2` is `t1` with the row under `k` replaced by `row`; every other
      row kept. */
  ghost predicate ReplacesOne<T>(t1: Table<T>, t2: Table<T>, k: nat, row: T) {
    && k in t1.rows && k in t2.rows && t2.rows[k] == row
    && t2.rows.Keys == t1.rows.Keys
    && (forall j | j in t1.rows && j != k :: j in t2.rows && t2.rows[j] == t1.rows[j])
  }

  predicate Increasing(ks: seq<nat>) {
    forall i, j | 0 <= i < j < |ks| :: ks[i] < ks[j]
  }

  /** The keys in `[lo, next)` whose rows satisfy `p`, in primary-key order:
      `SELECT id ... WHERE p ORDER BY id`. */
  function WhereFrom<T>(t: Table<T>, p: T -> bool, lo: nat): (ks: seq<nat>)
    ensures forall i | 0 <= i < |ks| :: ks[i] in t.rows && p(t.rows[ks[i]]) && lo <= ks[i]
    ensures forall k | k in t.rows && lo <= k < t.next && p(t.rows[k]) :: k in ks
    ensures Increasing(ks)
    decreases if lo <= t.next then t.next - lo else 0
  {
    if lo >= t.next then []
    else if lo in t.rows && p(t.rows[lo]) then [lo] + WhereFrom(t, p, lo + 1)
    else WhereFrom(t, p, lo + 1)
  }

  /** All keys whose rows satisfy `p`, in primary-key order. */
  function Where<T>(t: Table<T>, p: T -> bool): (ks: seq<nat>)
    requires Valid(t)
    ensures forall k :: k in ks <==> k in t.rows && p(t.rows[k])
    ensures Increasing(ks)
  {
    WhereFrom(t, p, 1)
  }

  /** `.filter(p).first()`: the lowest key whose row satisfies `p`. */
  function First<T>(t: Table<T>, p: T -> bool): (r: Option<nat>)
    requires Valid(t)
    ensures r.Some? ==> r.value in t.rows && p(t.rows[r.value])
    ensures r.None? <==> forall k | k in t.rows :: !p(t.rows[k])
  {
    var ks := Where(t, p);
    if |ks| == 0 then None else Some(ks[0])
  }

  /** Overwriting the first match with another matching row keeps it the
      first match. */
  lemma FirstKeptByPut<T>(t: Table<T>, p: T -> bool, k: nat, row: T)
    requires Valid(t) && First(t, p) == Some(k) && p(row)
    ensures First(Put(t, k, row), p) == Some(k)
  {
    var ks := Where(t, p);
    var ks2 := Where(Put(t, k, row), p);
    assert forall j :: j in ks2 <==> j in ks;
    if ks2[0] != k {
      assert k in ks2;
      var i :| 0 <= i < |ks2| && ks2[i] == k;
      assert ks2[0] in ks;
      var i1 :| 0 <= i1 < |ks| && ks[i1] == ks2[0];
    }
  }

  /** A matching row inserted where nothing matched is the first match. */
  lemma FirstOfInsert<T>(t: Table<T>, p: T -> bool, row: T)
    requires Valid(t) && First(t, p).None? && p(row)
    ensures First(Insert(t, row), p) == Some(t.next)
  {
    assert Insert(t, row).rows[t.next] == row;
  }

  /** The rows with the given keys, paired with their keys. */
  function RowsAt<T>(t: Table<T>, ks: seq<nat>): (r: seq<(nat, T)>)
    requires forall i | 0 <= i < |ks| :: ks[i] in t.rows
    ensures |r| == |ks|
    ensures forall i | 0 <= i < |ks| :: r[i] == (ks[i], t.rows[ks[i]])
  {
    seq(|ks|, i requires 0 <= i < |ks| => (ks[i], t.rows[ks[i]]))
  }

  /** `SELECT * WHERE p ORDER BY id`. */
  function Select<T>(t: Table<T>, p: T -> bool): (r: seq<(nat, T)>)
    requires Valid(t)
    ensures forall i | 0 <= i < |r| :: r[i].0 in t.rows && r[i].1 == t.rows[r[i].0] && p(r[i].1)
    ensures forall k | k in t.rows && p(t.rows[k]) :: exists i :: 0 <= i < |r| && r[i].0 == k
    ensures forall i, j | 0 <= i < j < |r| :: r[i].0 < r[j].0
  {
    var ks := Where(t, p);
    var r := RowsAt(t, ks);
    assert forall k | k in t.rows && p(t.rows[k]) :: exists i :: 0 <= i < |r| && r[i].0 == k by {
      forall k | k in t.rows && p(t.rows[k]) ensures exists i :: 0 <= i < |r| && r[i].0 == k {
        var i :| 0 <= i < |ks| && ks[i] == k;
        assert r[i].0 == k;
      }
    }
    r
  }

  /** The keys of a key list, as a set. */
  function KeySet(ks: seq<nat>): (r: set<nat>)
    ensures forall k :: k in r <==> k in ks
  {
    if |ks| == 0 then {} else {ks[0]} + KeySet(ks[1..])
  }

  /** A key list without repeats has as many distinct keys as entries. */
  lemma {:induction false} DistinctCard(ks: seq<nat>)
    requires forall i, j | 0 <= i < j < |ks| :: ks[i] != ks[j]
    ensures |KeySet(ks)| == |ks|
  {
    if |ks| > 0 {
      DistinctCard(ks[1..]);
      assert ks[0] !in KeySet(ks[1..]) by {
        forall j | 0 <= j < |ks[1..]| ensures ks[1..][j] != ks[0] {
          assert ks[1..][j] == ks[j + 1];
        }
      }
      assert KeySet(ks) == {ks[0]} + KeySet(ks[1..]);
    }
  }

  /** `SELECT * WHERE p` returns each matching row once: as many rows as
      keys whose rows satisfy `p`. */
  lemma SelectCount<T>(t: Table<T>, p: T -> bool)
    requires Valid(t)
    ensures |Select(t, p)| == |KeysWhere(t, p)|
  {
    var ks := Where(t, p);
    DistinctCard(ks);
    assert KeySet(ks) == KeysWhere(t, p);
  }

  /** The keys whose rows satisfy `p`, as a set. */
  function KeysWhere<T>(t: Table<T>, p: T -> bool): (r: set<nat>)
    ensures forall k :: k in r <==> k in t.rows && p(t.rows[k])
  {
    set k | k in t.rows && p(t.rows[k])
  }

  /** `SELECT * ... ORDER BY id` with no filter returns every row once. */
  lemma SelectAllCount<T>(t: Table<T>, p: T -> bool)
    requires Valid(t) && forall x :: p(x)
    ensures |Select(t, p)| == |t.rows|
  {
    SelectCount(t, p);
    assert KeysWhere(t, p) == t.rows.Keys;
  }
}
