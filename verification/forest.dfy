/** The three comment-thread builders of the repository, on one node shape.

    - `Assemble`: backend/app/content.py `list_comments` — one pass over an
      id-keyed map of node dicts; a reply whose parent is not in the map is
      silently dropped.
    - `AssembleStrict`: backend/app/comments.py `list_comments` — the same
      pass with no guard: a missing parent raises `KeyError`.
    - `BuildCommentTree`: backend/app/users/routes.py `build_comment_tree` —
      recursive; the children of a node are the comments naming it. */
module CommentForest {
  import opened Wrappers
  import opened Ordering

  /** One serialised comment: its id, its parent reference, and the rest of
      the node dict (body, author, creation time) as `info`. */
  datatype Node<P> = Node(id: int, parent: Option<int>, info: P)

  /** The state after content.py's loops: the `tree` list, and the
      `replies` list of every node dict keyed by comment id. The JSON answer
      is `roots` with each node's `replies` nested inside it. */
  datatype Forest<P> = Forest(roots: seq<Node<P>>, replies: map<int, seq<Node<P>>>)

  predicate UniqueIds<P(==)>(cs: seq<Node<P>>) {
    forall i, j | 0 <= i < j < |cs| :: cs[i].id != cs[j].id
  }

  function IdSet<P(==)>(cs: seq<Node<P>>): (r: set<int>)
    ensures forall c | c in cs :: c.id in r
    ensures forall k | k in r :: exists c | c in cs :: c.id == k
  {
    set c | c in cs :: c.id
  }

  function Ids<P(==)>(cs: seq<Node<P>>): (ks: seq<int>)
    ensures |ks| == |cs| && forall i | 0 <= i < |cs| :: ks[i] == cs[i].id
  {
    seq(|cs|, i requires 0 <= i < |cs| => cs[i].id)
  }

  /** Every reply names a parent that is among the listed comments. */
  predicate NoOrphans<P(==)>(cs: seq<Node<P>>) {
    forall c | c in cs && TruthyId(c.parent) :: c.parent.value in IdSet(cs)
  }

  // ---- reference definitions: which comments belong where ----

  /** The comments with a falsy parent, in input order. */
  function RootsOf<P(==)>(cs: seq<Node<P>>): (r: seq<Node<P>>)
    ensures forall x | x in r :: x in cs && !TruthyId(x.parent)
    ensures forall x | x in cs && !TruthyId(x.parent) :: x in r
    ensures |r| <= |cs|
  {
    if |cs| == 0 then []
    else (if TruthyId(cs[0].parent) then [] else [cs[0]]) + RootsOf(cs[1..])
  }

  /** The comments whose (truthy) parent is `p`, in input order. */
  function ChildrenOf<P(==)>(cs: seq<Node<P>>, p: int): (r: seq<Node<P>>)
    ensures forall x | x in r :: x in cs && TruthyId(x.parent) && x.parent.value == p
    ensures forall x | x in cs && TruthyId(x.parent) && x.parent.value == p :: x in r
    ensures |r| <= |cs|
  {
    if |cs| == 0 then []
    else (if TruthyId(cs[0].parent) && cs[0].parent.value == p then [cs[0]] else [])
         + ChildrenOf(cs[1..], p)
  }

  /** The comments whose (truthy) parent is in `ps`, in input order. */
  function ParentIn<P(==)>(cs: seq<Node<P>>, ps: set<int>): seq<Node<P>>
  {
    if |cs| == 0 then []
    else (if TruthyId(cs[0].parent) && cs[0].parent.value in ps then [cs[0]] else [])
         + ParentIn(cs[1..], ps)
  }

  // ---- content.py: the guarded single pass ----

  function EmptyReplies<P(==)>(ids: set<int>): (m: map<int, seq<Node<P>>>)
    ensures m.Keys == ids && forall k | k in m :: m[k] == []
  {
    map k | k in ids :: []
  }

  /** One iteration of the second loop: a root joins `tree`; a reply joins
      its parent's `replies` if the parent is in the map, else nothing. */
  function Step<P(==)>(f: Forest<P>, c: Node<P>): Forest<P> {
    if TruthyId(c.parent) then
      if c.parent.value in f.replies then
        f.(replies := f.replies[c.parent.value := f.replies[c.parent.value] + [c]])
      else f
    else f.(roots := f.roots + [c])
  }

  /** The loop over `cs`, from state `f`. */
  function Run<P(==)>(f: Forest<P>, cs: seq<Node<P>>): Forest<P>
    decreases |cs|
  {
    if |cs| == 0 then f else Run(Step(f, cs[0]), cs[1..])
  }

  /** content.py's assembly: node map over all ids, then the loop. */
  function Assemble<P(==)>(cs: seq<Node<P>>): Forest<P> {
    Run(Forest([], EmptyReplies(IdSet(cs))), cs)
  }

  lemma {:induction false} RunRoots<P>(f: Forest<P>, cs: seq<Node<P>>)
    ensures Run(f, cs).roots == f.roots + RootsOf(cs)
    decreases |cs|
  {
    if |cs| > 0 {
      RunRoots(Step(f, cs[0]), cs[1..]);
    }
  }

  lemma {:induction false} RunKeys<P>(f: Forest<P>, cs: seq<Node<P>>)
    ensures Run(f, cs).replies.Keys == f.replies.Keys
    decreases |cs|
  {
    if |cs| > 0 {
      RunKeys(Step(f, cs[0]), cs[1..]);
    }
  }

  lemma {:induction false} RunReplies<P>(f: Forest<P>, cs: seq<Node<P>>, p: int)
    requires p in f.replies
    ensures p in Run(f, cs).replies
    ensures Run(f, cs).replies[p] == f.replies[p] + ChildrenOf(cs, p)
    decreases |cs|
  {
    if |cs| > 0 {
      var g := Step(f, cs[0]);
      RunReplies(g, cs[1..], p);
      if TruthyId(cs[0].parent) && cs[0].parent.value == p {
        assert g.replies[p] == f.replies[p] + [cs[0]];
        assert (f.replies[p] + [cs[0]]) + ChildrenOf(cs[1..], p)
            == f.replies[p] + ([cs[0]] + ChildrenOf(cs[1..], p));
      } else {
        assert g.replies[p] == f.replies[p];
        assert ChildrenOf(cs, p) == ChildrenOf(cs[1..], p);
      }
    }
  }

  /** What content.py's pass builds: the roots are exactly the comments
      with a falsy parent and every listed comment's `replies` are exactly
      the comments naming it, both in input order; there is one replies
      list per listed comment. */
  lemma AssembleSpec<P>(cs: seq<Node<P>>)
    ensures Assemble(cs).roots == RootsOf(cs)
    ensures Assemble(cs).replies.Keys == IdSet(cs)
    ensures forall p | p in IdSet(cs) :: Assemble(cs).replies[p] == ChildrenOf(cs, p)
  {
    var f0: Forest<P> := Forest([], EmptyReplies(IdSet(cs)));
    var f := Run(f0, cs);
    assert Assemble(cs) == f;
    RunRoots(f0, cs);
    assert f0.roots + RootsOf(cs) == RootsOf(cs);
    RunKeys(f0, cs);
    forall p | p in IdSet(cs) ensures f.replies[p] == ChildrenOf(cs, p) {
      RunReplies(f0, cs, p);
      assert f0.replies[p] == [];
    }
  }

  /** A comment is a root iff its parent is falsy, and it sits in the
      replies of `p` iff it names `p`. So a reply whose parent is not listed
      (an orphan) appears nowhere in the forest. */
  lemma OrphansDropped<P>(cs: seq<Node<P>>, c: Node<P>)
    requires c in cs && TruthyId(c.parent) && c.parent.value !in IdSet(cs)
    ensures c !in Assemble(cs).roots
    ensures forall p | p in Assemble(cs).replies :: c !in Assemble(cs).replies[p]
  {
    AssembleSpec(cs);
  }

  lemma {:induction false} RootsOfSorted<P>(cs: seq<Node<P>>, le: (Node<P>, Node<P>) -> bool)
    requires SortedBy(cs, le)
    ensures SortedBy(RootsOf(cs), le)
  {
    if |cs| > 0 {
      RootsOfSorted(cs[1..], le);
      forall x | x in RootsOf(cs[1..]) ensures le(cs[0], x) {
        var j :| 0 <= j < |cs[1..]| && cs[1..][j] == x;
        assert cs[j + 1] == x;
      }
    }
  }

  lemma {:induction false} ChildrenOfSorted<P>(cs: seq<Node<P>>, p: int, le: (Node<P>, Node<P>) -> bool)
    requires SortedBy(cs, le)
    ensures SortedBy(ChildrenOf(cs, p), le)
  {
    if |cs| > 0 {
      ChildrenOfSorted(cs[1..], p, le);
      forall x | x in ChildrenOf(cs[1..], p) ensures le(cs[0], x) {
        var j :| 0 <= j < |cs[1..]| && cs[1..][j] == x;
        assert cs[j + 1] == x;
      }
    }
  }

  /** Input order carries over: if the comments come sorted (by creation
      time, say) then the roots and every sibling list are sorted too. */
  lemma AssembleKeepsOrder<P>(cs: seq<Node<P>>, le: (Node<P>, Node<P>) -> bool)
    requires SortedBy(cs, le)
    ensures SortedBy(Assemble(cs).roots, le)
    ensures forall p | p in Assemble(cs).replies :: SortedBy(Assemble(cs).replies[p], le)
  {
    AssembleSpec(cs);
    RootsOfSorted(cs, le);
    forall p | p in Assemble(cs).replies ensures SortedBy(Assemble(cs).replies[p], le) {
      ChildrenOfSorted(cs, p, le);
    }
  }

  // ---- every comment exactly once ----

  /** All replies lists of the given keys, pooled. */
  function Gather<P(==)>(replies: map<int, seq<Node<P>>>, ks: seq<int>): multiset<Node<P>>
    requires forall i | 0 <= i < |ks| :: ks[i] in replies
  {
    if |ks| == 0 then multiset{} else multiset(replies[ks[0]]) + Gather(replies, ks[1..])
  }

  lemma {:induction false} ParentInSplit<P>(cs: seq<Node<P>>, ps: set<int>, k: int)
    requires k !in ps
    ensures multiset(ParentIn(cs, ps + {k})) == multiset(ParentIn(cs, ps)) + multiset(ChildrenOf(cs, k))
  {
    if |cs| > 0 {
      ParentInSplit(cs[1..], ps, k);
    }
  }

  lemma {:induction false} GatherChildren<P>(cs: seq<Node<P>>, replies: map<int, seq<Node<P>>>, ks: seq<int>)
    requires forall i | 0 <= i < |ks| :: ks[i] in replies && replies[ks[i]] == ChildrenOf(cs, ks[i])
    requires forall i, j | 0 <= i < j < |ks| :: ks[i] != ks[j]
    ensures Gather(replies, ks) == multiset(ParentIn(cs, set k | k in ks))
  {
    if |ks| == 0 {
      assert (set k | k in ks) == {};
      ParentInEmpty(cs);
    } else {
      var rest := set k | k in ks[1..];
      GatherChildren(cs, replies, ks[1..]);
      SetOfSplit(ks);
      ParentInSplit(cs, rest, ks[0]);
      assert Gather(replies, ks) == multiset(ChildrenOf(cs, ks[0])) + Gather(replies, ks[1..]);
    }
  }

  lemma SetOfSplit(ks: seq<int>)
    requires |ks| > 0 && forall i, j | 0 <= i < j < |ks| :: ks[i] != ks[j]
    ensures (set k | k in ks) == (set k | k in ks[1..]) + {ks[0]}
    ensures ks[0] !in (set k | k in ks[1..])
  {
    assert ks == [ks[0]] + ks[1..];
  }

  lemma {:induction false} ParentInEmpty<P>(cs: seq<Node<P>>)
    ensures ParentIn(cs, {}) == []
  {
    if |cs| > 0 {
      ParentInEmpty(cs[1..]);
    }
  }

  lemma {:induction false} RootsPlusParented<P>(cs: seq<Node<P>>, ps: set<int>)
    requires forall c | c in cs && TruthyId(c.parent) :: c.parent.value in ps
    ensures multiset(RootsOf(cs)) + multiset(ParentIn(cs, ps)) == multiset(cs)
  {
    if |cs| > 0 {
      RootsPlusParented(cs[1..], ps);
      assert cs == [cs[0]] + cs[1..];
    }
  }

  lemma {:induction false} UniqueIdsCountOnce<P>(cs: seq<Node<P>>, c: Node<P>)
    requires UniqueIds(cs) && c in cs
    ensures multiset(cs)[c] == 1
  {
    assert cs == [cs[0]] + cs[1..];
    if cs[0] == c {
      assert c !in cs[1..];
    } else {
      UniqueIdsCountOnce(cs[1..], c);
    }
  }

  /** When every reply's parent is listed and ids are unique, the roots and
      all replies lists together hold each comment exactly once: the forest
      has as many nodes as there are comments. */
  lemma EachCommentOnce<P>(cs: seq<Node<P>>)
    requires UniqueIds(cs) && NoOrphans(cs)
    ensures var f := Assemble(cs);
            forall i | 0 <= i < |cs| :: cs[i].id in f.replies
    ensures var f := Assemble(cs);
            multiset(f.roots) + Gather(f.replies, Ids(cs)) == multiset(cs)
    ensures var f := Assemble(cs);
            forall c | c in cs :: (multiset(f.roots) + Gather(f.replies, Ids(cs)))[c] == 1
  {
    var f := Assemble(cs);
    var ks := Ids(cs);
    AssembleSpec(cs);
    assert forall i | 0 <= i < |ks| :: ks[i] in IdSet(cs);
    GatherChildren(cs, f.replies, ks);
    IdsCoverIdSet(cs);
    RootsPlusParented(cs, IdSet(cs));
    forall c | c in cs ensures multiset(cs)[c] == 1 {
      UniqueIdsCountOnce(cs, c);
    }
  }

  lemma IdsCoverIdSet<P>(cs: seq<Node<P>>)
    ensures (set k | k in Ids(cs)) == IdSet(cs)
  {
    var ks := Ids(cs);
    forall x | x in IdSet(cs) ensures x in ks {
      var c :| c in cs && c.id == x;
      var i :| 0 <= i < |cs| && cs[i] == c;
      assert ks[i] == x;
    }
  }

  // ---- comments.py: the same pass without the orphan guard ----

  /** One iteration of comments.py's loop: `m[c.parent_id]` raises
      `KeyError` (`None`) when the parent is not in the map. */
  function StepStrict<P(==)>(f: Forest<P>, c: Node<P>): Option<Forest<P>> {
    if TruthyId(c.parent) then
      if c.parent.value in f.replies then Some(Step(f, c)) else None
    else Some(Step(f, c))
  }

  function RunStrict<P(==)>(f: Forest<P>, cs: seq<Node<P>>): Option<Forest<P>>
    decreases |cs|
  {
    if |cs| == 0 then Some(f)
    else match StepStrict(f, cs[0])
      case None => None
      case Some(g) => RunStrict(g, cs[1..])
  }

  function AssembleStrict<P(==)>(cs: seq<Node<P>>): Option<Forest<P>> {
    RunStrict(Forest([], EmptyReplies(IdSet(cs))), cs)
  }

  lemma {:induction false} RunStrictSpec<P>(f: Forest<P>, cs: seq<Node<P>>)
    ensures RunStrict(f, cs).None? <==>
      exists c | c in cs :: TruthyId(c.parent) && c.parent.value !in f.replies
    ensures RunStrict(f, cs).Some? ==> RunStrict(f, cs).value == Run(f, cs)
    decreases |cs|
  {
    if |cs| > 0 {
      assert cs == [cs[0]] + cs[1..];
      var c := cs[0];
      if !(TruthyId(c.parent) && c.parent.value !in f.replies) {
        var g := Step(f, c);
        assert g.replies.Keys == f.replies.Keys;
        RunStrictSpec(g, cs[1..]);
      }
    }
  }

  /** comments.py's listing fails exactly when some reply names a parent
      that is not among the listed comments; otherwise it builds the same
      forest as content.py's guarded pass. */
  lemma StrictAgreesWhenNoOrphans<P>(cs: seq<Node<P>>)
    ensures AssembleStrict(cs).None? <==> !NoOrphans(cs)
    ensures AssembleStrict(cs).Some? ==> AssembleStrict(cs).value == Assemble(cs)
  {
    RunStrictSpec(Forest([], EmptyReplies(IdSet(cs))), cs);
  }

  // ---- users/routes.py: the recursive builder ----

  datatype Tree<P> = Tree(node: Node<P>, children: seq<Tree<P>>)

  function Nodes<P(==)>(ts: seq<Tree<P>>): (r: seq<Node<P>>)
    ensures |r| == |ts| && forall i | 0 <= i < |ts| :: r[i] == ts[i].node
  {
    seq(|ts|, i requires 0 <= i < |ts| => ts[i].node)
  }

  /** The comments whose `parent_comment_id == parent` (plain equality:
      `None` matches only `None`), in input order. */
  function Matching<P(==)>(cs: seq<Node<P>>, parent: Option<int>): (r: seq<Node<P>>)
    ensures forall x | x in r :: x in cs && x.parent == parent
    ensures forall x | x in cs && x.parent == parent :: x in r
  {
    if |cs| == 0 then []
    else (if cs[0].parent == parent then [cs[0]] else []) + Matching(cs[1..], parent)
  }

  function PathIds<P(==)>(path: seq<Node<P>>): set<int> {
    set i | 0 <= i < |path| :: path[i].id
  }

  /** The chain of ancestors the recursion is inside: a root first, then
      each element a child of the one before, with distinct ids. */
  ghost predicate PathOk<P>(cs: seq<Node<P>>, path: seq<Node<P>>) {
    && (forall i | 0 <= i < |path| :: path[i] in cs)
    && (|path| > 0 ==> path[0].parent == None)
    && (forall i | 0 < i < |path| :: path[i].parent == Some(path[i - 1].id))
    && (forall i, j | 0 <= i < j < |path| :: path[i].id != path[j].id)
  }

  function Below<P(==)>(path: seq<Node<P>>): Option<int> {
    if |path| == 0 then None else Some(path[|path| - 1].id)
  }

  /** With unique ids, a comment matching the innermost ancestor is not
      itself an ancestor: the recursion never revisits a comment. */
  lemma ChildIsNew<P>(cs: seq<Node<P>>, path: seq<Node<P>>, c: Node<P>)
    requires UniqueIds(cs) && PathOk(cs, path)
    requires c in cs && c.parent == Below(path)
    ensures c.id !in PathIds(path)
    ensures PathOk(cs, path + [c])
  {
    NoAncestorNamesLast(cs, path);
    if c.id in PathIds(path) {
      var j :| 0 <= j < |path| && path[j].id == c.id;
      SameIdSameNode(cs, path[j], c);
    }
    var q := path + [c];
    forall i, j | 0 <= i < j < |q| ensures q[i].id != q[j].id {
      if j < |path| {
        assert q[i] == path[i] && q[j] == path[j];
      } else {
        assert q[i] == path[i];
        assert path[i].id in PathIds(path);
      }
    }
    forall i | 0 < i < |q| ensures q[i].parent == Some(q[i - 1].id) {
      if i < |path| {
        assert q[i] == path[i] && q[i - 1] == path[i - 1];
      }
    }
  }

  /** No comment on the path names the innermost one as its parent. */
  lemma NoAncestorNamesLast<P>(cs: seq<Node<P>>, path: seq<Node<P>>)
    requires PathOk(cs, path)
    ensures forall j | 0 <= j < |path| :: path[j].parent != Below(path)
  {
    forall j | 0 <= j < |path| ensures path[j].parent != Below(path) {
      if j > 0 {
        assert path[j - 1].id != path[|path| - 1].id;
      }
    }
  }

  lemma SameIdSameNode<P>(cs: seq<Node<P>>, a: Node<P>, b: Node<P>)
    requires UniqueIds(cs) && a in cs && b in cs && a.id == b.id
    ensures a == b
  {
    var i :| 0 <= i < |cs| && cs[i] == a;
    var j :| 0 <= j < |cs| && cs[j] == b;
  }

  /** The Python loop over `comment_list[i:]` at one recursion level:
      `parent` is the recursion's `parent_id` argument. */
  function Level<P(==)>(cs: seq<Node<P>>, i: nat, parent: Option<int>, ghost path: seq<Node<P>>): (r: seq<Tree<P>>)
    requires UniqueIds(cs) && PathOk(cs, path) && i <= |cs| && parent == Below(path)
    decreases IdSet(cs) - PathIds(path), |cs| - i
  {
    if i == |cs| then []
    else if cs[i].parent == parent then
      ChildIsNew(cs, path, cs[i]);
      PathIdsGrow(path, cs[i]);
      [Tree(cs[i], Level(cs, 0, Some(cs[i].id), path + [cs[i]]))] + Level(cs, i + 1, parent, path)
    else Level(cs, i + 1, parent, path)
  }

  lemma PathIdsGrow<P>(path: seq<Node<P>>, c: Node<P>)
    ensures PathIds(path + [c]) == PathIds(path) + {c.id}
    ensures Below(path + [c]) == Some(c.id)
  {
    var q := path + [c];
    forall x | x in PathIds(q) ensures x in PathIds(path) + {c.id} {
      var k :| 0 <= k < |q| && q[k].id == x;
      if k < |path| { assert path[k].id == x; }
    }
    forall x | x in PathIds(path) + {c.id} ensures x in PathIds(q) {
      if x == c.id {
        assert q[|path|].id == x;
      } else {
        var k :| 0 <= k < |path| && path[k].id == x;
        assert q[k].id == x;
      }
    }
  }

  /** `build_comment_tree(comments)`: the top level are the comments whose
      parent is `None`. */
  function BuildCommentTree<P(==)>(cs: seq<Node<P>>): seq<Tree<P>>
    requires UniqueIds(cs)
  {
    Level(cs, 0, None, [])
  }

  /** Every tree node's children are exactly the comments naming it, in
      input order, all the way down. */
  ghost predicate ChildrenMatch<P>(cs: seq<Node<P>>, ts: seq<Tree<P>>)
    decreases ts
  {
    forall k | 0 <= k < |ts| ::
      Nodes(ts[k].children) == Matching(cs, Some(ts[k].node.id))
      && ChildrenMatch(cs, ts[k].children)
  }

  /** `x` occurs somewhere in the forest `ts`. */
  ghost predicate Occurs<P>(ts: seq<Tree<P>>, x: Node<P>)
    decreases ts
  {
    exists k | 0 <= k < |ts| :: ts[k].node == x || Occurs(ts[k].children, x)
  }

  lemma {:induction false} LevelNodes<P>(cs: seq<Node<P>>, i: nat, parent: Option<int>, path: seq<Node<P>>)
    requires UniqueIds(cs) && PathOk(cs, path) && i <= |cs| && parent == Below(path)
    ensures Nodes(Level(cs, i, parent, path)) == Matching(cs[i..], parent)
    decreases |cs| - i
  {
    if i < |cs| {
      LevelNodes(cs, i + 1, parent, path);
      MatchingStep(cs, i, parent);
      var rest := Level(cs, i + 1, parent, path);
      if cs[i].parent == parent {
        ChildIsNew(cs, path, cs[i]);
        PathIdsGrow(path, cs[i]);
        var t := Tree(cs[i], Level(cs, 0, Some(cs[i].id), path + [cs[i]]));
        assert Level(cs, i, parent, path) == [t] + rest;
        NodesAppend([t], rest);
      } else {
        assert Level(cs, i, parent, path) == rest;
      }
    }
  }

  lemma NodesAppend<P>(a: seq<Tree<P>>, b: seq<Tree<P>>)
    ensures Nodes(a + b) == Nodes(a) + Nodes(b)
  {
  }

  /** One step of `Matching` down the suffixes of `cs`. */
  lemma MatchingStep<P>(cs: seq<Node<P>>, i: nat, parent: Option<int>)
    requires i < |cs|
    ensures Matching(cs[i..], parent) == (if cs[i].parent == parent then [cs[i]] else []) + Matching(cs[i + 1..], parent)
  {
    assert cs[i..][1..] == cs[i + 1..];
  }

  lemma ChildrenMatchCons<P>(cs: seq<Node<P>>, t: Tree<P>, rest: seq<Tree<P>>)
    requires Nodes(t.children) == Matching(cs, Some(t.node.id)) && ChildrenMatch(cs, t.children)
    requires ChildrenMatch(cs, rest)
    ensures ChildrenMatch(cs, [t] + rest)
  {
    var ts := [t] + rest;
    forall k | 0 <= k < |ts|
      ensures Nodes(ts[k].children) == Matching(cs, Some(ts[k].node.id)) && ChildrenMatch(cs, ts[k].children)
    {
      if k > 0 { assert ts[k] == rest[k - 1]; }
    }
  }

  lemma {:induction false} LevelChildren<P>(cs: seq<Node<P>>, i: nat, parent: Option<int>, path: seq<Node<P>>)
    requires UniqueIds(cs) && PathOk(cs, path) && i <= |cs| && parent == Below(path)
    ensures ChildrenMatch(cs, Level(cs, i, parent, path))
    decreases IdSet(cs) - PathIds(path), |cs| - i
  {
    if i < |cs| {
      if cs[i].parent == parent {
        ChildIsNew(cs, path, cs[i]);
        PathIdsGrow(path, cs[i]);
        var q := path + [cs[i]];
        var kids := Level(cs, 0, Some(cs[i].id), q);
        var rest := Level(cs, i + 1, parent, path);
        LevelNodes(cs, 0, Some(cs[i].id), q);
        LevelChildren(cs, 0, Some(cs[i].id), q);
        LevelChildren(cs, i + 1, parent, path);
        assert cs[0..] == cs;
        assert Level(cs, i, parent, path) == [Tree(cs[i], kids)] + rest;
        ChildrenMatchCons(cs, Tree(cs[i], kids), rest);
      } else {
        LevelChildren(cs, i + 1, parent, path);
      }
    }
  }

  lemma {:induction false} LevelOccurs<P>(cs: seq<Node<P>>, i: nat, parent: Option<int>, path: seq<Node<P>>)
    requires UniqueIds(cs) && PathOk(cs, path) && i <= |cs| && parent == Below(path)
    ensures forall x | Occurs(Level(cs, i, parent, path), x) ::
      x in cs && (x.parent == parent || exists y | y in cs :: x.parent == Some(y.id))
    decreases IdSet(cs) - PathIds(path), |cs| - i
  {
    if i < |cs| {
      var ts := Level(cs, i, parent, path);
      if cs[i].parent == parent {
        ChildIsNew(cs, path, cs[i]);
        PathIdsGrow(path, cs[i]);
        var q := path + [cs[i]];
        var kids := Level(cs, 0, Some(cs[i].id), q);
        var rest := Level(cs, i + 1, parent, path);
        LevelOccurs(cs, 0, Some(cs[i].id), q);
        LevelOccurs(cs, i + 1, parent, path);
        assert ts == [Tree(cs[i], kids)] + rest;
        forall x | Occurs(ts, x)
          ensures x in cs && (x.parent == parent || exists y | y in cs :: x.parent == Some(y.id))
        {
          var k :| 0 <= k < |ts| && (ts[k].node == x || Occurs(ts[k].children, x));
          if k == 0 {
            if ts[0].node != x {
              assert Occurs(kids, x);
            }
          } else {
            assert ts[k] == rest[k - 1];
            assert Occurs(rest, x);
          }
        }
      } else {
        LevelOccurs(cs, i + 1, parent, path);
      }
    }
  }

  /** What `build_comment_tree` promises: the top level is exactly the
      comments with no parent, in input order; every node's children are
      exactly the comments naming it, in input order; and only comments
      whose parent is `None` or another listed comment appear — an orphan
      appears nowhere. */
  lemma BuildCommentTreeSpec<P>(cs: seq<Node<P>>)
    requires UniqueIds(cs)
    ensures Nodes(BuildCommentTree(cs)) == Matching(cs, None)
    ensures ChildrenMatch(cs, BuildCommentTree(cs))
    ensures forall x | Occurs(BuildCommentTree(cs), x) ::
      x in cs && (x.parent == None || x.parent.value in IdSet(cs))
  {
    LevelNodes(cs, 0, None, []);
    LevelChildren(cs, 0, None, []);
    LevelOccurs(cs, 0, None, []);
    assert cs[0..] == cs;
  }

  lemma {:induction false} MatchingNoneIsRoots<P>(cs: seq<Node<P>>)
    requires forall c | c in cs :: c.parent != Some(0)
    ensures Matching(cs, None) == RootsOf(cs)
  {
    if |cs| > 0 {
      MatchingNoneIsRoots(cs[1..]);
    }
  }

  lemma {:induction false} MatchingSomeIsChildren<P>(cs: seq<Node<P>>, p: int)
    requires forall c | c in cs :: c.parent != Some(0)
    ensures Matching(cs, Some(p)) == ChildrenOf(cs, p)
  {
    if |cs| > 0 {
      MatchingSomeIsChildren(cs[1..], p);
    }
  }

  /** The recursive builder and content.py's map pass agree whenever no
      comment's parent is the falsy id 0: the same roots, and under every
      node of the recursive tree the same replies the map pass collects. */
  lemma RecursiveAgreesWithMapPass<P>(cs: seq<Node<P>>)
    requires UniqueIds(cs)
    requires forall c | c in cs :: c.parent != Some(0)
    ensures Nodes(BuildCommentTree(cs)) == Assemble(cs).roots
    ensures forall c | c in cs ::
      c.id in Assemble(cs).replies && Matching(cs, Some(c.id)) == Assemble(cs).replies[c.id]
  {
    AssembleSpec(cs);
    MatchingNoneIsRoots(cs);
    BuildCommentTreeSpec(cs);
    forall c | c in cs
      ensures c.id in Assemble(cs).replies && Matching(cs, Some(c.id)) == Assemble(cs).replies[c.id]
    {
      MatchingSomeIsChildren(cs, c.id);
    }
  }
}
