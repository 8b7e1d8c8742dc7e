/**
 * Convergence of inserts and whole-run deletes: every causal order of the same
 * operations, with any repetitions, builds the same tree, and hence the same
 * maps, spans and text.
 */
module Convergence {
  import opened Ids
  import opened RunForest
  import opened RunEffects
  import opened SplitFreshness
  import opened PositionIndex
  import opened CausalTree
  import opened Reducer

  // ----- a document is determined by its runs

  lemma {:induction false} ParentedRoots(f: Forest, parent: Id, x: Id)
    requires Parented(f, parent) && Distinct(f) && x in Roots(f)
    ensures x in Members(f) && Find(f, x).parentId == parent
  {
    RootsAreMembers(f);
    if f.run.id != x {
      RootsAreMembers(f.rest);
      ParentedRoots(f.rest, parent, x);
    }
  }

  /** Every run hangs in the chain of the parent it names. */
  lemma {:induction false} HangsFromParent(f: Forest, parent: Id, x: Id)
    requires Parented(f, parent) && Distinct(f) && x in Members(f)
    ensures var p := Find(f, x).parentId;
            (x in Roots(f) && p == parent) || (p in Members(f) && x in Roots(KidsOf(f, p)))
  {
    if f.run.id != x {
      if x in Members(f.kids) {
        HangsFromParent(f.kids, f.run.id, x);
      } else {
        HangsFromParent(f.rest, parent, x);
      }
    }
  }

  /** The children of a run are exactly the runs that name it as their parent. */
  lemma ChildrenExactly(d: Forest, p: Id, x: Id)
    requires Doc(d) && p in Members(d)
    ensures x in Roots(KidsOf(d, p)) <==> x in Members(d) && x != ROOT && Find(d, x).parentId == p
  {
    KidsOfOrdered(d, p, "");
    KidsOfDistinct(d, p);
    RootHasNoParent(d, p);
    RootsAreMembers(KidsOf(d, p));
    if x in Roots(KidsOf(d, p)) {
      ParentedRoots(KidsOf(d, p), p, x);
      InnerFind(d, p, x);
    } else if x in Members(d) && x != ROOT {
      HangsFromParent(d, "", x);
    }
  }

  ghost predicate Descending(s: seq<Id>)
  {
    forall i :: 0 <= i < |s| - 1 ==> Less(s[i + 1], s[i])
  }

  lemma {:induction false} SortedRoots(f: Forest)
    requires Sorted(f)
    ensures Descending(Roots(f))
  {
    if f.Cons? {
      SortedRoots(f.rest);
      var s := Roots(f);
      assert s[1..] == Roots(f.rest);
      assert f.rest.Cons? ==> s[1] == f.rest.run.id;
      forall i | 0 <= i < |s| - 1 ensures Less(s[i + 1], s[i]) {
        if i > 0 { assert Less(s[1..][i], s[1..][i - 1]); }
      }
    }
  }

  /** The head of a descending list is its maximum. */
  lemma {:induction false} HeadIsGreatest(s: seq<Id>, i: nat)
    requires Descending(s) && 0 < i < |s|
    ensures Less(s[i], s[0])
  {
    if i > 1 {
      HeadIsGreatest(s, i - 1);
      LessTransitive(s[i], s[i - 1], s[0]);
    }
  }

  /** A descending list is determined by its elements. */
  lemma {:induction false} DescendingUnique(s: seq<Id>, t: seq<Id>)
    requires Descending(s) && Descending(t)
    requires forall x :: x in s <==> x in t
    ensures s == t
    decreases |s|
  {
    NonemptyHasMember(t);
    if s != [] {
      assert s[0] in t && t[0] in s;
      SameHead(s, t);
      forall x ensures x in s[1..] <==> x in t[1..] {
        TailMembers(s, x);
        TailMembers(t, x);
      }
      assert Descending(s[1..]) && Descending(t[1..]);
      DescendingUnique(s[1..], t[1..]);
      assert s == [s[0]] + s[1..] && t == [t[0]] + t[1..];
    }
  }

  lemma NonemptyHasMember(s: seq<Id>)
    ensures s != [] ==> exists x :: x in s
  {
    if s != [] { assert s[0] in s; }
  }

  lemma SameHead(s: seq<Id>, t: seq<Id>)
    requires Descending(s) && Descending(t) && s != [] && t != [] && s[0] in t && t[0] in s
    ensures s[0] == t[0]
  {
    var i :| 0 <= i < |t| && t[i] == s[0];
    var j :| 0 <= j < |s| && s[j] == t[0];
    if i > 0 { HeadIsGreatest(t, i); }
    if j > 0 { HeadIsGreatest(s, j); }
    LessTrichotomy(s[0], t[0]);
  }

  lemma TailMembers(s: seq<Id>, x: Id)
    requires Descending(s) && s != []
    ensures x in s[1..] <==> x in s && x != s[0]
  {
    if x in s[1..] {
      var i :| 0 <= i < |s[1..]| && s[1..][i] == x;
      HeadIsGreatest(s, i + 1);
      LessTrichotomy(x, s[0]);
    }
  }

  /** Chains with the same roots, runs and children are the same. */
  lemma {:induction false} SameChain(f: Forest, g: Forest)
    requires Distinct(f) && Distinct(g) && Roots(f) == Roots(g)
    requires forall x :: x in Members(f) && x in Members(g) ==>
               Find(f, x) == Find(g, x) && Roots(KidsOf(f, x)) == Roots(KidsOf(g, x))
    ensures f == g
  {
    if f.Cons? {
      assert Roots(f)[0] == f.run.id && g.Cons? && Roots(g)[0] == g.run.id;
      assert f.run.id in Members(f) && f.run.id in Members(g);
      assert Roots(f.rest) == Roots(f)[1..] && Roots(g.rest) == Roots(g)[1..];
      SameChain(f.kids, g.kids);
      SameChain(f.rest, g.rest);
    }
  }

  /** Two documents with the same runs are the same tree. */
  lemma SameRunsSameTree(d: Forest, e: Forest)
    requires Doc(d) && Doc(e) && Members(d) == Members(e)
    requires forall x :: x in Members(d) ==> Find(d, x) == Find(e, x)
    ensures d == e
  {
    forall p | p in Members(d) ensures Roots(KidsOf(d, p)) == Roots(KidsOf(e, p)) {
      SameChildren(d, e, p);
    }
    SameChain(d, e);
  }

  lemma SameChildren(d: Forest, e: Forest, p: Id)
    requires Doc(d) && Doc(e) && Members(d) == Members(e) && p in Members(d)
    requires forall x :: x in Members(d) ==> Find(d, x) == Find(e, x)
    ensures Roots(KidsOf(d, p)) == Roots(KidsOf(e, p))
  {
    KidsOfOrdered(d, p, "");
    KidsOfOrdered(e, p, "");
    SortedRoots(KidsOf(d, p));
    SortedRoots(KidsOf(e, p));
    forall x ensures x in Roots(KidsOf(d, p)) <==> x in Roots(KidsOf(e, p)) {
      ChildrenExactly(d, p, x);
      ChildrenExactly(e, p, x);
    }
    DescendingUnique(Roots(KidsOf(d, p)), Roots(KidsOf(e, p)));
  }

  /** A tree determines the maps. */
  lemma SameTreeSameMaps(st: DocState, st': DocState, d: Forest)
    requires Holds(st, d) && Holds(st', d)
    ensures st.nodes == st'.nodes && st.children == st'.children
  {
    forall x | x in Members(d) ensures st.nodes[x] == st'.nodes[x] && st.children[x] == st'.children[x] {
      MatchFind(st.nodes, st.children, d, x);
      MatchFind(st'.nodes, st'.children, d, x);
    }
  }

  // ----- inserts and whole-run deletes

  /** Every operation inserts a run of the ledger or deletes one whole. */
  ghost predicate FromLedger(ops: seq<DocAction>, ledger: map<Id, RunNode>)
  {
    forall i :: 0 <= i < |ops| ==> EntryOf(ops[i], ledger)
  }

  predicate EntryOf(op: DocAction, ledger: map<Id, RunNode>)
  {
    match op
    case INSERT_RUN(node) => node.id in ledger && ledger[node.id] == node && node.id != ROOT
    case DELETE_RANGE(id, offset, count) =>
      id in ledger && id != ROOT && offset == 0 && 0 < count == |ledger[id].text|
    case _ => false
  }

  /** Parents are inserted before children, and runs before they are deleted. */
  predicate Causal(ops: seq<DocAction>)
    decreases |ops|
  {
    ops == [] ||
    (var init, op := ops[..|ops| - 1], ops[|ops| - 1];
     Causal(init) &&
     match op
     case INSERT_RUN(node) => node.parentId == ROOT || node.parentId in Inserted(init)
     case DELETE_RANGE(id, _, _) => id in Inserted(init)
     case _ => false)
  }

  function Inserted(ops: seq<DocAction>): set<Id>
  {
    set i | 0 <= i < |ops| && ops[i].INSERT_RUN? :: ops[i].node.id
  }

  function Deleted(ops: seq<DocAction>): set<Id>
  {
    set i | 0 <= i < |ops| && ops[i].DELETE_RANGE? :: ops[i].runId
  }

  /** The tree that holds exactly the ledger's runs named by the operations. */
  ghost predicate BuiltFrom(d: Forest, ops: seq<DocAction>, ledger: map<Id, RunNode>)
  {
    && Doc(d) && Members(d) == Inserted(ops) + {ROOT} && Inserted(ops) <= ledger.Keys
    && forall x :: x in Inserted(ops) ==>
         Find(d, x) == ledger[x].(deleted := ledger[x].deleted || x in Deleted(ops))
  }

  lemma BuildInsert(d: Forest, init: seq<DocAction>, node: RunNode, ledger: map<Id, RunNode>)
    requires BuiltFrom(d, init, ledger) && EntryOf(INSERT_RUN(node), ledger) && Deleted(init) <= Inserted(init)
    requires node.parentId == ROOT || node.parentId in Inserted(init)
    ensures BuiltFrom(Insert(d, node), init + [INSERT_RUN(node)], ledger)
  {
    SnocIds(init, INSERT_RUN(node));
    InsertDoc(d, node);
    if node.id !in Members(d) {
      InsertNewFind(d, node);
      forall x | x in Members(d) ensures Find(Insert(d, node), x) == Find(d, x) {
        InsertFind(d, node, x);
      }
    }
  }

  lemma BuildDelete(d: Forest, init: seq<DocAction>, op: DocAction, ledger: map<Id, RunNode>)
    requires BuiltFrom(d, init, ledger) && EntryOf(op, ledger) && op.DELETE_RANGE? && op.runId in Inserted(init)
    ensures BuiltFrom(Reduce(d, op), init + [op], ledger)
  {
    SnocIds(init, op);
    var run := Find(d, op.runId).(deleted := true);
    if !Find(d, op.runId).deleted {
      assert Reduce(d, op) == Tombstone(d, op.runId);
      InPlaceDoc(d, op.runId, run);
      forall x | x in Members(d) ensures Find(Reduce(d, op), x) == if x == op.runId then run else Find(d, x) {
        InPlaceFind(d, op.runId, run, x);
      }
    }
  }

  lemma SnocIds(init: seq<DocAction>, op: DocAction)
    ensures Inserted(init + [op]) == Inserted(init) + if op.INSERT_RUN? then {op.node.id} else {}
    ensures Deleted(init + [op]) == Deleted(init) + if op.DELETE_RANGE? then {op.runId} else {}
  {
    var ops := init + [op];
    assert ops[|init|] == op && forall i :: 0 <= i < |init| ==> ops[i] == init[i];
  }

  lemma BuildStep(d: Forest, init: seq<DocAction>, op: DocAction, ledger: map<Id, RunNode>)
    requires BuiltFrom(d, init, ledger) && EntryOf(op, ledger) && Deleted(init) <= Inserted(init)
    requires op.INSERT_RUN? ==> op.node.parentId == ROOT || op.node.parentId in Inserted(init)
    requires op.DELETE_RANGE? ==> op.runId in Inserted(init)
    ensures BuiltFrom(Reduce(d, op), init + [op], ledger)
    ensures Deleted(init + [op]) <= Inserted(init + [op])
  {
    SnocIds(init, op);
    if op.INSERT_RUN? {
      BuildInsert(d, init, op.node, ledger);
    } else {
      BuildDelete(d, init, op, ledger);
    }
  }

  /** The tree after a list of operations; an insert under an unknown parent is skipped. */
  function Build(ops: seq<DocAction>): Forest
    decreases |ops|
  {
    if ops == [] then EMPTY
    else
      var d, op := Build(ops[..|ops| - 1]), ops[|ops| - 1];
      if op.INSERT_RUN? && op.node.parentId !in Members(d) then d else Reduce(d, op)
  }

  lemma {:induction false} BuildIsBuiltFrom(ops: seq<DocAction>, ledger: map<Id, RunNode>)
    requires FromLedger(ops, ledger) && Causal(ops)
    ensures BuiltFrom(Build(ops), ops, ledger) && Deleted(ops) <= Inserted(ops)
    decreases |ops|
  {
    if ops != [] {
      var init, op := ops[..|ops| - 1], ops[|ops| - 1];
      BuildIsBuiltFrom(init, ledger);
      assert EntryOf(op, ledger);
      BuildStep(Build(init), init, op, ledger);
      assert init + [op] == ops;
    }
  }

  /** Any two causal orders of the same operations, with repetitions, build the same tree. */
  lemma TreesConverge(ops: seq<DocAction>, ops': seq<DocAction>, ledger: map<Id, RunNode>)
    requires FromLedger(ops, ledger) && Causal(ops)
    requires FromLedger(ops', ledger) && Causal(ops')
    requires forall op :: op in ops <==> op in ops'
    ensures Build(ops) == Build(ops')
  {
    SameIds(ops, ops');
    SameIds(ops', ops);
    RootNotInserted(ops, ledger);
    BuildIsBuiltFrom(ops, ledger);
    BuildIsBuiltFrom(ops', ledger);
    SameBuild(Build(ops), Build(ops'), ops, ops', ledger);
  }

  lemma SameBuild(d: Forest, e: Forest, ops: seq<DocAction>, ops': seq<DocAction>, ledger: map<Id, RunNode>)
    requires BuiltFrom(d, ops, ledger) && BuiltFrom(e, ops', ledger)
    requires Inserted(ops) == Inserted(ops') && Deleted(ops) == Deleted(ops') && ROOT !in Inserted(ops)
    ensures d == e
  {
    SameRunsSameTree(d, e);
  }

  lemma SameIds(ops: seq<DocAction>, ops': seq<DocAction>)
    requires forall op :: op in ops ==> op in ops'
    ensures Inserted(ops) <= Inserted(ops') && Deleted(ops) <= Deleted(ops')
  {
    forall i | 0 <= i < |ops| ensures exists j :: 0 <= j < |ops'| && ops'[j] == ops[i] {
      assert ops[i] in ops';
    }
  }

  lemma RootNotInserted(ops: seq<DocAction>, ledger: map<Id, RunNode>)
    requires FromLedger(ops, ledger)
    ensures ROOT !in Inserted(ops)
  {
    forall i | 0 <= i < |ops| && ops[i].INSERT_RUN? ensures ops[i].node.id != ROOT {
      assert EntryOf(ops[i], ledger);
    }
  }

  // ----- the stored states

  lemma {:induction false} ReduceAllSnoc(d: Forest, ops: seq<DocAction>, op: DocAction)
    requires AllSound(d, ops) && Sound(ReduceAll(d, ops), op)
    ensures AllSound(d, ops + [op])
    ensures ReduceAll(d, ops + [op]) == Reduce(ReduceAll(d, ops), op)
    decreases |ops|
  {
    var all := ops + [op];
    if ops == [] {
      assert all[1..] == [];
    } else {
      assert all[1..] == ops[1..] + [op];
      ReduceAllSnoc(Reduce(d, ops[0]), ops[1..], op);
    }
  }

  /** The next causal operation finds its parent in the tree built so far. */
  lemma CausalSound(init: seq<DocAction>, op: DocAction, ledger: map<Id, RunNode>)
    requires FromLedger(init + [op], ledger) && Causal(init + [op])
    ensures Causal(init) && FromLedger(init, ledger) && Sound(Build(init), op)
    ensures Build(init + [op]) == Reduce(Build(init), op)
  {
    var ops := init + [op];
    assert ops[..|ops| - 1] == init && ops[|ops| - 1] == op;
    assert forall i :: 0 <= i < |init| ==> init[i] == ops[i];
    BuildIsBuiltFrom(init, ledger);
  }

  /** Causal operations are all sound for the reducer's tree, and leave the tree they build. */
  lemma {:induction false} ReduceAllBuilds(ops: seq<DocAction>, ledger: map<Id, RunNode>)
    requires FromLedger(ops, ledger) && Causal(ops)
    ensures AllSound(EMPTY, ops) && ReduceAll(EMPTY, ops) == Build(ops)
    decreases |ops|
  {
    if ops != [] {
      var init, op := ops[..|ops| - 1], ops[|ops| - 1];
      assert ops == init + [op];
      ReduceAllBuilds(init, ledger);
      CausalSound(init, op, ledger);
      ReduceAllSnoc(EMPTY, init, op);
    }
  }

  /**
   * Two peers that see the same operations in different causal orders, with
   * repetitions, end with the same nodes, children and text, whatever became of
   * the parents meanwhile, and with the same spans in some order; in the same
   * order if each insert found its seat where it arrived.
   */
  method ReplayBoth(ops: seq<DocAction>, ops': seq<DocAction>, ghost ledger: map<Id, RunNode>)
    returns (st: DocState, text: string, st': DocState, text': string)
    requires FromLedger(ops, ledger) && Causal(ops)
    requires FromLedger(ops', ledger) && Causal(ops')
    requires forall op :: op in ops <==> op in ops'
    ensures Keeps(st, Build(ops)) && text == Text(Build(ops))
    ensures st.nodes == st'.nodes && st.children == st'.children && text == text'
    ensures forall span :: span in st.index.spans <==> span in st'.index.spans
    ensures st.index.totalLength == st'.index.totalLength
    ensures AllApplicable(EMPTY, ops) && AllApplicable(EMPTY, ops') ==> st == st'
  {
    ReduceAllBuilds(ops, ledger);
    ReduceAllBuilds(ops', ledger);
    TreesConverge(ops, ops', ledger);
    st, text := Replay(ops);
    st', text' := Replay(ops');
    SameTreeSameMaps(st, st', Build(ops));
  }

  // ----- a run inserted under a deleted parent

  const FIRST: RunNode := RunNode("b", "x", ROOT, "p", false)
  const SECOND: RunNode := RunNode("a", "y", ROOT, "p", false)
  const UNDER_FIRST: RunNode := RunNode("c", "z", "b", "q", false)

  const BOTH: Forest := Cons(ROOT_NODE, Cons(FIRST, Nil, Cons(SECOND, Nil, Nil)), Nil)
  const FIRST_GONE: Forest := Cons(ROOT_NODE, Cons(FIRST.(deleted := true), Nil, Cons(SECOND, Nil, Nil)), Nil)

  lemma BothInserted()
    ensures Insert(Insert(EMPTY, FIRST), SECOND) == BOTH
  {
    assert !Less("b", "a");
    assert Insert(EMPTY, FIRST) == Cons(ROOT_NODE, Cons(FIRST, Nil, Nil), Nil);
  }

  lemma FirstDeleted()
    ensures DeleteRange(BOTH, "b", 0, 1) == FIRST_GONE && Visible(FIRST_GONE) == [Piece("a", "y")]
  {
    assert Deletable(BOTH, "b", 0, 1);
  }

  lemma UnderDeleted()
    ensures "b" in Members(FIRST_GONE) && !Seated(FIRST_GONE, UNDER_FIRST)
    ensures Visible(Insert(FIRST_GONE, UNDER_FIRST)) == [Piece("c", "z"), Piece("a", "y")]
  {
    assert After(FIRST_GONE, "b") == [Piece("a", "y")];
  }

  method DeleteFirst() returns (st: DocState)
    ensures Repr(st, FIRST_GONE)
  {
    st := CreateDocState();
    st := DocReducer(st, INSERT_RUN(FIRST), EMPTY);
    st := DocReducer(st, INSERT_RUN(SECOND), Insert(EMPTY, FIRST));
    BothInserted();
    FirstDeleted();
    st := ApplyDeleteRange(st, "b", 0, 1, BOTH);
  }

  /** An insert without a seat: the text follows the tree, the new span stands last. */
  method InsertUnseated(st: DocState, node: RunNode, ghost d: Forest) returns (st': DocState, text: string)
    requires Repr(st, d) && node.parentId in Members(d) && !Seated(d, node)
    ensures text == Text(Insert(d, node))
    ensures st'.index.spans == SpansOf(Visible(d)) + [RunSpan(node.id, |node.text|)]
  {
    st' := ApplyInsertRun(st, node, d);
    text := Reconstruct(st', Insert(d, node));
  }

  /** The tree reads "zy" while the spans stand in the order of "yz". */
  method MisplacedSpan() returns (st: DocState, text: string)
    ensures text == "zy" && st.index.spans == [RunSpan("a", 1), RunSpan("c", 1)]
  {
    FirstDeleted();
    UnderDeleted();
    st := DeleteFirst();
    st, text := InsertUnseated(st, UNDER_FIRST, FIRST_GONE);
    JoinTwo(Piece("c", "z"), Piece("a", "y"));
  }
}
