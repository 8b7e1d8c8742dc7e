/** The reducer actions on the stored state, and the two searches that keep its index. */
module Reducer {
  import opened Options
  import opened Ids
  import opened RunForest
  import opened RunEffects
  import opened PositionIndex
  import opened SpanLists
  import opened CausalTree

  // ----- where a new run goes among its siblings

  /** First sibling with a smaller id, or the end of the list. */
  method InsertionIndex(siblings: seq<Id>, id: Id) returns (i: nat)
    ensures i <= |siblings|
    ensures forall j :: 0 <= j < i ==> !Less(siblings[j], id)
    ensures i < |siblings| ==> Less(siblings[i], id)
  {
    i := 0;
    while i < |siblings|
      invariant i <= |siblings|
      invariant forall j :: 0 <= j < i ==> !Less(siblings[j], id)
    {
      if Less(siblings[i], id) { return; }
      i := i + 1;
    }
  }

  lemma {:induction false} AttachRoots(f: Forest, node: RunNode, i: nat)
    requires i <= |Roots(f)|
    requires forall j :: 0 <= j < i ==> !Less(Roots(f)[j], node.id)
    requires i < |Roots(f)| ==> Less(Roots(f)[i], node.id)
    ensures Roots(Attach(f, node)) == Roots(f)[..i] + [node.id] + Roots(f)[i..]
    decreases i
  {
    if i > 0 {
      var tail := Roots(f.rest);
      assert Roots(f) == [f.run.id] + tail;
      assert !Less(Roots(f)[0], node.id);
      assert forall j :: 0 <= j < |tail| ==> tail[j] == Roots(f)[j + 1];
      AttachRoots(f.rest, node, i - 1);
      ShiftedSplice(f.run.id, tail, node.id, i - 1);
    }
  }

  lemma ShiftedSplice(head: Id, tail: seq<Id>, x: Id, i: nat)
    requires i <= |tail|
    ensures var s := [head] + tail;
            [head] + (tail[..i] + [x] + tail[i..]) == s[..i + 1] + [x] + s[i + 1..]
  {
  }

  lemma {:induction false} MatchAttach(nodes: Nodes, children: Children, f: Forest, node: RunNode)
    requires Match(nodes, children, f)
    requires node.id in nodes && nodes[node.id] == node && node.id in children && children[node.id] == []
    ensures Match(nodes, children, Attach(f, node))
  {
    if f.Cons? && !Less(f.run.id, node.id) { MatchAttach(nodes, children, f.rest, node); }
  }

  // ----- span index of a new run

  /** From `from` up to `to` every span belongs to the ids, and the one at `to` does not. */
  ghost predicate Skipped(spans: seq<RunSpan>, from: nat, to: nat, ids: set<Id>)
  {
    && from <= to <= |spans|
    && (forall j :: from <= j < to ==> spans[j].runId in ids)
    && (to < |spans| ==> spans[to].runId !in ids)
  }

  /** Advances past the spans of one subtree. */
  method SkipSpans(spans: seq<RunSpan>, from: nat, ids: set<Id>) returns (to: nat)
    requires from <= |spans|
    ensures Skipped(spans, from, to, ids)
  {
    to := from;
    while to < |spans| && spans[to].runId in ids
      invariant from <= to <= |spans|
      invariant forall j :: from <= j < to ==> spans[j].runId in ids
    {
      to := to + 1;
    }
  }

  /** From `at` on, the spans are those of a chain and then of pieces outside it. */
  ghost predicate Ahead(spans: seq<RunSpan>, at: nat, g: Forest, after: seq<Piece>)
  {
    && at <= |spans| && spans[at..] == SpansOf(Visible(g) + after)
    && forall p :: p in after ==> p.id !in Members(g)
  }

  /** A skip over `n` spans of the ids, with no span of the ids behind them, ends behind those `n`. */
  lemma SkipEnds(spans: seq<RunSpan>, from: nat, to: nat, ids: set<Id>, n: nat)
    requires Skipped(spans, from, to, ids) && from + n <= |spans|
    requires forall j :: from <= j < from + n ==> spans[j].runId in ids
    requires forall j :: from + n <= j < |spans| ==> spans[j].runId !in ids
    ensures to == from + n
  {
    var first := if to < from + n then to else from + n;
    assert first < |spans| ==> (spans[first].runId in ids <==> first < from + n);
  }

  lemma SubtreeIds(g: Forest)
    requires g.Cons?
    ensures forall i :: 0 <= i < |Subtree(g.run, g.kids)| ==> Subtree(g.run, g.kids)[i].id in TreeIds(g)
  {
    VisibleMembers(g.kids);
    var tree := Subtree(g.run, g.kids);
    forall i | 0 <= i < |tree| ensures tree[i].id in TreeIds(g) {
      assert tree[i] in Own(g.run) || tree[i] in Visible(g.kids);
    }
  }

  /** Skipping a subtree stops exactly where its contiguous spans end. */
  lemma SkipsSubtree(spans: seq<RunSpan>, from: nat, to: nat, g: Forest, tail: seq<Piece>)
    requires g.Cons? && Skipped(spans, from, to, TreeIds(g))
    requires spans[from..] == SpansOf(Subtree(g.run, g.kids) + tail)
    requires forall p :: p in tail ==> p.id !in TreeIds(g)
    ensures to == from + |Subtree(g.run, g.kids)|
    ensures spans[to..] == SpansOf(tail)
  {
    var tree := Subtree(g.run, g.kids);
    var walk, n := tree + tail, |tree|;
    SubtreeIds(g);
    assert |spans[from..]| == |walk|;
    forall j | from <= j < |spans| ensures spans[j].runId == walk[j - from].id {
      assert spans[j] == spans[from..][j - from];
    }
    forall j | from <= j < from + n ensures spans[j].runId in TreeIds(g) {
      assert walk[j - from] == tree[j - from];
    }
    forall j | from + n <= j < |spans| ensures spans[j].runId !in TreeIds(g) {
      assert walk[j - from] == tail[j - from - n];
    }
    SkipEnds(spans, from, to, TreeIds(g), n);
    SpansTail(spans, from, tree, tail);
  }

  lemma SpansTail(spans: seq<RunSpan>, from: nat, a: seq<Piece>, b: seq<Piece>)
    requires from <= |spans| && spans[from..] == SpansOf(a + b)
    ensures from + |a| <= |spans| && spans[from + |a|..] == SpansOf(b)
  {
    SpansConcat(a, b);
    assert |spans[from..]| == |a| + |b|;
    assert spans[from + |a|..] == spans[from..][|a|..];
  }

  /** The siblings still to pass are those of a chain with the new run among them. */
  ghost predicate Remaining(st: DocState, siblings: seq<Id>, g: Forest, node: RunNode)
  {
    && siblings == Roots(Attach(g, node)) && node.id !in Members(g)
    && Match(st.nodes, st.children, g) && Distinct(g)
  }

  /** One preceding sibling: its subtree comes next, and the rest of the chain remains. */
  lemma NextSibling(st: DocState, siblings: seq<Id>, g: Forest, node: RunNode)
    requires Remaining(st, siblings, g, node) && siblings != [] && siblings[0] != node.id
    ensures g.Cons? && siblings[0] == g.run.id && Match(st.nodes, st.children, g) && Distinct(g)
    ensures Remaining(st, siblings[1..], g.rest, node)
    ensures |AttachBefore(g, node.id)| == |Subtree(g.run, g.kids)| + |AttachBefore(g.rest, node.id)|
  {
    assert Roots(Attach(g, node))[0] == siblings[0];
  }

  lemma Associate<T>(a: seq<T>, b: seq<T>, c: seq<T>)
    ensures a + b + c == a + (b + c)
  {
  }

  /** Skipping the first sibling of a chain leaves the spans of the others ahead. */
  lemma AheadNext(spans: seq<RunSpan>, at: nat, next: nat, g: Forest, after: seq<Piece>)
    requires g.Cons? && Distinct(g) && Ahead(spans, at, g, after) && Skipped(spans, at, next, TreeIds(g))
    ensures next == at + |Subtree(g.run, g.kids)| && Ahead(spans, next, g.rest, after)
  {
    var tail := Visible(g.rest) + after;
    Associate(Subtree(g.run, g.kids), Visible(g.rest), after);
    VisibleMembers(g.rest);
    forall p | p in tail ensures p.id !in TreeIds(g) {
      assert p in Visible(g.rest) || p in after;
    }
    SkipsSubtree(spans, at, next, g, tail);
  }

  /**
   * Skips the subtrees of the siblings that precede the new run.  If the spans
   * from `start` on are those of the siblings, it stops where the new one goes.
   */
  method SkipSiblings(st: DocState, siblings: seq<Id>, last: nat, start: nat,
                      ghost node: RunNode, ghost kids: Forest, ghost after: seq<Piece>)
    returns (spanIdx: nat)
    requires Match(st.nodes, st.children, kids) && Distinct(kids)
    requires siblings == Roots(Attach(kids, node)) && last < |siblings| && siblings[last] == node.id
    requires forall j :: 0 <= j < last ==> siblings[j] != node.id
    requires node.id !in Members(kids) && start <= |st.index.spans|
    ensures spanIdx <= |st.index.spans|
    ensures Ahead(st.index.spans, start, kids, after) ==> spanIdx == start + |AttachBefore(kids, node.id)|
  {
    var spans, i := st.index.spans, 0;
    ghost var g, exact := kids, Ahead(spans, start, kids, after);
    spanIdx := start;
    while i < last
      invariant i <= last && spanIdx <= |spans| && Remaining(st, siblings[i..], g, node)
      invariant exact ==> Ahead(spans, spanIdx, g, after)
      invariant exact ==> spanIdx + |AttachBefore(g, node.id)| == start + |AttachBefore(kids, node.id)|
    {
      assert siblings[i..][0] == siblings[i] && siblings[i..][1..] == siblings[i + 1..];
      NextSibling(st, siblings[i..], g, node);
      var sibIds := CollectSubtreeIds(st.children, siblings[i], st.nodes, g);
      var next := SkipSpans(spans, spanIdx, sibIds);
      if exact { AheadNext(spans, spanIdx, next, g, after); }
      spanIdx := next;
      g := g.rest;
      i := i + 1;
    }
    assert siblings[i..][0] == siblings[i];
    NoneBefore(g, node);
  }

  lemma NoneBefore(g: Forest, node: RunNode)
    requires node.id !in Members(g) && Roots(Attach(g, node))[0] == node.id
    ensures AttachBefore(g, node.id) == []
  {
  }

  /** Index of the first span behind a parent's own, or -1 if the parent has no place in the array. */
  method SpanBehind(spans: seq<RunSpan>, parentId: Id, ghost d: Forest) returns (at: int)
    requires Doc(d) && parentId in Members(d)
    ensures -1 <= at <= |spans|
    ensures spans == SpansOf(Visible(d)) ==> (at == -1 <==> !Anchored(d, parentId))
    ensures spans == SpansOf(Visible(d)) && at != -1 ==>
              at == |Before(d, parentId)| + |Own(Find(d, parentId))| && spans[at..] == SpansOf(Behind(d, parentId))
  {
    if parentId == ROOT {
      SpansBehindParent(d, parentId, 0);
      return 0;
    }
    at := FindSpan(spans, parentId);
    if Find(d, parentId).deleted {
      NoSpan(d, parentId);
    } else {
      SpanOfRun(d, parentId);
      SpansBehindParent(d, parentId, |Before(d, parentId)| + 1);
    }
    if at != -1 { at := at + 1; }
  }

  /** The position of an id in a list, or the list's length. */
  method IndexOf(ids: seq<Id>, id: Id) returns (i: nat)
    ensures i <= |ids| && (i < |ids| ==> ids[i] == id)
    ensures forall j :: 0 <= j < i ==> ids[j] != id
  {
    i := 0;
    while i < |ids| && ids[i] != id
      invariant i <= |ids|
      invariant forall j :: 0 <= j < i ==> ids[j] != id
    {
      i := i + 1;
    }
  }

  /** Behind a parent come the spans of its chain of children and then of runs outside its subtree. */
  lemma ChainAhead(d: Forest, p: Id, spans: seq<RunSpan>, at: nat)
    requires Doc(d) && p in Members(d) && at <= |spans| && spans[at..] == SpansOf(Behind(d, p))
    ensures Ahead(spans, at, KidsOf(d, p), After(d, p))
  {
    AroundIsOutside(d, p);
  }

  /** Where in the span array a new run goes: exact when the array is, within it always. */
  method FindSpanInsertIndex(st: DocState, node: RunNode, ghost d: Forest) returns (spanIdx: nat)
    requires Doc(d) && node.parentId in Members(d) && node.id !in Members(d)
    requires node.parentId in st.children
    requires st.children[node.parentId] == Roots(Attach(KidsOf(d, node.parentId), node))
    requires Match(st.nodes, st.children, KidsOf(d, node.parentId))
    ensures spanIdx <= |st.index.spans|
    ensures st.index.spans == SpansOf(Visible(d)) ==>
              spanIdx == if Anchored(d, node.parentId) then |InsertPrefix(d, node.parentId, node.id)|
                         else |st.index.spans|
  {
    var siblings := ChildrenOf(st.children, node.parentId);
    var last := IndexOf(siblings, node.id);
    var start := SpanBehind(st.index.spans, node.parentId, d);
    if start == -1 { return |st.index.spans|; }
    ghost var p := node.parentId;
    KidsOfDistinct(d, p);
    AttachHasNode(KidsOf(d, p), node);
    if st.index.spans == SpansOf(Visible(d)) { ChainAhead(d, p, st.index.spans, start); }
    spanIdx := SkipSiblings(st, siblings, last, start, node, KidsOf(d, p), After(d, p));
  }

  lemma {:induction false} AttachHasNode(f: Forest, node: RunNode)
    ensures node.id in Roots(Attach(f, node))
  {
    if f.Cons? && !Less(f.run.id, node.id) { AttachHasNode(f.rest, node); }
  }

  /** Right behind an anchored parent come the spans of its children. */
  lemma SpansBehindParent(d: Forest, p: Id, at: nat)
    requires Doc(d) && Anchored(d, p)
    requires p == ROOT ==> at == 0
    requires p != ROOT ==> at > 0 && FirstSpan(SpansOf(Visible(d)), p, at - 1)
    ensures at == |Before(d, p)| + |Own(Find(d, p))| <= |Visible(d)|
    ensures SpansOf(Visible(d))[at..] == SpansOf(Behind(d, p))
  {
    if p == ROOT {
      assert After(d, p) == [];
    } else {
      SpanOfRun(d, p);
      LocatedAt(d, p);
      assert Visible(d)[at..] == Behind(d, p);
    }
  }

  // ----- INSERT_RUN

  /** The tree part of INSERT_RUN. */
  lemma InsertHolds(st: DocState, d: Forest, node: RunNode, nodes': Nodes, children': Children)
    requires Holds(st, d) && node.parentId in Members(d) && node.id !in Members(d)
    requires nodes' == st.nodes[node.id := node]
    requires children' == st.children[node.parentId := Roots(Attach(KidsOf(d, node.parentId), node))][node.id := []]
    ensures Match(nodes', children', KidsOf(d, node.parentId))
    ensures Match(nodes', children', Insert(d, node)) && Doc(Insert(d, node))
    ensures nodes'.Keys == Members(Insert(d, node)) == children'.Keys
  {
    var p := node.parentId;
    var kids := KidsOf(d, p);
    MatchFind(st.nodes, st.children, d, p);
    KidsOfDistinct(d, p);
    MatchFrame(st.nodes, st.children, nodes', children', kids);
    MatchAttach(nodes', children', kids, node);
    MatchReplace(st.nodes, st.children, nodes', children', d, p, Find(d, p), Attach(kids, node));
    InsertDoc(d, node);
  }

  /** Where the spliced span array is the walk of the new tree. */
  lemma InsertIndex(d: Forest, node: RunNode, at: nat)
    requires Doc(d) && node.parentId in Members(d) && node.id !in Members(d) && !node.deleted
    requires at <= |Visible(d)|
    ensures var spans := SpansOf(Visible(d));
            spans[..at] + [RunSpan(node.id, |node.text|)] + spans[at..] == SpansOf(Visible(Insert(d, node)))
            <==> at == |InsertPrefix(d, node.parentId, node.id)|
  {
    InsertVisible(d, node);
    var a, b := InsertPrefix(d, node.parentId, node.id), InsertSuffix(d, node.parentId, node.id);
    SpansSplice(a, Piece(node.id, node.text), b);
    NoSpan(d, node.id);
    SpliceUnique(SpansOf(a + b), RunSpan(node.id, |node.text|), at, |a|);
  }

  lemma SpansSplice(a: seq<Piece>, p: Piece, b: seq<Piece>)
    ensures SpansOf(a + [p] + b)
            == SpansOf(a + b)[..|a|] + [RunSpan(p.id, |p.text|)] + SpansOf(a + b)[|a|..]
  {
  }

  lemma SpliceUnique(s: seq<RunSpan>, x: RunSpan, i: nat, j: nat)
    requires i <= |s| && j <= |s| && x !in s
    ensures s[..i] + [x] + s[i..] == s[..j] + [x] + s[j..] <==> i == j
  {
    var a, b := s[..i] + [x] + s[i..], s[..j] + [x] + s[j..];
    assert a[i] == x && b[j] == x;
    assert i != j ==> a[j] == s[if j < i then j else j - 1];
  }

  /** The tree part of INSERT_RUN: the node, its place among its siblings, and its own empty list. */
  method InsertTree(st: DocState, node: RunNode, ghost d: Forest) returns (nodes': Nodes, children': Children)
    requires Holds(st, d) && node.parentId in Members(d) && node.id !in Members(d)
    ensures Holds(DocState(nodes', children', st.index), Insert(d, node))
    ensures node.parentId in children' && children'[node.parentId] == Roots(Attach(KidsOf(d, node.parentId), node))
    ensures Match(nodes', children', KidsOf(d, node.parentId))
  {
    nodes' := st.nodes[node.id := node];
    var siblings := ChildrenOf(st.children, node.parentId);
    var i := InsertionIndex(siblings, node.id);
    children' := st.children[node.parentId := siblings[..i] + [node.id] + siblings[i..]];
    MatchFind(st.nodes, st.children, d, node.parentId);
    AttachRoots(KidsOf(d, node.parentId), node, i);
    if node.id !in children' { children' := children'[node.id := []]; }
    InsertHolds(st, d, node, nodes', children');
  }

  /** Where the index of INSERT_RUN is exact. */
  predicate Seated(d: Forest, node: RunNode)
    requires node.parentId in Members(d)
  {
    || node.id in Members(d) || node.deleted || Anchored(d, node.parentId)
    || InsertSuffix(d, node.parentId, node.id) == []
  }

  /** The index part of INSERT_RUN, on the state whose tree part is done. */
  method InsertSpan(st: DocState, node: RunNode, ghost d: Forest) returns (index': Index)
    requires Doc(d) && node.parentId in Members(d) && node.id !in Members(d)
    requires node.parentId in st.children
    requires st.children[node.parentId] == Roots(Attach(KidsOf(d, node.parentId), node))
    requires Match(st.nodes, st.children, KidsOf(d, node.parentId))
    ensures Lists(st.index, d) ==> Lists(index', Insert(d, node))
    ensures Indexes(st.index, d) ==> (Indexes(index', Insert(d, node)) <==> Seated(d, node))
    ensures Indexes(st.index, d) && !Seated(d, node) ==> index'.spans == st.index.spans + [RunSpan(node.id, |node.text|)]
  {
    var spans := st.index.spans;
    var spanIdx := FindSpanInsertIndex(st, node, d);
    InsertVisible(d, node);
    if node.deleted {
      index' := st.index;
      assert Visible(Insert(d, node)) == Visible(d);
      if Lists(st.index, d) { InsertDeletedLists(d, node, spans); }
    } else {
      index' := Index(spans[..spanIdx] + [RunSpan(node.id, |node.text|)] + spans[spanIdx..],
                      st.index.totalLength + |node.text|);
      InsertText(d, node);
      if Lists(st.index, d) { InsertLists(d, node, spans, spanIdx); }
      if Indexes(st.index, d) { InsertIndex(d, node, spanIdx); }
    }
  }

  method ApplyInsertRun(st: DocState, node: RunNode, ghost d: Forest) returns (st': DocState)
    requires Keeps(st, d) && node.parentId in Members(d)
    ensures Keeps(st', Insert(d, node))
    // Under a deleted parent the span goes to the end of the array, which is
    // right just when no visible run follows the new one.
    ensures Indexes(st.index, d) ==> (Indexes(st'.index, Insert(d, node)) <==> Seated(d, node))
    ensures Indexes(st.index, d) && !Seated(d, node) ==>
              st'.index.spans == st.index.spans + [RunSpan(node.id, |node.text|)]
  {
    if node.id in st.nodes { return st; }
    var nodes', children' := InsertTree(st, node, d);
    var index' := InsertSpan(DocState(nodes', children', st.index), node, d);
    st' := DocState(nodes', children', index');
  }

  // ----- SPLIT

  /** The tree part of SPLIT. */
  lemma SplitHolds(st: DocState, d: Forest, id: Id, k: nat, nodes': Nodes, children': Children)
    requires Holds(st, d) && Splittable(d, id, k)
    requires nodes'.Keys == st.nodes.Keys + {SplitId(id, k)}
    requires nodes'[id] == LeftHalf(Find(d, id), k) && nodes'[SplitId(id, k)] == RightHalf(Find(d, id), k)
    requires forall x :: x in st.nodes && x != id ==>
               (nodes'[x] == if x in Roots(KidsOf(d, id)) then st.nodes[x].(parentId := SplitId(id, k))
                             else st.nodes[x])
    requires children' == st.children[SplitId(id, k) := Roots(KidsOf(d, id))][id := [SplitId(id, k)]]
    ensures Match(nodes', children', Split(d, id, k)) && Doc(Split(d, id, k))
    ensures nodes'.Keys == Members(Split(d, id, k)) == children'.Keys
  {
    MatchFind(st.nodes, st.children, d, id);
    KidsOfDistinct(d, id);
    RootsAreMembers(KidsOf(d, id));
    SplitKidsMatch(st, d, id, k, nodes', children');
    MatchReplace(st.nodes, st.children, nodes', children', d, id, LeftHalf(Find(d, id), k), SplitKids(d, id, k));
    SplitDoc(d, id, k);
  }

  lemma SplitKidsMatch(st: DocState, d: Forest, id: Id, k: nat, nodes': Nodes, children': Children)
    requires Holds(st, d) && Splittable(d, id, k)
    requires nodes'.Keys == st.nodes.Keys + {SplitId(id, k)}
    requires nodes'[SplitId(id, k)] == RightHalf(Find(d, id), k)
    requires forall x :: x in st.nodes && x != id ==>
               (nodes'[x] == if x in Roots(KidsOf(d, id)) then st.nodes[x].(parentId := SplitId(id, k))
                             else st.nodes[x])
    requires children' == st.children[SplitId(id, k) := Roots(KidsOf(d, id))][id := [SplitId(id, k)]]
    ensures Match(nodes', children', SplitKids(d, id, k))
  {
    var right, kids := SplitId(id, k), KidsOf(d, id);
    MatchFind(st.nodes, st.children, d, id);
    KidsOfDistinct(d, id);
    MatchReparent(st.nodes, st.children, nodes', children', kids, right);
    ReparentRoots(kids, right);
    SplitIdHasSeparator(id, k);
  }

  lemma {:induction false} ReparentRoots(f: Forest, to: Id)
    ensures Roots(Reparent(f, to)) == Roots(f)
  {
    if f.Cons? { ReparentRoots(f.rest, to); }
  }

  /** Points every listed child at its new parent. */
  method Redirect(nodes: Nodes, childIds: seq<Id>, parent: Id) returns (nodes': Nodes)
    requires forall x :: x in childIds ==> x in nodes
    ensures nodes'.Keys == nodes.Keys
    ensures forall x :: x in nodes ==>
              nodes'[x] == if x in childIds then nodes[x].(parentId := parent) else nodes[x]
  {
    nodes' := nodes;
    for i := 0 to |childIds|
      invariant nodes'.Keys == nodes.Keys
      invariant forall x :: x in nodes ==>
                  nodes'[x] == if x in childIds[..i] then nodes[x].(parentId := parent) else nodes[x]
    {
      var childId := childIds[i];
      assert childIds[..i + 1] == childIds[..i] + [childId];
      nodes' := nodes'[childId := nodes'[childId].(parentId := parent)];
    }
    assert childIds[..|childIds|] == childIds;
  }

  lemma SplitIndex(d: Forest, id: Id, k: nat, at: nat, spans: seq<RunSpan>)
    requires Doc(d) && Splittable(d, id, k) && !Find(d, id).deleted && id != ROOT
    requires spans == SpansOf(Visible(d)) && FirstSpan(spans, id, at)
    ensures Halve(spans, at, RunSpan(id, k), RunSpan(SplitId(id, k), |Find(d, id).text| - k))
            == SpansOf(Visible(Split(d, id, k)))
  {
    var t, pre, post := Find(d, id).text, Before(d, id), Behind(d, id);
    SpanOfRun(d, id);
    FirstUnique(spans, id, at, |pre|);
    LocatedAt(d, id);
    SplitLocated(d, id, k, t, pre, post);
    SpansReplace(pre, Piece(id, t), Piece(id, t[..k]), Piece(SplitId(id, k), t[k..]), post);
  }

  lemma FirstUnique(spans: seq<RunSpan>, id: Id, i: nat, j: nat)
    requires FirstSpan(spans, id, i) && FirstSpan(spans, id, j)
    ensures i == j
  {
  }

  lemma SpansReplace(pre: seq<Piece>, p: Piece, q: Piece, r: Piece, post: seq<Piece>)
    ensures var spans := SpansOf(pre + [p] + post);
            SpansOf(pre + [q, r] + post)
            == Halve(spans, |pre|, RunSpan(q.id, |q.text|), RunSpan(r.id, |r.text|))
  {
  }

  method ApplySplit(st: DocState, runId: Id, offset: int, ghost d: Forest) returns (st': DocState)
    requires Keeps(st, d)
    ensures Keeps(st', Split(d, runId, offset))
    ensures Indexes(st.index, d) ==> Indexes(st'.index, Split(d, runId, offset))
  {
    if runId !in st.nodes { return st; }
    MatchFind(st.nodes, st.children, d, runId);
    var node := st.nodes[runId];
    if offset <= 0 || offset >= |node.text| { return st; }
    var splitId := SplitId(runId, offset);
    if splitId in st.nodes { return st; }

    var nodes', children' := SplitTree(st, node, offset, d);
    var index' := SplitSpan(st.index, node, offset, d);
    st' := DocState(nodes', children', index');
  }

  /** The tree part of SPLIT: halve the run, hang the right half under the left, hand it the children. */
  method SplitTree(st: DocState, node: RunNode, offset: nat, ghost d: Forest) returns (nodes': Nodes, children': Children)
    requires Holds(st, d) && Splittable(d, node.id, offset) && node == Find(d, node.id)
    ensures Match(nodes', children', Split(d, node.id, offset)) && Doc(Split(d, node.id, offset))
    ensures nodes'.Keys == Members(Split(d, node.id, offset)) == children'.Keys
  {
    var splitId := SplitId(node.id, offset);
    var left := node.(text := node.text[..offset]);
    var right := RunNode(splitId, node.text[offset..], node.id, node.peerId, node.deleted);
    MatchFind(st.nodes, st.children, d, node.id);
    var originalChildren := ChildrenOf(st.children, node.id);
    children' := st.children[splitId := originalChildren][node.id := [splitId]];
    KidsOfDistinct(d, node.id);
    RootsAreMembers(KidsOf(d, node.id));
    SplitIdHasSeparator(node.id, offset);
    nodes' := Redirect(st.nodes[node.id := left][splitId := right], originalChildren, splitId);
    SplitHolds(st, d, node.id, offset, nodes', children');
  }

  /** The index part of SPLIT: one span becomes two, unless the run has none. */
  method SplitSpan(index: Index, node: RunNode, offset: nat, ghost d: Forest) returns (index': Index)
    requires Doc(d) && Splittable(d, node.id, offset) && node == Find(d, node.id) && Lists(index, d)
    ensures Lists(index', Split(d, node.id, offset))
    ensures Indexes(index, d) ==> Indexes(index', Split(d, node.id, offset))
  {
    SplitText(d, node.id, offset);
    if node.deleted {
      SplitDeleted(d, node.id, offset);
      SplitDeletedLists(d, node.id, offset, index.spans);
      return index;
    }
    var spans := HalveSpan(index.spans, node, offset, d);
    index' := Index(spans, index.totalLength);
  }

  method HalveSpan(spans: seq<RunSpan>, node: RunNode, offset: nat, ghost d: Forest) returns (spans': seq<RunSpan>)
    requires Doc(d) && Splittable(d, node.id, offset) && node == Find(d, node.id) && !node.deleted
    requires ListsRuns(spans, d)
    ensures ListsRuns(spans', Split(d, node.id, offset))
    ensures spans == SpansOf(Visible(d)) ==> spans' == SpansOf(Visible(Split(d, node.id, offset)))
  {
    ListedSpan(spans, d, node.id);
    var at := FindSpan(spans, node.id);
    spans' := Halve(spans, at, RunSpan(node.id, offset), RunSpan(SplitId(node.id, offset), |node.text| - offset));
    SplitLists(d, node.id, offset, spans, at);
    HalvedWalk(spans, d, node, offset, at, spans');
  }

  /** Two spans for one in the walk are the walk of the split tree. */
  lemma HalvedWalk(spans: seq<RunSpan>, d: Forest, node: RunNode, k: nat, at: nat, spans': seq<RunSpan>)
    requires Doc(d) && Splittable(d, node.id, k) && node == Find(d, node.id) && !node.deleted && node.id != ROOT
    requires FirstSpan(spans, node.id, at)
    requires spans' == Halve(spans, at, RunSpan(node.id, k), RunSpan(SplitId(node.id, k), |node.text| - k))
    ensures spans == SpansOf(Visible(d)) ==> spans' == SpansOf(Visible(Split(d, node.id, k)))
  {
    if spans == SpansOf(Visible(d)) { SplitIndex(d, node.id, k, at, spans); }
  }

  // ----- changing a run in place

  /** The tree part of an action that rewrites one run and keeps its children. */
  lemma InPlaceHolds(st: DocState, d: Forest, id: Id, run: RunNode)
    requires Holds(st, d) && id in Members(d) && id != ROOT
    requires run.id == id && run.parentId == Find(d, id).parentId
    ensures Holds(st.(nodes := st.nodes[id := run]), Replace(d, id, run, KidsOf(d, id)))
  {
    MatchFind(st.nodes, st.children, d, id);
    KidsOfDistinct(d, id);
    var nodes' := st.nodes[id := run];
    MatchFrame(st.nodes, st.children, nodes', st.children, KidsOf(d, id));
    MatchReplace(st.nodes, st.children, nodes', st.children, d, id, run, KidsOf(d, id));
    InPlaceDoc(d, id, run);
  }

  lemma {:induction false} WithoutConcat(a: seq<RunSpan>, b: seq<RunSpan>, id: Id)
    ensures WithoutRun(a + b, id) == WithoutRun(a, id) + WithoutRun(b, id)
  {
    if a == [] {
      assert a + b == b;
    } else {
      assert (a + b)[1..] == a[1..] + b;
      WithoutConcat(a[1..], b, id);
    }
  }

  lemma {:induction false} WithoutOther(a: seq<RunSpan>, id: Id)
    requires forall i :: 0 <= i < |a| ==> a[i].runId != id
    ensures WithoutRun(a, id) == a
  {
    if a != [] { WithoutOther(a[1..], id); }
  }

  method TombstoneRun(st: DocState, runId: Id, ghost d: Forest) returns (st': DocState)
    requires Keeps(st, d) && runId != ROOT
    ensures Keeps(st', Tombstone(d, runId))
    ensures Indexes(st.index, d) ==> Indexes(st'.index, Tombstone(d, runId))
  {
    if runId !in st.nodes { return st; }
    MatchFind(st.nodes, st.children, d, runId);
    var node := st.nodes[runId];
    if node.deleted { return st; }
    InPlaceHolds(st, d, runId, node.(deleted := true));
    TombstoneIndex(d, runId);
    TombstoneLists(d, runId, st.index.spans);
    st' := DocState(st.nodes[runId := node.(deleted := true)], st.children,
                    Index(WithoutRun(st.index.spans, runId), st.index.totalLength - |node.text|));
  }

  lemma TombstoneIndex(d: Forest, id: Id)
    requires Doc(d) && id in Members(d) && id != ROOT && !Find(d, id).deleted
    ensures WithoutRun(SpansOf(Visible(d)), id) == SpansOf(Visible(Tombstone(d, id)))
    ensures |Text(Tombstone(d, id))| == |Text(d)| - |Find(d, id).text|
  {
    var t, pre, post := Find(d, id).text, Before(d, id), Behind(d, id);
    LocatedAt(d, id);
    TombstoneLocated(d, id, t, pre, post);
    AroundIsOther(d, id);
    WithoutLocated(pre, id, t, post);
    TextAround(d, id, t, pre, post);
    JoinConcat(pre, post);
  }

  lemma WithoutLocated(pre: seq<Piece>, id: Id, t: string, post: seq<Piece>)
    requires forall p :: p in pre || p in post ==> p.id != id
    ensures WithoutRun(SpansOf(pre + [Piece(id, t)] + post), id) == SpansOf(pre + post)
  {
    var a, x, b := SpansOf(pre), RunSpan(id, |t|), SpansOf(post);
    SpansAround(pre, Piece(id, t), post);
    SpansConcat(pre, post);
    forall i | 0 <= i < |a| ensures a[i].runId != id { assert pre[i] in pre; }
    forall i | 0 <= i < |b| ensures b[i].runId != id { assert post[i] in post; }
    WithoutMiddle(a, x, b);
  }

  lemma SpansAround(pre: seq<Piece>, p: Piece, post: seq<Piece>)
    ensures SpansOf(pre + [p] + post) == SpansOf(pre) + [RunSpan(p.id, |p.text|)] + SpansOf(post)
  {
  }

  lemma WithoutMiddle(a: seq<RunSpan>, x: RunSpan, b: seq<RunSpan>)
    requires forall i :: 0 <= i < |a| ==> a[i].runId != x.runId
    requires forall i :: 0 <= i < |b| ==> b[i].runId != x.runId
    ensures WithoutRun(a + [x] + b, x.runId) == a + b
  {
    WithoutConcat(a + [x], b, x.runId);
    WithoutConcat(a, [x], x.runId);
    WithoutSelf(x);
    WithoutOther(a, x.runId);
    WithoutOther(b, x.runId);
    assert a + [] == a;
  }

  lemma WithoutSelf(span: RunSpan)
    ensures WithoutRun([span], span.runId) == []
  {
    assert [span][1..] == [];
  }

  method ApplyExtendRun(st: DocState, runId: Id, appendText: string, ghost d: Forest) returns (st': DocState)
    requires Keeps(st, d) && runId != ROOT
    ensures Keeps(st', Extend(d, runId, appendText))
    ensures Indexes(st.index, d) ==> Indexes(st'.index, Extend(d, runId, appendText))
  {
    if runId !in st.nodes { return st; }
    MatchFind(st.nodes, st.children, d, runId);
    var node := st.nodes[runId];
    if node.deleted { return st; }
    InPlaceHolds(st, d, runId, node.(text := node.text + appendText));
    ExtendIndex(d, runId, appendText);
    ExtendLists(d, runId, appendText, st.index.spans);
    st' := DocState(st.nodes[runId := node.(text := node.text + appendText)], st.children,
                    Index(Lengthen(st.index.spans, runId, |appendText|), st.index.totalLength + |appendText|));
  }

  lemma ExtendIndex(d: Forest, id: Id, more: string)
    requires Doc(d) && id in Members(d) && id != ROOT && !Find(d, id).deleted
    ensures Lengthen(SpansOf(Visible(d)), id, |more|) == SpansOf(Visible(Extend(d, id, more)))
    ensures |Text(Extend(d, id, more))| == |Text(d)| + |more|
  {
    var t, pre, post := Find(d, id).text, Before(d, id), Behind(d, id);
    LocatedAt(d, id);
    ExtendLocated(d, id, more, t, pre, post);
    AroundIsOther(d, id);
    TextAround(d, id, t, pre, post);
    LengthenLocated(pre, id, t, more, post);
  }

  lemma LengthenLocated(pre: seq<Piece>, id: Id, t: string, more: string, post: seq<Piece>)
    requires forall p :: p in pre || p in post ==> p.id != id
    ensures Lengthen(SpansOf(pre + [Piece(id, t)] + post), id, |more|)
            == SpansOf(pre + [Piece(id, t + more)] + post)
  {
    var walk := pre + [Piece(id, t)] + post;
    assert forall i :: 0 <= i < |pre| ==> walk[i] in pre;
    assert forall i :: |pre| < i < |walk| ==> walk[i] in post;
  }

  // ----- DELETE_RANGE

  method ApplyDeleteRange(st: DocState, runId: Id, offset: int, count: int, ghost d: Forest) returns (st': DocState)
    requires Keeps(st, d)
    ensures Keeps(st', DeleteRange(d, runId, offset, count))
    ensures Indexes(st.index, d) ==> Indexes(st'.index, DeleteRange(d, runId, offset, count))
  {
    if runId !in st.nodes { return st; }
    MatchFind(st.nodes, st.children, d, runId);
    var node := st.nodes[runId];
    if node.deleted { return st; }
    var textLen := |node.text|;
    if offset < 0 || count <= 0 || offset + count > textLen { return st; }
    assert Deletable(d, runId, offset, count);
    if offset == 0 && count == textLen {
      st' := TombstoneRun(st, runId, d);
    } else if offset == 0 {
      st' := ApplySplit(st, runId, count, d);
      st' := TombstoneRun(st', runId, Split(d, runId, count));
    } else {
      var rightId := SplitId(runId, offset);
      SplitIdHasSeparator(runId, offset);
      st' := ApplySplit(st, runId, offset, d);
      if offset + count == textLen {
        st' := TombstoneRun(st', rightId, Split(d, runId, offset));
      } else {
        st' := ApplySplit(st', rightId, count, Split(d, runId, offset));
        st' := TombstoneRun(st', rightId, Split(Split(d, runId, offset), rightId, count));
      }
    }
  }

  // ----- document position of a new run

  function TotalWithin(spans: seq<RunSpan>, ids: set<Id>): nat
  {
    if spans == [] then 0
    else (if spans[0].runId in ids then spans[0].length else 0) + TotalWithin(spans[1..], ids)
  }

  lemma {:induction false} WithinConcat(a: seq<RunSpan>, b: seq<RunSpan>, ids: set<Id>)
    ensures TotalWithin(a + b, ids) == TotalWithin(a, ids) + TotalWithin(b, ids)
  {
    if a == [] {
      assert a + b == b;
    } else {
      assert (a + b)[1..] == a[1..] + b;
      WithinConcat(a[1..], b, ids);
    }
  }

  lemma {:induction false} WithinAllOrNone(a: seq<RunSpan>, ids: set<Id>)
    ensures (forall i :: 0 <= i < |a| ==> a[i].runId in ids) ==> TotalWithin(a, ids) == Total(a)
    ensures (forall i :: 0 <= i < |a| ==> a[i].runId !in ids) ==> TotalWithin(a, ids) == 0
  {
    if a != [] { WithinAllOrNone(a[1..], ids); }
  }

  /** Spans of the ids, between spans that are not. */
  lemma WithinMiddle(a: seq<RunSpan>, m: seq<RunSpan>, b: seq<RunSpan>, ids: set<Id>)
    requires forall i :: 0 <= i < |a| ==> a[i].runId !in ids
    requires forall i :: 0 <= i < |m| ==> m[i].runId in ids
    requires forall i :: 0 <= i < |b| ==> b[i].runId !in ids
    ensures TotalWithin(a + m + b, ids) == Total(m)
  {
    WithinConcat(a + m, b, ids);
    WithinConcat(a, m, ids);
    WithinAllOrNone(a, ids);
    WithinAllOrNone(m, ids);
    WithinAllOrNone(b, ids);
  }

  lemma SpansOfThree(a: seq<Piece>, m: seq<Piece>, b: seq<Piece>)
    ensures SpansOf(a + m + b) == SpansOf(a) + SpansOf(m) + SpansOf(b)
  {
    SpansConcat(a + m, b);
    SpansConcat(a, m);
  }

  /** The spans of one subtree add up to the length of its text. */
  lemma WithinSubtree(d: Forest, id: Id)
    requires Doc(d) && id in Members(d)
    ensures TotalWithin(SpansOf(Visible(d)), {id} + Members(KidsOf(d, id)))
            == |Join(Subtree(Find(d, id), KidsOf(d, id)))|
  {
    var ids, tree := {id} + Members(KidsOf(d, id)), Subtree(Find(d, id), KidsOf(d, id));
    var pre, post := Before(d, id), After(d, id);
    VisibleAround(d, id);
    AroundIsOutside(d, id);
    forall i | 0 <= i < |pre| ensures pre[i].id !in ids { assert pre[i] in pre; }
    forall i | 0 <= i < |post| ensures post[i].id !in ids { assert post[i] in post; }
    SubtreeIds(Cons(Find(d, id), KidsOf(d, id), Nil));
    SpansOfThree(pre, tree, post);
    WithinMiddle(SpansOf(pre), SpansOf(tree), SpansOf(post), ids);
    TotalIsTextLength(tree);
  }

  /** Visible characters of a subtree, summed over the span array. */
  method SubtreeVisibleLength(st: DocState, rootId: Id, ghost d: Forest) returns (total: nat)
    requires Holds(st, d) && rootId in Members(d)
    ensures Indexes(st.index, d) ==> total == |Join(Subtree(Find(d, rootId), KidsOf(d, rootId)))|
  {
    MatchFind(st.nodes, st.children, d, rootId);
    var ids := CollectSubtreeIds(st.children, rootId, st.nodes, Cons(Find(d, rootId), KidsOf(d, rootId), Nil));
    var spans := st.index.spans;
    total := 0;
    for i := 0 to |spans|
      invariant total == TotalWithin(spans[..i], ids)
    {
      assert spans[..i + 1] == spans[..i] + [spans[i]];
      WithinConcat(spans[..i], [spans[i]], ids);
      if spans[i].runId in ids { total := total + spans[i].length; }
    }
    assert spans[..|spans|] == spans;
    WithinSubtree(d, rootId);
  }

  /** Whether the base position behind a parent can be read off the index. */
  ghost predicate Placeable(d: Forest, parent: Id)
  {
    Anchored(d, parent) && (parent == ROOT || Find(d, parent).text != "")
  }

  /** Document position right behind a parent's own characters, if it has any. */
  method BasePosition(st: DocState, parentId: Id, ghost d: Forest) returns (base: Option<int>)
    requires Keeps(st, d)
    ensures base.Some? <==> Placeable(d, parentId)
    ensures Indexes(st.index, d) && base.Some? ==>
              base.value == |Join(Before(d, parentId) + Own(Find(d, parentId)))|
  {
    if parentId == ROOT {
      assert Before(d, ROOT) + Own(Find(d, ROOT)) == [];
      return Some(0);
    }
    var parentPos := PositionIn(st.index, parentId, 0, d);
    if parentPos.None? { return None; }
    var at := FindSpan(st.index.spans, parentId);
    base := Some(parentPos.value + if at == -1 then 0 else st.index.spans[at].length);
    SpanOfRun(d, parentId);
    JoinConcat(Before(d, parentId), Own(Find(d, parentId)));
    JoinOne(Piece(parentId, Find(d, parentId).text));
  }

  /** Every run of a chain is found in the document as in the chain. */
  ghost predicate Within(d: Forest, g: Forest)
  {
    && Distinct(g)
    && forall x :: x in Members(g) ==> x in Members(d) && Find(d, x) == Find(g, x) && KidsOf(d, x) == KidsOf(g, x)
  }

  lemma ChainWithin(d: Forest, p: Id)
    requires Doc(d) && p in Members(d)
    ensures Within(d, KidsOf(d, p))
  {
    KidsOfDistinct(d, p);
    forall x | x in Members(KidsOf(d, p))
      ensures Find(d, x) == Find(KidsOf(d, p), x) && KidsOf(d, x) == KidsOf(KidsOf(d, p), x)
    {
      InnerFind(d, p, x);
    }
  }

  lemma RestWithin(d: Forest, g: Forest)
    requires g.Cons? && Within(d, g)
    ensures g.run.id in Members(d) && Find(d, g.run.id) == g.run && KidsOf(d, g.run.id) == g.kids
    ensures Within(d, g.rest)
  {
    assert g.run.id in Members(g);
    forall x | x in Members(g.rest) ensures Find(g, x) == Find(g.rest, x) && KidsOf(g, x) == KidsOf(g.rest, x) {
    }
  }

  /** Characters in the subtrees of the siblings that precede a new run. */
  method LengthBefore(st: DocState, siblings: seq<Id>, insertIdx: nat, id: Id, ghost kids: Forest, ghost d: Forest)
    returns (total: nat)
    requires Holds(st, d) && Within(d, kids) && siblings == Roots(kids) && insertIdx <= |siblings|
    requires forall j :: 0 <= j < insertIdx ==> !Less(siblings[j], id)
    requires insertIdx < |siblings| ==> Less(siblings[insertIdx], id)
    ensures Indexes(st.index, d) ==> total == |Join(AttachBefore(kids, id))|
  {
    var i := 0;
    ghost var g := kids;
    total := 0;
    while i < insertIdx
      invariant i <= insertIdx && siblings[i..] == Roots(g) && Within(d, g)
      invariant Indexes(st.index, d) ==> total + |Join(AttachBefore(g, id))| == |Join(AttachBefore(kids, id))|
    {
      assert siblings[i] == siblings[i..][0];
      RestWithin(d, g);
      var step := SubtreeVisibleLength(st, siblings[i], d);
      JoinConcat(Subtree(g.run, g.kids), AttachBefore(g.rest, id));
      assert siblings[i + 1..] == siblings[i..][1..];
      total := total + step;
      g := g.rest;
      i := i + 1;
    }
    assert i < |siblings| ==> siblings[i] == siblings[i..][0];
  }

  /** Document position where a new run will appear; 0 when the parent has no place in the index. */
  method FindInsertPosition(st: DocState, parentId: Id, newNodeId: Id, ghost d: Forest) returns (pos: int)
    requires Keeps(st, d)
    ensures Indexes(st.index, d) ==>
              pos == if Placeable(d, parentId) then |Join(InsertPrefix(d, parentId, newNodeId))| else 0
  {
    var siblings := ChildrenOf(st.children, parentId);
    var insertIdx := InsertionIndex(siblings, newNodeId);
    var base := BasePosition(st, parentId, d);
    if base.None? { return 0; }
    MatchFind(st.nodes, st.children, d, parentId);
    ChainWithin(d, parentId);
    var before := LengthBefore(st, siblings, insertIdx, newNodeId, KidsOf(d, parentId), d);
    pos := base.value + before;
    JoinConcat(Before(d, parentId) + Own(Find(d, parentId)), AttachBefore(KidsOf(d, parentId), newNodeId));
  }

  // ----- the reducer

  /** The tree an action leaves. */
  function Reduce(d: Forest, action: DocAction): Forest
    requires action.INSERT_RUN? ==> action.node.parentId in Members(d)
  {
    match action
    case INSERT_RUN(node) => Insert(d, node)
    case DELETE_RANGE(runId, offset, count) => DeleteRange(d, runId, offset, count)
    case SPLIT(runId, offset) => Split(d, runId, offset)
    case EXTEND_RUN(runId, text) => Extend(d, runId, text)
  }

  /** What the tree needs of an action: a parent that is there, and no text for ROOT. */
  ghost predicate Sound(d: Forest, action: DocAction)
  {
    match action
    case INSERT_RUN(node) => node.parentId in Members(d)
    case EXTEND_RUN(runId, text) => runId != ROOT
    case _ => true
  }

  /** What the index needs besides: a seat for a new run. */
  ghost predicate Applicable(d: Forest, action: DocAction)
  {
    Sound(d, action) && (action.INSERT_RUN? ==> Seated(d, action.node))
  }

  method DocReducer(st: DocState, action: DocAction, ghost d: Forest) returns (st': DocState)
    requires Keeps(st, d) && Sound(d, action)
    ensures Keeps(st', Reduce(d, action))
    ensures Indexes(st.index, d) ==> (Indexes(st'.index, Reduce(d, action)) <==> Applicable(d, action))
  {
    match action
    case INSERT_RUN(node) => st' := ApplyInsertRun(st, node, d);
    case SPLIT(runId, offset) => st' := ApplySplit(st, runId, offset, d);
    case DELETE_RANGE(runId, offset, count) => st' := ApplyDeleteRange(st, runId, offset, count, d);
    case EXTEND_RUN(runId, text) => st' := ApplyExtendRun(st, runId, text, d);
  }

  method CreateDocState() returns (st: DocState)
    ensures Repr(st, EMPTY)
  {
    st := DocState(map[ROOT := ROOT_NODE], map[ROOT := []], Index([], 0));
    IndexesLists(st.index, EMPTY);
  }

  /** Every action of a list is sound where it is applied. */
  ghost predicate AllSound(d: Forest, actions: seq<DocAction>)
    decreases |actions|
  {
    actions != [] ==> Sound(d, actions[0]) && AllSound(Reduce(d, actions[0]), actions[1..])
  }

  /** Every action of a list meets the demands of the index where it is applied. */
  ghost predicate AllApplicable(d: Forest, actions: seq<DocAction>)
    decreases |actions|
  {
    actions != [] ==> Applicable(d, actions[0]) && AllApplicable(Reduce(d, actions[0]), actions[1..])
  }

  ghost function ReduceAll(d: Forest, actions: seq<DocAction>): Forest
    requires AllSound(d, actions)
    decreases |actions|
  {
    if actions == [] then d else ReduceAll(Reduce(d, actions[0]), actions[1..])
  }

  /**
   * Every reachable state: the maps hold one tree, with each run reached once
   * and siblings descending; the depth-first visit gives its text, of the
   * indexed length; and the spans are its visible runs with their lengths, once
   * each.  As long as every insert finds its seat, the spans stand in depth-first
   * order.
   */
  method Replay(actions: seq<DocAction>) returns (st: DocState, text: string)
    requires AllSound(EMPTY, actions)
    ensures Keeps(st, ReduceAll(EMPTY, actions))
    ensures text == Text(ReduceAll(EMPTY, actions)) && st.index.totalLength == |text|
    ensures AllApplicable(EMPTY, actions) ==> Indexes(st.index, ReduceAll(EMPTY, actions))
  {
    ghost var d := EMPTY;
    st := CreateDocState();
    var i := 0;
    assert actions[0..] == actions;
    while i < |actions|
      invariant i <= |actions| && Keeps(st, d)
      invariant AllSound(d, actions[i..])
      invariant ReduceAll(d, actions[i..]) == ReduceAll(EMPTY, actions)
      invariant AllApplicable(EMPTY, actions) ==> Indexes(st.index, d) && AllApplicable(d, actions[i..])
    {
      assert actions[i..][1..] == actions[i + 1..];
      st := DocReducer(st, actions[i], d);
      d := Reduce(d, actions[i]);
      i := i + 1;
    }
    text := Reconstruct(st, d);
  }
}
