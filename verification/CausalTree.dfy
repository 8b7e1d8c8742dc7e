/**
 * The document state as it is stored: two maps and a span array.  Each reducer
 * action is the code's own sequence of map and array updates, proved to leave
 * exactly the maps and the span array of the tree the action stands for.  No
 * action walks the whole tree; the ghost forest says which tree is meant.
 */
module CausalTree {
  import opened Ids
  import opened RunForest
  import opened RunEffects
  import opened PositionIndex

  type Nodes = map<Id, RunNode>
  type Children = map<Id, seq<Id>>

  datatype DocState = DocState(nodes: Nodes, children: Children, index: Index)

  datatype DocAction =
    | INSERT_RUN(node: RunNode)
    | DELETE_RANGE(runId: Id, offset: int, count: int)
    | SPLIT(runId: Id, offset: int)
    | EXTEND_RUN(runId: Id, appendText: string)

  /** The maps hold every run of a forest with its chain of children. */
  ghost predicate Match(nodes: Nodes, children: Children, f: Forest)
  {
    match f
    case Nil => true
    case Cons(run, kids, rest) =>
      && run.id in nodes && nodes[run.id] == run
      && run.id in children && children[run.id] == Roots(kids)
      && Match(nodes, children, kids) && Match(nodes, children, rest)
  }

  /** The maps hold a document and nothing else. */
  ghost predicate Holds(st: DocState, d: Forest)
  {
    Doc(d) && Match(st.nodes, st.children, d) && st.nodes.Keys == Members(d) && st.children.Keys == Members(d)
  }

  /** The maps hold a document, and the index lists its visible runs. */
  ghost predicate Keeps(st: DocState, d: Forest)
  {
    Holds(st, d) && Lists(st.index, d)
  }

  /** The state is a document together with its exact index. */
  ghost predicate Repr(st: DocState, d: Forest)
  {
    Keeps(st, d) && Indexes(st.index, d)
  }

  // ----- reading a run back from the maps

  /** Two maps agree on the given keys, where the first is defined. */
  ghost predicate Agree<V(!new)>(m: map<Id, V>, m': map<Id, V>, xs: set<Id>)
  {
    forall x :: x in xs && x in m ==> x in m' && m'[x] == m[x]
  }

  lemma {:induction false} MatchFind(nodes: Nodes, children: Children, f: Forest, x: Id)
    requires Match(nodes, children, f) && x in Members(f)
    ensures x in nodes && nodes[x] == Find(f, x)
    ensures x in children && children[x] == Roots(KidsOf(f, x))
    ensures Match(nodes, children, KidsOf(f, x))
  {
    if f.run.id != x {
      MatchFind(nodes, children, if x in Members(f.kids) then f.kids else f.rest, x);
    }
  }

  lemma {:induction false} MatchFrame(nodes: Nodes, children: Children, nodes': Nodes, children': Children, f: Forest)
    requires Match(nodes, children, f)
    requires Agree(nodes, nodes', Members(f)) && Agree(children, children', Members(f))
    ensures Match(nodes', children', f)
  {
    match f
    case Nil =>
    case Cons(run, kids, rest) =>
      MatchFrame(nodes, children, nodes', children', kids);
      MatchFrame(nodes, children, nodes', children', rest);
  }

  /** Updating the maps at one run and its chain matches replacing it in the forest. */
  lemma {:induction false} MatchReplace(nodes: Nodes, children: Children, nodes': Nodes, children': Children,
                                        f: Forest, id: Id, run: RunNode, kids: Forest)
    requires Match(nodes, children, f) && Distinct(f) && id in Members(f) && run.id == id
    requires Agree(nodes, nodes', Outside(f, id)) && Agree(children, children', Outside(f, id))
    requires id in nodes' && nodes'[id] == run && id in children' && children'[id] == Roots(kids)
    requires Match(nodes', children', kids)
    ensures Match(nodes', children', Replace(f, id, run, kids))
  {
    if f.run.id == id {
      MatchFrame(nodes, children, nodes', children', f.rest);
    } else if id in Members(f.kids) {
      MatchReplace(nodes, children, nodes', children', f.kids, id, run, kids);
      MatchFrame(nodes, children, nodes', children', f.rest);
      ReplaceMembers(f.kids, id, run, kids);
    } else {
      MatchReplace(nodes, children, nodes', children', f.rest, id, run, kids);
      MatchFrame(nodes, children, nodes', children', f.kids);
    }
  }

  /** Redirecting the parent of every root of a chain, and nothing else, reparents the chain. */
  lemma {:induction false} MatchReparent(nodes: Nodes, children: Children, nodes': Nodes, children': Children,
                                         f: Forest, to: Id)
    requires Match(nodes, children, f) && Distinct(f)
    requires forall x :: x in Members(f) && x in nodes ==>
               (x in nodes' && nodes'[x] == if x in Roots(f) then nodes[x].(parentId := to) else nodes[x])
    requires Agree(children, children', Members(f))
    ensures Match(nodes', children', Reparent(f, to))
  {
    if f.Cons? {
      RootsAreMembers(f.rest);
      MatchFrame(nodes, children, nodes', children', f.kids);
      MatchReparent(nodes, children, nodes', children', f.rest, to);
    }
  }

  function ChildrenOf(children: Children, id: Id): seq<Id>
  {
    if id in children then children[id] else []
  }

  // ----- depth-first text

  function Size(f: Forest): nat
  {
    match f
    case Nil => 0
    case Cons(run, kids, rest) => 1 + Size(kids) + Size(rest)
  }

  /** Visits a run and then its children in order, collecting the visible text. */
  method Dfs(st: DocState, nodeId: Id, acc: string, ghost g: Forest) returns (out: string)
    requires g.Cons? && g.run.id == nodeId && Match(st.nodes, st.children, g)
    ensures out == acc + Join(Subtree(g.run, g.kids))
    decreases Size(g)
  {
    var node := st.nodes[nodeId];
    out := acc;
    if !node.deleted && node.id != ROOT {
      out := out + node.text;
    }
    JoinRun(acc, g.run, g.kids);
    var childIds, i := ChildrenOf(st.children, nodeId), 0;
    ghost var c, goal := g.kids, acc + Join(Subtree(g.run, g.kids));
    while i < |childIds|
      invariant 0 <= i <= |childIds| && childIds[i..] == Roots(c)
      invariant Match(st.nodes, st.children, c) && Size(c) < Size(g)
      invariant out + Join(Visible(c)) == goal
    {
      assert childIds[i] == Roots(c)[0];
      JoinChain(out, c);
      out := Dfs(st, childIds[i], out, c);
      assert childIds[i + 1..] == childIds[i..][1..];
      c := c.rest;
      i := i + 1;
    }
  }

  lemma JoinRun(acc: string, run: RunNode, kids: Forest)
    ensures acc + Join(Subtree(run, kids))
            == (if !run.deleted && run.id != ROOT then acc + run.text else acc) + Join(Visible(kids))
  {
    JoinConcat(Own(run), Visible(kids));
    JoinOne(Piece(run.id, run.text));
  }

  lemma JoinChain(acc: string, c: Forest)
    requires c.Cons?
    ensures acc + Join(Visible(c)) == acc + Join(Subtree(c.run, c.kids)) + Join(Visible(c.rest))
  {
    JoinConcat(Subtree(c.run, c.kids), Visible(c.rest));
  }

  /** The visible document string. */
  method Reconstruct(st: DocState, ghost d: Forest) returns (text: string)
    requires Holds(st, d)
    ensures text == Text(d)
  {
    text := Dfs(st, ROOT, "", d);
    assert Subtree(d.run, d.kids) == Visible(d);
  }

  // ----- subtrees through the children map

  function Append(f: Forest, g: Forest): Forest
  {
    match f
    case Nil => g
    case Cons(run, kids, rest) => Cons(run, kids, Append(rest, g))
  }

  lemma {:induction false} AppendShape(f: Forest, g: Forest)
    ensures Members(Append(f, g)) == Members(f) + Members(g)
    ensures Roots(Append(f, g)) == Roots(f) + Roots(g)
    ensures Size(Append(f, g)) == Size(f) + Size(g)
  {
    if f.Cons? { AppendShape(f.rest, g); }
  }

  lemma {:induction false} AppendMatch(nodes: Nodes, children: Children, f: Forest, g: Forest)
    requires Match(nodes, children, f) && Match(nodes, children, g)
    ensures Match(nodes, children, Append(f, g))
  {
    if f.Cons? { AppendMatch(nodes, children, f.rest, g); }
  }

  function Reverse(s: seq<Id>): (r: seq<Id>)
    ensures |r| == |s|
  {
    if s == [] then [] else Reverse(s[1..]) + [s[0]]
  }

  lemma {:induction false} ReverseConcat(a: seq<Id>, b: seq<Id>)
    ensures Reverse(a + b) == Reverse(b) + Reverse(a)
  {
    if a == [] {
      assert a + b == b;
    } else {
      assert (a + b)[1..] == a[1..] + b;
      ReverseConcat(a[1..], b);
    }
  }

  ghost function TreeIds(f: Forest): set<Id>
    requires f.Cons?
  {
    {f.run.id} + Members(f.kids)
  }

  /** Pushes the children of a run so that the first is popped first. */
  method PushChildren(stack: seq<Id>, childIds: seq<Id>) returns (stack': seq<Id>)
    ensures stack' == stack + Reverse(childIds)
  {
    stack' := stack;
    var i := |childIds|;
    while i > 0
      invariant 0 <= i <= |childIds|
      invariant stack' == stack + Reverse(childIds[i..])
    {
      i := i - 1;
      assert childIds[i..] == [childIds[i]] + childIds[i + 1..];
      stack' := stack' + [childIds[i]];
    }
    assert childIds[0..] == childIds;
  }

  /** A stack holds the roots of what is still to be collected, the next one last. */
  ghost predicate Stacked(stack: seq<Id>, todo: Forest, nodes: Nodes, children: Children)
  {
    stack == Reverse(Roots(todo)) && Match(nodes, children, todo)
  }

  lemma PopAndPush(stack: seq<Id>, todo: Forest, nodes: Nodes, children: Children)
    requires Stacked(stack, todo, nodes, children) && stack != []
    ensures todo.Cons? && stack[|stack| - 1] == todo.run.id && ChildrenOf(children, todo.run.id) == Roots(todo.kids)
    ensures Stacked(stack[..|stack| - 1] + Reverse(Roots(todo.kids)), Append(todo.kids, todo.rest), nodes, children)
  {
    assert stack[..|stack| - 1] == Reverse(Roots(todo.rest));
    ReverseConcat(Roots(todo.kids), Roots(todo.rest));
    AppendShape(todo.kids, todo.rest);
    AppendMatch(nodes, children, todo.kids, todo.rest);
  }

  /** All ids of a run and its descendants, collected with an explicit stack. */
  method CollectSubtreeIds(children: Children, rootId: Id, ghost nodes: Nodes, ghost g: Forest)
    returns (result: set<Id>)
    requires g.Cons? && g.run.id == rootId && Match(nodes, children, g)
    ensures result == TreeIds(g)
  {
    result := {};
    var stack := [rootId];
    ghost var todo := Cons(g.run, g.kids, Nil);
    while |stack| > 0
      invariant Stacked(stack, todo, nodes, children)
      invariant result + Members(todo) == TreeIds(g)
      decreases Size(todo)
    {
      PopAndPush(stack, todo, nodes, children);
      AppendShape(todo.kids, todo.rest);
      var id := stack[|stack| - 1];
      result := result + {id};
      stack := PushChildren(stack[..|stack| - 1], ChildrenOf(children, id));
      todo := Append(todo.kids, todo.rest);
    }
    assert todo.Nil?;
  }
}
