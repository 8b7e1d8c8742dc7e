/**
 * The tree of runs as a value: what the maps and the span array of a document
 * state stand for.  A sibling chain is a list, and each run carries the chain
 * of its children, so depth-first order is plain structural recursion.
 */
module RunForest {
  import opened Ids

  /** A stretch of text written by one peer, hanging from the run it was written behind. */
  datatype RunNode = RunNode(id: Id, text: string, parentId: Id, peerId: string, deleted: bool)

  const ROOT_NODE: RunNode := RunNode(ROOT, "", "", "", false)

  datatype Forest = Nil | Cons(run: RunNode, kids: Forest, rest: Forest)

  /** A visible run as the depth-first walk meets it. */
  datatype Piece = Piece(id: Id, text: string)

  function Members(f: Forest): set<Id>
  {
    match f
    case Nil => {}
    case Cons(run, kids, rest) => {run.id} + Members(kids) + Members(rest)
  }

  /** Ids of the siblings of a chain, in order. */
  function Roots(f: Forest): seq<Id>
  {
    match f
    case Nil => []
    case Cons(run, kids, rest) => [run.id] + Roots(rest)
  }

  /** Every run is reached exactly once. */
  predicate Distinct(f: Forest)
  {
    match f
    case Nil => true
    case Cons(run, kids, rest) =>
      && run.id !in Members(kids) && run.id !in Members(rest)
      && Members(kids) !! Members(rest)
      && Distinct(kids) && Distinct(rest)
  }

  /** Every run names the run it hangs from. */
  predicate Parented(f: Forest, parent: Id)
  {
    match f
    case Nil => true
    case Cons(run, kids, rest) =>
      run.parentId == parent && Parented(kids, run.id) && Parented(rest, parent)
  }

  /** Sibling chains are strictly descending. */
  predicate Sorted(f: Forest)
  {
    match f
    case Nil => true
    case Cons(run, kids, rest) =>
      (rest.Cons? ==> Less(rest.run.id, run.id)) && Sorted(kids) && Sorted(rest)
  }

  /** What the depth-first visitor emits for one run. */
  function Own(run: RunNode): seq<Piece>
  {
    if run.deleted || run.id == ROOT then [] else [Piece(run.id, run.text)]
  }

  /** Visible runs in depth-first order. */
  function Visible(f: Forest): seq<Piece>
  {
    match f
    case Nil => []
    case Cons(run, kids, rest) => Own(run) + Visible(kids) + Visible(rest)
  }

  /** Visible runs of one run and its descendants. */
  function Subtree(run: RunNode, kids: Forest): seq<Piece>
  {
    Own(run) + Visible(kids)
  }

  /** The text of a walk from its `i`-th piece on. */
  function JoinFrom(ps: seq<Piece>, i: nat): string
    decreases |ps| - i
  {
    if i >= |ps| then "" else ps[i].text + JoinFrom(ps, i + 1)
  }

  function Join(ps: seq<Piece>): string
  {
    JoinFrom(ps, 0)
  }

  /** The visible document. */
  function Text(f: Forest): string
  {
    Join(Visible(f))
  }

  lemma {:induction false} JoinBehind(a: seq<Piece>, b: seq<Piece>, i: nat)
    ensures JoinFrom(a + b, |a| + i) == JoinFrom(b, i)
    decreases |b| - i
  {
    if i < |b| { JoinBehind(a, b, i + 1); }
  }

  lemma {:induction false} JoinAhead(a: seq<Piece>, b: seq<Piece>, i: nat)
    requires i <= |a|
    ensures JoinFrom(a + b, i) == JoinFrom(a, i) + Join(b)
    decreases |a| - i
  {
    if i < |a| {
      JoinAhead(a, b, i + 1);
    } else {
      JoinBehind(a, b, 0);
    }
  }

  lemma JoinConcat(a: seq<Piece>, b: seq<Piece>)
    ensures Join(a + b) == Join(a) + Join(b)
  {
    JoinAhead(a, b, 0);
  }

  /** The visible pieces of a forest name its members. */
  lemma {:induction false} VisibleMembers(f: Forest)
    ensures forall p :: p in Visible(f) ==> p.id in Members(f) && p.id != ROOT
  {
    match f
    case Nil =>
    case Cons(run, kids, rest) =>
      VisibleMembers(kids);
      VisibleMembers(rest);
  }

  lemma {:induction false} RootsAreMembers(f: Forest)
    ensures forall x :: x in Roots(f) ==> x in Members(f)
  {
    match f
    case Nil =>
    case Cons(run, kids, rest) => RootsAreMembers(rest);
  }

  // ----- one run inside a forest

  function Find(f: Forest, id: Id): (run: RunNode)
    requires id in Members(f)
    ensures run.id == id
  {
    if f.run.id == id then f.run
    else if id in Members(f.kids) then Find(f.kids, id)
    else Find(f.rest, id)
  }

  /** The chain of children of a run. */
  function KidsOf(f: Forest, id: Id): (kids: Forest)
    requires id in Members(f)
    ensures Members(kids) <= Members(f)
  {
    if f.run.id == id then f.kids
    else if id in Members(f.kids) then KidsOf(f.kids, id)
    else KidsOf(f.rest, id)
  }

  /** Visible pieces met before a run. */
  function Before(f: Forest, id: Id): seq<Piece>
    requires id in Members(f)
  {
    if f.run.id == id then []
    else if id in Members(f.kids) then Own(f.run) + Before(f.kids, id)
    else Subtree(f.run, f.kids) + Before(f.rest, id)
  }

  /** Visible pieces met after a run and all its descendants. */
  function After(f: Forest, id: Id): seq<Piece>
    requires id in Members(f)
  {
    if f.run.id == id then Visible(f.rest)
    else if id in Members(f.kids) then After(f.kids, id) + Visible(f.rest)
    else After(f.rest, id)
  }

  /** The members that are neither a run nor one of its descendants. */
  function Outside(f: Forest, id: Id): set<Id>
    requires id in Members(f)
  {
    Members(f) - {id} - Members(KidsOf(f, id))
  }

  /** Puts another run and another chain of children in place of a run. */
  function Replace(f: Forest, id: Id, run: RunNode, kids: Forest): (g: Forest)
    requires id in Members(f)
  {
    if f.run.id == id then Cons(run, kids, f.rest)
    else if id in Members(f.kids) then f.(kids := Replace(f.kids, id, run, kids))
    else f.(rest := Replace(f.rest, id, run, kids))
  }

  lemma {:induction false} ReplaceHasRun(f: Forest, id: Id, run: RunNode, kids: Forest)
    requires id in Members(f)
    ensures run.id in Members(Replace(f, id, run, kids))
  {
    if f.run.id != id {
      ReplaceHasRun(if id in Members(f.kids) then f.kids else f.rest, id, run, kids);
    }
  }

  lemma {:induction false} KidsOfDistinct(f: Forest, id: Id)
    requires id in Members(f) && Distinct(f)
    ensures Distinct(KidsOf(f, id)) && id !in Members(KidsOf(f, id))
  {
    if f.run.id != id {
      KidsOfDistinct(if id in Members(f.kids) then f.kids else f.rest, id);
    }
  }

  lemma {:induction false} KidsOfOrdered(f: Forest, id: Id, parent: Id)
    requires id in Members(f) && Parented(f, parent) && Sorted(f)
    ensures Parented(KidsOf(f, id), id) && Sorted(KidsOf(f, id))
  {
    if f.run.id != id {
      if id in Members(f.kids) {
        KidsOfOrdered(f.kids, id, f.run.id);
      } else {
        KidsOfOrdered(f.rest, id, parent);
      }
    }
  }

  /** A descendant is found through the chain it hangs from. */
  lemma {:induction false} InnerFind(f: Forest, p: Id, x: Id)
    requires Distinct(f) && p in Members(f) && x in Members(KidsOf(f, p))
    ensures Find(f, x) == Find(KidsOf(f, p), x) && KidsOf(f, x) == KidsOf(KidsOf(f, p), x)
  {
    if f.run.id != p {
      InnerFind(if p in Members(f.kids) then f.kids else f.rest, p, x);
    }
  }

  /** A run's own piece, then its descendants', sit contiguously in the walk. */
  lemma VisibleAround(f: Forest, id: Id)
    requires id in Members(f)
    ensures Visible(f) == Before(f, id) + Subtree(Find(f, id), KidsOf(f, id)) + After(f, id)
  {
    ReplaceSame(f, id);
    ReplaceVisible(f, id, Find(f, id), KidsOf(f, id));
  }

  lemma {:induction false} ReplaceSame(f: Forest, id: Id)
    requires id in Members(f)
    ensures Replace(f, id, Find(f, id), KidsOf(f, id)) == f
  {
    if f.run.id != id {
      ReplaceSame(if id in Members(f.kids) then f.kids else f.rest, id);
    }
  }

  /** The pieces around a run come from outside its subtree. */
  lemma {:induction false} AroundIsOutside(f: Forest, id: Id)
    requires id in Members(f) && Distinct(f)
    ensures forall p :: p in Before(f, id) || p in After(f, id) ==> p.id in Outside(f, id)
  {
    VisibleMembers(f.kids);
    VisibleMembers(f.rest);
    if f.run.id != id {
      AroundIsOutside(if id in Members(f.kids) then f.kids else f.rest, id);
    }
  }

  lemma {:induction false} ReplaceVisible(f: Forest, id: Id, run: RunNode, kids: Forest)
    requires id in Members(f)
    ensures Visible(Replace(f, id, run, kids)) == Before(f, id) + Subtree(run, kids) + After(f, id)
  {
    if f.run.id != id {
      var under := id in Members(f.kids);
      var g := if under then f.kids else f.rest;
      ReplaceVisible(g, id, run, kids);
      if under {
        Regroup(Own(f.run), Before(g, id), Subtree(run, kids), After(g, id), Visible(f.rest));
      } else {
        Regroup(Subtree(f.run, f.kids), Before(g, id), Subtree(run, kids), After(g, id), []);
      }
    }
  }

  lemma Regroup<T>(a: seq<T>, b: seq<T>, c: seq<T>, d: seq<T>, e: seq<T>)
    ensures a + (b + c + d) + e == (a + b) + c + (d + e)
  {
  }

  lemma {:induction false} ReplaceMembers(f: Forest, id: Id, run: RunNode, kids: Forest)
    requires id in Members(f) && Distinct(f) && run.id == id
    ensures Members(Replace(f, id, run, kids)) == Outside(f, id) + {id} + Members(kids)
    ensures Roots(Replace(f, id, run, kids)) == Roots(f)
  {
    if f.run.id != id {
      ReplaceMembers(if id in Members(f.kids) then f.kids else f.rest, id, run, kids);
    }
  }

  lemma {:induction false} ReplaceDistinct(f: Forest, id: Id, run: RunNode, kids: Forest)
    requires id in Members(f) && Distinct(f) && run.id == id
    requires Distinct(kids) && id !in Members(kids) && Members(kids) !! Outside(f, id)
    ensures Distinct(Replace(f, id, run, kids))
  {
    if f.run.id != id {
      var g := if id in Members(f.kids) then f.kids else f.rest;
      ReplaceDistinct(g, id, run, kids);
      ReplaceMembers(g, id, run, kids);
    }
  }

  lemma {:induction false} ReplaceOrdered(f: Forest, id: Id, run: RunNode, kids: Forest, parent: Id)
    requires id in Members(f) && Parented(f, parent) && Sorted(f)
    requires run.id == id && run.parentId == Find(f, id).parentId
    requires Parented(kids, id) && Sorted(kids)
    ensures Parented(Replace(f, id, run, kids), parent) && Sorted(Replace(f, id, run, kids))
  {
    if f.run.id != id {
      if id in Members(f.kids) {
        ReplaceOrdered(f.kids, id, run, kids, f.run.id);
      } else {
        ReplaceOrdered(f.rest, id, run, kids, parent);
      }
    }
  }

  /** Replacing a run leaves every run outside its subtree as it was. */
  lemma {:induction false} ReplaceOutside(f: Forest, id: Id, run: RunNode, kids: Forest, x: Id)
    requires id in Members(f) && Distinct(f) && run.id == id
    requires Distinct(kids) && id !in Members(kids) && Members(kids) !! Outside(f, id)
    requires x in Outside(f, id)
    ensures x in Members(Replace(f, id, run, kids))
    ensures Find(Replace(f, id, run, kids), x) == Find(f, x)
    ensures Roots(KidsOf(Replace(f, id, run, kids), x)) == Roots(KidsOf(f, x))
  {
    ReplaceMembers(f, id, run, kids);
    if f.run.id != id {
      var g := if id in Members(f.kids) then f.kids else f.rest;
      ReplaceMembers(g, id, run, kids);
      if x in Outside(g, id) {
        ReplaceOutside(g, id, run, kids, x);
      }
    }
  }

  /** The replaced run and the members of its new chain are found in the result. */
  lemma {:induction false} ReplaceInside(f: Forest, id: Id, run: RunNode, kids: Forest, x: Id)
    requires id in Members(f) && Distinct(f) && run.id == id
    requires Distinct(kids) && id !in Members(kids) && Members(kids) !! Outside(f, id)
    requires x == id || x in Members(kids)
    ensures x in Members(Replace(f, id, run, kids))
    ensures Find(Replace(f, id, run, kids), x) == if x == id then run else Find(kids, x)
    ensures KidsOf(Replace(f, id, run, kids), x) == if x == id then kids else KidsOf(kids, x)
  {
    ReplaceMembers(f, id, run, kids);
    if f.run.id != id {
      var g := if id in Members(f.kids) then f.kids else f.rest;
      ReplaceMembers(g, id, run, kids);
      ReplaceInside(g, id, run, kids, x);
    }
  }

  // ----- sibling chains

  /** Puts a run without children into a sibling chain, before the first smaller id. */
  function Attach(f: Forest, node: RunNode): Forest
  {
    if f.Nil? || Less(f.run.id, node.id) then Cons(node, Nil, f)
    else f.(rest := Attach(f.rest, node))
  }

  /** Pieces of the siblings that stay in front of an attached run. */
  function AttachBefore(f: Forest, id: Id): seq<Piece>
  {
    if f.Nil? || Less(f.run.id, id) then []
    else Subtree(f.run, f.kids) + AttachBefore(f.rest, id)
  }

  function AttachAfter(f: Forest, id: Id): seq<Piece>
  {
    if f.Nil? || Less(f.run.id, id) then Visible(f)
    else AttachAfter(f.rest, id)
  }

  lemma {:induction false} AttachVisible(f: Forest, node: RunNode)
    ensures Visible(f) == AttachBefore(f, node.id) + AttachAfter(f, node.id)
    ensures Visible(Attach(f, node)) == AttachBefore(f, node.id) + Own(node) + AttachAfter(f, node.id)
  {
    if f.Cons? && !Less(f.run.id, node.id) {
      AttachVisible(f.rest, node);
    }
  }

  lemma {:induction false} AttachDistinct(f: Forest, node: RunNode)
    requires Distinct(f) && node.id !in Members(f)
    ensures Members(Attach(f, node)) == Members(f) + {node.id} && Distinct(Attach(f, node))
  {
    if f.Cons? && !Less(f.run.id, node.id) {
      AttachDistinct(f.rest, node);
    }
  }

  lemma {:induction false} AttachOrdered(f: Forest, node: RunNode)
    requires node.id !in Members(f) && Parented(f, node.parentId) && Sorted(f)
    ensures Parented(Attach(f, node), node.parentId) && Sorted(Attach(f, node))
  {
    if f.Cons? && !Less(f.run.id, node.id) {
      AttachOrdered(f.rest, node);
      LessTrichotomy(f.run.id, node.id);
    }
  }

  /** Attaching keeps the siblings' own subtrees. */
  lemma {:induction false} AttachFind(f: Forest, node: RunNode, x: Id)
    requires Distinct(f) && node.id !in Members(f)
    requires x in Members(f) || x == node.id
    ensures x in Members(Attach(f, node))
    ensures Find(Attach(f, node), x) == if x == node.id then node else Find(f, x)
    ensures KidsOf(Attach(f, node), x) == if x == node.id then Nil else KidsOf(f, x)
  {
    AttachDistinct(f, node);
    if f.Cons? && !Less(f.run.id, node.id) {
      AttachDistinct(f.rest, node);
      if x in Members(f.rest) || x == node.id {
        AttachFind(f.rest, node, x);
      }
    }
  }

  /** The children of a split run name the right half as their parent. */
  function Reparent(f: Forest, parent: Id): Forest
  {
    match f
    case Nil => Nil
    case Cons(run, kids, rest) => Cons(run.(parentId := parent), kids, Reparent(rest, parent))
  }

  lemma {:induction false} ReparentShape(f: Forest, from: Id, to: Id)
    requires Parented(f, from) && Sorted(f)
    ensures Parented(Reparent(f, to), to) && Sorted(Reparent(f, to))
    ensures Members(Reparent(f, to)) == Members(f) && Roots(Reparent(f, to)) == Roots(f)
    ensures Visible(Reparent(f, to)) == Visible(f)
    ensures Distinct(f) ==> Distinct(Reparent(f, to))
  {
    match f
    case Nil =>
    case Cons(run, kids, rest) => ReparentShape(rest, from, to);
  }

  lemma {:induction false} ReparentFind(f: Forest, to: Id, x: Id)
    requires x in Members(f)
    ensures Members(Reparent(f, to)) == Members(f)
    ensures Find(Reparent(f, to), x).(parentId := "") == Find(f, x).(parentId := "")
    ensures KidsOf(Reparent(f, to), x) == KidsOf(f, x)
    decreases f
  {
    ReparentMembers(f, to);
    ReparentMembers(f.rest, to);
    if f.run.id != x && x !in Members(f.kids) {
      ReparentFind(f.rest, to, x);
    }
  }

  lemma {:induction false} ReparentMembers(f: Forest, to: Id)
    ensures Members(Reparent(f, to)) == Members(f)
  {
    if f.Cons? { ReparentMembers(f.rest, to); }
  }

  // ----- documents

  /** A document: ROOT above a well-formed forest. */
  predicate Doc(d: Forest)
  {
    && d.Cons? && d.run == ROOT_NODE && d.rest == Nil
    && Distinct(d) && Parented(d, "") && Sorted(d)
  }

  const EMPTY: Forest := Cons(ROOT_NODE, Nil, Nil)

  /** ROOT or a run that has a span. */
  predicate Anchored(d: Forest, id: Id)
  {
    id in Members(d) && (id == ROOT || !Find(d, id).deleted)
  }

  /** INSERT_RUN; a run that is already there is left alone. */
  function Insert(d: Forest, node: RunNode): Forest
    requires node.parentId in Members(d)
  {
    if node.id in Members(d) then d
    else Replace(d, node.parentId, Find(d, node.parentId), Attach(KidsOf(d, node.parentId), node))
  }

  /** The visible pieces in front of a run freshly inserted under `parent`. */
  function InsertPrefix(d: Forest, parent: Id, id: Id): seq<Piece>
    requires parent in Members(d)
  {
    Before(d, parent) + Own(Find(d, parent)) + AttachBefore(KidsOf(d, parent), id)
  }

  function InsertSuffix(d: Forest, parent: Id, id: Id): seq<Piece>
    requires parent in Members(d)
  {
    AttachAfter(KidsOf(d, parent), id) + After(d, parent)
  }

  /** Whether SPLIT does anything. */
  predicate Splittable(d: Forest, id: Id, offset: int)
  {
    && id in Members(d) && 0 < offset < |Find(d, id).text|
    && SplitId(id, offset) !in Members(d)
  }

  function LeftHalf(run: RunNode, offset: nat): RunNode
    requires offset <= |run.text|
  {
    run.(text := run.text[..offset])
  }

  function RightHalf(run: RunNode, offset: nat): RunNode
    requires offset <= |run.text|
  {
    RunNode(SplitId(run.id, offset), run.text[offset..], run.id, run.peerId, run.deleted)
  }

  /** SPLIT: the right half hangs under the left half and inherits its children. */
  function Split(d: Forest, id: Id, offset: int): Forest
  {
    if !Splittable(d, id, offset) then d
    else
      var run := Find(d, id);
      var right := RightHalf(run, offset);
      Replace(d, id, LeftHalf(run, offset), Cons(right, Reparent(KidsOf(d, id), right.id), Nil))
  }

  function Tombstone(d: Forest, id: Id): Forest
  {
    if id !in Members(d) || Find(d, id).deleted then d
    else Replace(d, id, Find(d, id).(deleted := true), KidsOf(d, id))
  }

  /** Whether DELETE_RANGE does anything. */
  predicate Deletable(d: Forest, id: Id, offset: int, count: int)
  {
    && id in Members(d) && !Find(d, id).deleted
    && 0 <= offset && 0 < count && offset + count <= |Find(d, id).text|
  }

  /** DELETE_RANGE: isolate the range with at most two splits, then tombstone it. */
  function DeleteRange(d: Forest, id: Id, offset: int, count: int): Forest
  {
    if !Deletable(d, id, offset, count) then d
    else
      var len := |Find(d, id).text|;
      if offset == 0 && count == len then Tombstone(d, id)
      else if offset == 0 then Tombstone(Split(d, id, count), id)
      else if offset + count == len then Tombstone(Split(d, id, offset), SplitId(id, offset))
      else Tombstone(Split(Split(d, id, offset), SplitId(id, offset), count), SplitId(id, offset))
  }

  /** EXTEND_RUN: append to a run that is still visible. */
  function Extend(d: Forest, id: Id, text: string): Forest
  {
    if id !in Members(d) || Find(d, id).deleted then d
    else Replace(d, id, Find(d, id).(text := Find(d, id).text + text), KidsOf(d, id))
  }

  // ----- every operation keeps a document a document

  lemma InsertDoc(d: Forest, node: RunNode)
    requires Doc(d) && node.parentId in Members(d)
    ensures Doc(Insert(d, node))
    ensures Members(Insert(d, node)) == Members(d) + {node.id}
  {
    if node.id !in Members(d) {
      var p := node.parentId;
      var kids := KidsOf(d, p);
      KidsOfDistinct(d, p);
      KidsOfOrdered(d, p, "");
      AttachDistinct(kids, node);
      AttachOrdered(kids, node);
      ReplaceMembers(d, p, Find(d, p), Attach(kids, node));
      ReplaceDistinct(d, p, Find(d, p), Attach(kids, node));
      ReplaceOrdered(d, p, Find(d, p), Attach(kids, node), "");
    }
  }

  /** The chain SPLIT puts under the left half. */
  function SplitKids(d: Forest, id: Id, offset: nat): Forest
    requires id in Members(d) && offset <= |Find(d, id).text|
  {
    var right := RightHalf(Find(d, id), offset);
    Cons(right, Reparent(KidsOf(d, id), right.id), Nil)
  }

  lemma SplitKidsShape(d: Forest, id: Id, offset: nat)
    requires Doc(d) && Splittable(d, id, offset)
    ensures var kids := SplitKids(d, id, offset);
            && Distinct(kids) && id !in Members(kids)
            && Members(kids) == Members(KidsOf(d, id)) + {SplitId(id, offset)}
            && Members(kids) !! Outside(d, id)
            && Parented(kids, id) && Sorted(kids)
            && Visible(kids) == Own(RightHalf(Find(d, id), offset)) + Visible(KidsOf(d, id))
  {
    KidsOfDistinct(d, id);
    KidsOfOrdered(d, id, "");
    ReparentShape(KidsOf(d, id), id, SplitId(id, offset));
    SplitIdHasSeparator(id, offset);
  }

  lemma SplitDoc(d: Forest, id: Id, offset: int)
    requires Doc(d)
    ensures Doc(Split(d, id, offset))
    ensures Members(Split(d, id, offset))
            == Members(d) + if Splittable(d, id, offset) then {SplitId(id, offset)} else {}
  {
    if Splittable(d, id, offset) {
      var kids, left := SplitKids(d, id, offset), LeftHalf(Find(d, id), offset);
      SplitKidsShape(d, id, offset);
      ReplaceMembers(d, id, left, kids);
      ReplaceDistinct(d, id, left, kids);
      ReplaceOrdered(d, id, left, kids, "");
    }
  }

  /** Changing a run in place keeps the shape of the tree. */
  lemma InPlaceDoc(d: Forest, id: Id, run: RunNode)
    requires Doc(d) && id in Members(d) && id != ROOT
    requires run.id == id && run.parentId == Find(d, id).parentId
    ensures Doc(Replace(d, id, run, KidsOf(d, id)))
    ensures Members(Replace(d, id, run, KidsOf(d, id))) == Members(d)
  {
    KidsOfDistinct(d, id);
    KidsOfOrdered(d, id, "");
    ReplaceMembers(d, id, run, KidsOf(d, id));
    ReplaceDistinct(d, id, run, KidsOf(d, id));
    ReplaceOrdered(d, id, run, KidsOf(d, id), "");
  }
}
