/**
 * Applying remote updates.  The relay edits the tree through the reducer and
 * the editor text by position; the two meet only because the position is read
 * off the same index.
 */
module Relay {
  import opened Options
  import opened Ids
  import opened RunForest
  import opened RunEffects
  import opened SplitFreshness
  import opened PositionIndex
  import opened Removals
  import opened SpanLists
  import opened CausalTree
  import opened Reducer
  import opened Hlc
  import opened Wire

  /**
   * Text put into the editor.  The editor raises an error on a change that lies
   * outside its document, and the view stays as it is; `Deliverable` updates
   * never get there.
   */
  function Show(view: string, at: int, text: string): string
  {
    if 0 <= at <= |view| then view[..at] + text + view[at..] else view
  }

  /** A range taken out of the editor, with the same provision. */
  function Hide(view: string, from: int, count: int): string
  {
    if 0 <= from && 0 <= count && from + count <= |view| then Excise(view, Range(from, count)) else view
  }

  /** A delete whose range leaves its run but not the document: only the view is edited. */
  predicate Overshoots(d: Forest, u: Update)
  {
    && u.Delete? && Reaches(d, u.subjectId, u.offset) && u.count > 0
    && !Deletable(d, u.subjectId, u.offset, u.count)
    && 0 <= |Join(Before(d, u.subjectId))| + u.offset
    && |Join(Before(d, u.subjectId))| + u.offset + u.count <= |Text(d)|
  }

  /** The text in front of a run about to be inserted. */
  function Front(d: Forest, node: RunNode): string
    requires node.parentId in Members(d)
  {
    Join(InsertPrefix(d, node.parentId, node.id))
  }

  /** The position at which the relay shows a run; 0 if the parent has no place in the index. */
  ghost function ShownAt(d: Forest, node: RunNode): nat
    requires node.parentId in Members(d)
  {
    if Placeable(d, node.parentId) then |Front(d, node)| else 0
  }

  /**
   * A run whose text the view shows and the tree does not, or shows elsewhere:
   * it arrives deleted, its id is taken, or its parent has no place in the index
   * and its text does not commute with the text in front of it.
   */
  ghost predicate MisshownIn(d: Forest, node: RunNode)
    requires node.parentId in Members(d)
  {
    && node.text != ""
    && (|| node.deleted || node.id in Members(d)
        || (!Placeable(d, node.parentId) && node.text + Front(d, node) != Front(d, node) + node.text))
  }

  /** A put of a new run that ends up misshown after the sender's split was made. */
  ghost predicate Misshown(d: Forest, u: Update)
  {
    && u.Put? && u.node.id !in Members(d) && u.node.parentId in Members(d)
    && MisshownIn(SplitForPut(d, u.node.parentId, u.splitParentAt), u.node)
  }

  /** A put that leaves the index exact. */
  ghost predicate SeatedPut(d: Forest, node: RunNode, at: Option<int>)
  {
    || node.id in Members(d)
    || (node.parentId in Members(d) && Seated(SplitForPut(d, node.parentId, at), node))
  }

  /** PUT: split the parent as the sender did, insert the run, show its text. */
  method ApplyPut(doc: DocState, view: string, node: RunNode, splitParentAt: Option<int>, ghost tree: Forest)
    returns (doc': DocState, view': string)
    requires Keeps(doc, tree) && Present(tree, Put(node, splitParentAt))
    ensures Keeps(doc', Deliver(tree, Put(node, splitParentAt)))
    ensures Indexes(doc.index, tree) && SeatedPut(tree, node, splitParentAt) ==>
              Indexes(doc'.index, Deliver(tree, Put(node, splitParentAt)))
    ensures Indexes(doc.index, tree) && view == Text(tree) ==>
              (view' == Text(Deliver(tree, Put(node, splitParentAt))) <==> !Misshown(tree, Put(node, splitParentAt)))
  {
    if node.id in doc.nodes { return doc, view; }
    doc' := doc;
    ghost var split := SplitForPut(tree, node.parentId, splitParentAt);
    MatchFind(doc.nodes, doc.children, tree, node.parentId);
    SplitKeepsParent(tree, node.parentId, splitParentAt);
    if splitParentAt.Some? && node.parentId in doc.nodes
       && |doc.nodes[node.parentId].text| > splitParentAt.value {
      SplitText(tree, node.parentId, splitParentAt.value);
      doc' := ApplySplit(doc, node.parentId, splitParentAt.value, tree);
    }
    doc', view' := InsertShown(doc', view, node, split);
  }

  method InsertShown(doc: DocState, view: string, node: RunNode, ghost tree: Forest)
    returns (doc': DocState, view': string)
    requires Keeps(doc, tree) && node.parentId in Members(tree)
    ensures Keeps(doc', Insert(tree, node))
    ensures Indexes(doc.index, tree) && Seated(tree, node) ==> Indexes(doc'.index, Insert(tree, node))
    ensures Indexes(doc.index, tree) && view == Text(tree) ==>
              (view' == Text(Insert(tree, node)) <==> !MisshownIn(tree, node))
  {
    var insertPos := FindInsertPosition(doc, node.parentId, node.id, tree);
    doc' := ApplyInsertRun(doc, node, tree);
    ShownWhere(tree, node);
    view' := Show(view, insertPos, node.text);
  }

  /** Showing a run at the computed position gives the tree's new text exactly when it is not misshown. */
  lemma ShownWhere(d: Forest, node: RunNode)
    requires Doc(d) && node.parentId in Members(d)
    ensures ShownAt(d, node) <= |Text(d)|
    ensures Spliced(Text(d), ShownAt(d, node), node.text) == Text(Insert(d, node)) <==> !MisshownIn(d, node)
  {
    FrontOfText(d, node);
    if node.id in Members(d) || node.deleted {
      ShownForNothing(d, node);
    } else {
      ShownSomewhere(d, node);
    }
  }

  function Spliced(s: string, at: nat, text: string): string
    requires at <= |s|
  {
    s[..at] + text + s[at..]
  }

  lemma ShownForNothing(d: Forest, node: RunNode)
    requires Doc(d) && node.parentId in Members(d) && (node.id in Members(d) || node.deleted)
    requires ShownAt(d, node) <= |Text(d)|
    ensures Spliced(Text(d), ShownAt(d, node), node.text) == Text(Insert(d, node)) <==> node.text == ""
  {
    if node.id !in Members(d) { InsertDeleted(d, node); }
    var shown := Spliced(Text(d), ShownAt(d, node), node.text);
    assert |shown| == |Text(d)| + |node.text|;
    if node.text == "" { assert shown == Text(d); }
  }

  lemma ShownSomewhere(d: Forest, node: RunNode)
    requires Doc(d) && node.parentId in Members(d) && node.id !in Members(d) && !node.deleted
    requires Front(d, node) <= Text(d)
    ensures Spliced(Text(d), ShownAt(d, node), node.text) == Text(Insert(d, node)) <==> !MisshownIn(d, node)
  {
    InsertText(d, node);
    if !Placeable(d, node.parentId) {
      SplicedFirst(Text(d), Front(d, node), node.text);
    }
  }

  /** A text put in at the very front, and one put in behind a prefix. */
  lemma SplicedFirst(s: string, front: string, t: string)
    requires front <= s
    ensures Spliced(s, 0, t) == Spliced(s, |front|, t) <==> t + front == front + t
    ensures t == "" ==> t + front == front + t
  {
    var back := s[|front|..];
    assert s == front + back && s[..|front|] == front;
    ShownFirst(front, t, back);
    assert Spliced(s, 0, t) == t + (front + back);
    assert Spliced(s, |front|, t) == front + t + back;
    if t == "" { assert t + front == front && front + t == front; }
  }

  const SHOWN: RunNode := RunNode("b", "x", ROOT, "p", false)
  const GONE: RunNode := RunNode("a", "y", ROOT, "p", true)
  const UNDER_GONE: RunNode := RunNode("c", "z", "a", "q", false)
  const HALF_GONE: Forest := Cons(ROOT_NODE, Cons(SHOWN, Nil, Cons(GONE, Nil, Nil)), Nil)

  /** A run put under a deleted one: the tree reads "xz", the view "zx". */
  lemma MisshownDiverges()
    ensures Misshown(HALF_GONE, Put(UNDER_GONE, None)) && Text(Insert(HALF_GONE, UNDER_GONE)) == "xz"
    ensures Show(Text(HALF_GONE), ShownAt(HALF_GONE, UNDER_GONE), "z") == "zx"
  {
    var d, node := HALF_GONE, UNDER_GONE;
    assert Visible(d) == [Piece("b", "x")] && InsertPrefix(d, "a", "c") == [Piece("b", "x")];
    JoinOne(Piece("b", "x"));
    assert Front(d, node) == "x" && !Placeable(d, "a");
    assert ("z" + "x")[0] == 'z' && ("x" + "z")[0] == 'x';
    assert Visible(Insert(d, node)) == [Piece("b", "x"), Piece("c", "z")];
    JoinTwo(Piece("b", "x"), Piece("c", "z"));
    assert "x"[..0] + "z" + "x"[0..] == "zx";
  }

  lemma FrontOfText(d: Forest, node: RunNode)
    requires Doc(d) && node.parentId in Members(d)
    ensures Front(d, node) <= Text(d) && |Front(d, node)| <= |Text(d)|
  {
    var p := node.parentId;
    VisibleAround(d, p);
    AttachVisible(KidsOf(d, p), node);
    Weave(Before(d, p), Own(Find(d, p)), AttachBefore(KidsOf(d, p), node.id), [],
          AttachAfter(KidsOf(d, p), node.id), After(d, p));
    JoinConcat(InsertPrefix(d, p, node.id), InsertSuffix(d, p, node.id));
  }

  lemma InsertDeleted(d: Forest, node: RunNode)
    requires Doc(d) && node.parentId in Members(d) && node.id !in Members(d) && node.deleted
    ensures Text(Insert(d, node)) == Text(d)
  {
    InsertVisible(d, node);
    assert Visible(Insert(d, node)) == Visible(d);
  }

  /** Text put in front of everything or behind `front` reads alike exactly when the two commute. */
  lemma ShownFirst(front: string, t: string, back: string)
    ensures t + (front + back) == front + t + back <==> t + front == front + t
  {
    assert t + (front + back) == (t + front) + back;
    if t + front + back == front + t + back {
      assert t + front == (t + front + back)[..|t| + |front|];
      assert front + t == (front + t + back)[..|t| + |front|];
    }
  }

  /**
   * An in-range delete whose split ids are taken, so that the tree loses another
   * range than the view, and the two do not read alike.
   */
  predicate Collides(d: Forest, u: Update)
  {
    && u.Delete? && Deletable(d, u.subjectId, u.offset, u.count)
    && Excise(Text(d), Asked(d, u.subjectId, u.offset, u.count))
       != Excise(Text(d), Removed(d, u.subjectId, u.offset, u.count))
  }

  /** With its split ids free, a delete collides with nothing. */
  lemma FreeCutsMirror(d: Forest, id: Id, offset: int, count: int)
    requires Deletable(d, id, offset, count) ==> CutsFree(d, id, offset, count, |Find(d, id).text|)
    ensures !Collides(d, Delete(id, offset, count))
  {
  }

  /** A delete within its run is mirrored unless it collides. */
  lemma InRangeMirrors(tree: Forest, id: Id, offset: int, count: int, from: int)
    requires Doc(tree) && Deletable(tree, id, offset, count) && from == |Join(Before(tree, id))| + offset
    ensures !Overshoots(tree, Delete(id, offset, count))
    ensures Hide(Text(tree), from, count) == Text(DeleteRange(tree, id, offset, count))
            <==> !Collides(tree, Delete(id, offset, count))
  {
    WholeInText(tree, id);
    assert Hide(Text(tree), from, count) == Excise(Text(tree), Asked(tree, id, offset, count));
    DeleteRemoves(tree, id, offset, count);
  }

  /** Whether cutting the view at the run's position gives the tree's new text. */
  lemma DeleteMirrors(tree: Forest, id: Id, offset: int, count: int, from: int)
    requires Doc(tree) && Reaches(tree, id, offset) && from == |Join(Before(tree, id))| + offset
    ensures Hide(Text(tree), from, count) == Text(DeleteRange(tree, id, offset, count))
            <==> !Overshoots(tree, Delete(id, offset, count)) && !Collides(tree, Delete(id, offset, count))
  {
    if Deletable(tree, id, offset, count) {
      InRangeMirrors(tree, id, offset, count, from);
    } else {
      OutOfRange(tree, id, offset, count, from);
    }
  }

  /** A delete that leaves its run leaves the tree as it is. */
  lemma OutOfRange(tree: Forest, id: Id, offset: int, count: int, from: int)
    requires Reaches(tree, id, offset) && !Deletable(tree, id, offset, count)
    requires from == |Join(Before(tree, id))| + offset
    ensures Hide(Text(tree), from, count) == Text(DeleteRange(tree, id, offset, count))
            <==> !Overshoots(tree, Delete(id, offset, count)) && !Collides(tree, Delete(id, offset, count))
  {
    var s := Text(tree);
    if 0 <= from && 0 <= count && from + count <= |s| {
      assert |Hide(s, from, count)| == |s| - count;
      if count == 0 { assert Hide(s, from, 0) == s; }
    }
  }

  /** A split run extended over its split id: the tree loses the split-off half, the view what was asked. */
  lemma CollisionDiverges()
    ensures var d, u := Extend(Split(Insert(EMPTY, AB), "x", 1), "x", "cd"), Delete("x", 1, 2);
            && Text(d) == "acdb" && !Overshoots(d, u) && !Misshown(d, u) && Collides(d, u)
            && Text(Deliver(d, u)) == "acd" && Hide(Text(d), 1, 2) == "ab"
  {
    var d := Extend(Split(Insert(EMPTY, AB), "x", 1), "x", "cd");
    ExtendedLeftHalfCollides();
    SplitInHalf();
    ExtendLeftHalf();
    ExtendedDoc();
    assert Before(EXTENDED, "x") == [];
    var s := "acdb";
    assert s[..1] + s[3..] == "ab";
    InRangeMirrors(d, "x", 1, 2, 1);
  }

  lemma ExtendedDoc()
    ensures Doc(EXTENDED)
  {
    InsertDoc(EMPTY, AB);
    SplitDoc(Insert(EMPTY, AB), "x", 1);
    SplitInHalf();
    InPlaceDoc(HALVES, "x", Find(HALVES, "x").(text := "acd"));
    ExtendLeftHalf();
  }

  /** A delete of both halves of a split run under the left half's id: the tree keeps them, the view does not. */
  lemma OvershootDiverges()
    ensures var d := Split(Insert(EMPTY, AB), "x", 1);
            var u := Delete("x", 0, 2);
            && Overshoots(d, u) && Text(d) == "ab" && Deliver(d, u) == d
            && Hide(Text(d), |Join(Before(d, "x"))|, 2) == ""
  {
    SplitInHalf();
    assert Find(HALVES, "x").text == "a" && Before(HALVES, "x") == [];
  }

  /** DELETE: tombstone the range, then cut it out of the view if the run had a span. */
  method ApplyDelete(doc: DocState, view: string, id: Id, offset: int, count: int, ghost tree: Forest)
    returns (doc': DocState, view': string)
    requires Keeps(doc, tree)
    ensures Keeps(doc', DeleteRange(tree, id, offset, count))
    ensures Indexes(doc.index, tree) ==> Indexes(doc'.index, DeleteRange(tree, id, offset, count))
    ensures Indexes(doc.index, tree) && view == Text(tree) ==>
              (view' == Text(DeleteRange(tree, id, offset, count))
               <==> !Overshoots(tree, Delete(id, offset, count)) && !Collides(tree, Delete(id, offset, count)))
  {
    var deletePos := PositionIn(doc.index, id, offset, tree);
    doc' := ApplyDeleteRange(doc, id, offset, count, tree);
    view' := view;
    if deletePos.Some? { view' := Hide(view, deletePos.value, count); }
    if Indexes(doc.index, tree) {
      if deletePos.Some? {
        DeleteMirrors(tree, id, offset, count, deletePos.value);
      } else {
        OutOfReach(tree, id, offset, count);
      }
    }
  }

  /** A run without a span at the offset loses nothing. */
  lemma OutOfReach(tree: Forest, id: Id, offset: int, count: int)
    requires Doc(tree) && !Reaches(tree, id, offset)
    ensures DeleteRange(tree, id, offset, count) == tree
    ensures !Overshoots(tree, Delete(id, offset, count)) && !Collides(tree, Delete(id, offset, count))
  {
    assert !Deletable(tree, id, offset, count);
  }

  lemma PatchShows(d: Forest, id: Id, text: string)
    requires Doc(d) && Patchable(d, id)
    ensures var at := |Join(Before(d, id))| + |Find(d, id).text|;
            Show(Text(d), at, text) == Text(Extend(d, id, text))
  {
    var t := Find(d, id).text;
    LocatedAt(d, id);
    ExtendLocated(d, id, text, t, Before(d, id), Behind(d, id));
    TextAround(d, id, t, Before(d, id), Behind(d, id));
  }

  /** PATCH: append to the run, then show the text behind the characters it had. */
  method ApplyPatch(doc: DocState, view: string, id: Id, text: string, ghost tree: Forest)
    returns (doc': DocState, view': string)
    requires Keeps(doc, tree)
    ensures Keeps(doc', Deliver(tree, Patch(id, text)))
    ensures Indexes(doc.index, tree) ==> Indexes(doc'.index, Deliver(tree, Patch(id, text)))
    ensures Indexes(doc.index, tree) && view == Text(tree) ==> view' == Text(Deliver(tree, Patch(id, text)))
  {
    doc', view' := doc, view;
    if id !in doc.nodes { return; }
    MatchFind(doc.nodes, doc.children, tree, id);
    var node := doc.nodes[id];
    if node.deleted { return; }
    var runStartPos := PositionIn(doc.index, id, 0, tree);
    if runStartPos.None? { return; }
    doc', view' := AppendShown(doc, view, id, runStartPos.value + |node.text|, text, tree);
  }

  method AppendShown(doc: DocState, view: string, id: Id, appendPos: int, text: string, ghost tree: Forest)
    returns (doc': DocState, view': string)
    requires Keeps(doc, tree) && Patchable(tree, id)
    requires Indexes(doc.index, tree) ==> appendPos == |Join(Before(tree, id))| + |Find(tree, id).text|
    ensures Keeps(doc', Extend(tree, id, text))
    ensures Indexes(doc.index, tree) ==> Indexes(doc'.index, Extend(tree, id, text))
    ensures Indexes(doc.index, tree) && view == Text(tree) ==> view' == Text(Extend(tree, id, text))
  {
    doc' := ApplyExtendRun(doc, id, text, tree);
    PatchShows(tree, id, text);
    view' := Show(view, appendPos, text);
  }

  /** Any update keeps the view in step, except deletes that overshoot or collide and puts that are misshown. */
  method ApplyUpdate(doc: DocState, view: string, u: Update, ghost tree: Forest)
    returns (doc': DocState, view': string)
    requires Keeps(doc, tree) && Present(tree, u)
    ensures Keeps(doc', Deliver(tree, u))
    ensures Indexes(doc.index, tree) && (u.Put? ==> SeatedPut(tree, u.node, u.splitParentAt)) ==>
              Indexes(doc'.index, Deliver(tree, u))
    ensures Indexes(doc.index, tree) && view == Text(tree) ==>
              (view' == Text(Deliver(tree, u)) <==> !Overshoots(tree, u) && !Collides(tree, u) && !Misshown(tree, u))
  {
    match u
    case Put(node, at) => doc', view' := ApplyPut(doc, view, node, at, tree);
    case Delete(id, offset, count) => doc', view' := ApplyDelete(doc, view, id, offset, count, tree);
    case Patch(id, text) => doc', view' := ApplyPatch(doc, view, id, text, tree);
    case Unreadable => doc', view' := doc, view;
  }

  /**
   * Delivering `us` takes the healthy tree `d` to `goal`.  The quantifier keeps
   * the loop invariant that uses this one proposition.
   */
  ghost predicate Awaits(d: Forest, us: seq<Update>, h: Hlc, goal: Forest)
  {
    exists e :: e == goal && Healthy(d, h) && Carries(us, d, e, h)
  }

  /** A deliverable put is shown where it is, and finds its place in the index. */
  lemma DeliverablePut(d: Forest, node: RunNode, at: Option<int>, h: Hlc)
    requires Doc(d) && Deliverable(d, Put(node, at), h)
    ensures !Misshown(d, Put(node, at)) && SeatedPut(d, node, at)
  {
    if node.id !in Members(d) {
      var p := node.parentId;
      SplitKeepsParent(d, p, at);
      if at.Some? {
        SplitDoc(d, p, at.value);
        if Splittable(d, p, at.value) { SplitIdHasSeparator(p, at.value); }
      }
    }
  }

  lemma SpentMirrors(d: Forest, u: Update)
    requires SplitsSpent(d) && u.Delete?
    ensures !Collides(d, u)
  {
    if Deletable(d, u.subjectId, u.offset, u.count) { SpentCutsFree(d, u.subjectId, u.offset, u.count); }
    FreeCutsMirror(d, u.subjectId, u.offset, u.count);
  }

  lemma AwaitsNext(d: Forest, us: seq<Update>, h: Hlc, goal: Forest)
    requires Awaits(d, us, h, goal) && us != []
    ensures Deliverable(d, us[0], h) && !Overshoots(d, us[0]) && !Collides(d, us[0]) && !Misshown(d, us[0])
    ensures us[0].Put? ==> SeatedPut(d, us[0].node, us[0].splitParentAt)
    ensures Awaits(Deliver(d, us[0]), us[1..], h, goal)
  {
    DeliverHealthy(d, us[0], h);
    if us[0].Delete? { SpentMirrors(d, us[0]); }
    if us[0].Put? { DeliverablePut(d, us[0].node, us[0].splitParentAt, h); }
    assert Carries(us[1..], Deliver(d, us[0]), goal, h);
  }

  /** Index and view are exact, and the rest of the action leads to `goal`; one proposition, as `Awaits`. */
  ghost predicate Tuned(doc: DocState, view: string, d: Forest, us: seq<Update>, h: Hlc, goal: Forest)
  {
    exists e :: e == d && Indexes(doc.index, e) && view == Text(e) && Awaits(e, us, h, goal)
  }

  /** The next update of an action. */
  method ApplyNext(doc: DocState, view: string, us: seq<Update>, ghost d: Forest, ghost h: Hlc, ghost goal: Forest)
    returns (doc': DocState, view': string)
    requires Keeps(doc, d) && us != [] && AllPresent(d, us)
    ensures Keeps(doc', Deliver(d, us[0]))
    ensures Tuned(doc, view, d, us, h, goal) ==> Tuned(doc', view', Deliver(d, us[0]), us[1..], h, goal)
  {
    if Tuned(doc, view, d, us, h, goal) { AwaitsNext(d, us, h, goal); }
    doc', view' := ApplyUpdate(doc, view, us[0], d);
  }

  /** All updates of one action, in order: the tree follows, and if all are deliverable so does the view. */
  method ApplyAll(doc: DocState, view: string, us: seq<Update>, ghost tree: Forest, ghost h: Hlc)
    returns (doc': DocState, view': string)
    requires Keeps(doc, tree) && AllPresent(tree, us)
    ensures Keeps(doc', DeliverEach(tree, us))
    ensures Repr(doc, tree) && view == Text(tree) && Healthy(tree, h) && AllDeliverable(tree, us, h) ==>
              && Indexes(doc'.index, DeliverEach(tree, us)) && view' == Text(DeliverEach(tree, us))
              && Healthy(DeliverEach(tree, us), h)
  {
    ghost var goal, now := DeliverEach(tree, us), tree;
    doc', view' := doc, view;
    assert us[0..] == us;
    if Healthy(tree, h) && AllDeliverable(tree, us, h) { AwaitsAll(tree, us, h); }
    ghost var fit := Tuned(doc, view, tree, us, h, goal);
    var i := 0;
    while i < |us|
      invariant i <= |us| && Keeps(doc', now)
      invariant AllPresent(now, us[i..]) && DeliverEach(now, us[i..]) == goal
      invariant fit ==> Tuned(doc', view', now, us[i..], h, goal)
    {
      assert us[i..][0] == us[i] && us[i..][1..] == us[i + 1..];
      doc', view' := ApplyNext(doc', view', us[i..], now, h, goal);
      now := Deliver(now, us[i]);
      i := i + 1;
    }
  }

  lemma AwaitsAll(d: Forest, us: seq<Update>, h: Hlc)
    requires Healthy(d, h) && AllDeliverable(d, us, h)
    ensures AllPresent(d, us) && Awaits(d, us, h, DeliverEach(d, us))
  {
    DeliverableIsPresent(d, us, h);
    assert Carries(us, d, DeliverAll(d, us, h), h);
  }
}
