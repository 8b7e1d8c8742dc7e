/** How the bridge inserts text: by extending the run in front, or with a new run behind it. */
module LocalInsert {
  import opened Options
  import opened Ids
  import opened RunForest
  import opened RunEffects
  import opened SplitFreshness
  import opened PositionIndex
  import opened CausalTree
  import opened Reducer
  import opened Hlc
  import opened Wire

  /** `d` reads as `start` with `text` put in at `from`. */
  ghost predicate Pasted(d: Forest, start: Forest, from: nat, text: string)
  {
    from <= |Text(start)| && Text(d) == Text(start)[..from] + text + Text(start)[from..]
  }

  /** What a position in the index says about the walk. */
  lemma HitLocated(d: Forest, index: Index, hit: PositionLookup, position: nat)
    requires Doc(d) && Indexes(index, d) && hit.spanIndex < |index.spans|
    requires hit.runId == index.spans[hit.spanIndex].runId && hit.offset < index.spans[hit.spanIndex].length
    requires Total(index.spans[..hit.spanIndex]) + hit.offset == position
    ensures hit.runId in Members(d) && hit.runId != ROOT && !Find(d, hit.runId).deleted
    ensures hit.offset < |Find(d, hit.runId).text|
    ensures |Join(Before(d, hit.runId))| + hit.offset == position
  {
    RunOfSpan(d, hit.spanIndex);
    SpanOfRun(d, hit.runId);
  }

  lemma PasteInside(a: string, t: string, b: string, text: string)
    ensures var s, from := a + t + b, |a| + |t|;
            a + t + text + b == s[..from] + text + s[from..]
  {
  }

  /** Extending a run whose last character precedes the position pastes the text there. */
  lemma ExtendPastes(d: Forest, h: Hlc, id: Id, from: nat, text: string)
    requires Healthy(d, h) && id in Members(d) && id != ROOT && !Find(d, id).deleted
    requires KidsOf(d, id).Nil? && Find(d, id).text != ""
    requires |Join(Before(d, id))| + |Find(d, id).text| == from
    ensures Pasted(Extend(d, id, text), d, from, text)
    ensures Carries([Patch(id, text)], d, Extend(d, id, text), h)
  {
    var t := Find(d, id).text;
    LocatedAt(d, id);
    ExtendLocated(d, id, text, t, Before(d, id), Behind(d, id));
    TextAround(d, id, t, Before(d, id), Behind(d, id));
    PasteInside(Join(Before(d, id)), t, Join(Behind(d, id)), text);
    LeafHasRoom(d, id, |text|);
    DeliverOne(d, Patch(id, text), h);
  }

  /** The run that holds the character in front of a position, and the character's place in it. */
  method RunBefore(doc: DocState, from: nat, ghost tree: Forest) returns (run: RunNode, offset: nat)
    requires Repr(doc, tree) && 0 < from <= |Text(tree)|
    ensures run.id in Members(tree) && run.id != ROOT && run == Find(tree, run.id) && !run.deleted
    ensures run.id in doc.children && doc.children[run.id] == Roots(KidsOf(tree, run.id))
    ensures offset < |run.text| && |Join(Before(tree, run.id))| + offset == from - 1
  {
    TotalIsTextLength(Visible(tree));
    var lookup := LookupPosition(doc.index, from - 1);
    var hit := lookup.value;
    HitLocated(tree, doc.index, hit, from - 1);
    MatchFind(doc.nodes, doc.children, tree, hit.runId);
    run, offset := doc.nodes[hit.runId], hit.offset;
  }

  /** A leaf run by the peer ends right in front of the position. */
  predicate Growable(d: Forest, id: Id, from: nat, peerId: string)
  {
    && id in Members(d) && id != ROOT && !Find(d, id).deleted && Find(d, id).text != ""
    && |Join(Before(d, id))| + |Find(d, id).text| == from
    && KidsOf(d, id).Nil? && Find(d, id).peerId == peerId
  }

  /** Only one run holds the character in front of a position. */
  lemma OneHolder(d: Forest, a: Id, i: nat, b: Id, j: nat)
    requires Doc(d) && a in Members(d) && a != ROOT && !Find(d, a).deleted && i < |Find(d, a).text|
    requires b in Members(d) && b != ROOT && !Find(d, b).deleted && j < |Find(d, b).text|
    requires |Join(Before(d, a))| + i == |Join(Before(d, b))| + j
    ensures a == b && i == j
  {
    SpanOfRun(d, a);
    SpanOfRun(d, b);
    SameSpan(SpansOf(Visible(d)), |Before(d, a)|, i, |Before(d, b)|, j);
  }

  /** The run in front of the position grows if any does. */
  lemma GrowsIfAny(d: Forest, id: Id, offset: nat, from: nat, peerId: string)
    requires Doc(d) && id in Members(d) && id != ROOT && !Find(d, id).deleted && offset < |Find(d, id).text|
    requires |Join(Before(d, id))| + offset == from - 1
    ensures (exists x :: Growable(d, x, from, peerId)) <==> Growable(d, id, from, peerId)
  {
    forall x | Growable(d, x, from, peerId) ensures x == id {
      OneHolder(d, x, |Find(d, x).text| - 1, id, offset);
    }
  }

  /** What typing at a position sends: nothing, text for the run that grows, or else a run of the peer's own. */
  ghost predicate Typed(sent: seq<Update>, d: Forest, from: nat, text: string, clock': Hlc)
  {
    if text == "" then sent == []
    else
      && |sent| == 1
      && match sent[0]
         case Patch(id, more) => more == text && Growable(d, id, from, clock'.peerId)
         case Put(node, _) =>
           && node.id == ToString(clock') && node.text == text && node.peerId == clock'.peerId && !node.deleted
           && !exists id :: Growable(d, id, from, clock'.peerId)
         case _ => false
  }

  /** What was sent names only runs of the peer, in the tree it leads to. */
  lemma TypedAuthored(sent: seq<Update>, d: Forest, from: nat, text: string, clock': Hlc)
    requires Doc(d) && Typed(sent, d, from, text, clock') && AllDeliverable(d, sent, clock')
    ensures Authored(sent, DeliverAll(d, sent, clock'), clock'.peerId)
  {
    if text != "" && sent[0].Patch? {
      var id := sent[0].subjectId;
      DeliverOne(d, sent[0], clock');
      assert sent == [sent[0]];
      InPlaceFind(d, id, Find(d, id).(text := Find(d, id).text + text), id);
    }
  }

  /** EXTEND_RUN when the peer types at the end of its own leaf run. */
  method TryExtend(doc: DocState, peerId: string, from: nat, text: string, ghost tree: Forest, ghost h: Hlc)
    returns (done: bool, doc': DocState, sent: seq<Update>)
    requires Repr(doc, tree) && Healthy(tree, h) && from <= |Text(tree)|
    ensures AllDeliverable(tree, sent, h) && Repr(doc', DeliverAll(tree, sent, h))
    ensures done ==> Pasted(DeliverAll(tree, sent, h), tree, from, text)
    ensures done <==> exists id :: Growable(tree, id, from, peerId)
    ensures done ==> |sent| == 1 && sent[0].Patch? && sent[0].text == text && Growable(tree, sent[0].subjectId, from, peerId)
    ensures !done ==> doc' == doc && sent == []
  {
    done, doc', sent := false, doc, [];
    if from > 0 {
      var prevRun, offset := RunBefore(doc, from, tree);
      GrowsIfAny(tree, prevRun.id, offset, from, peerId);
      var isAtEnd := offset == |prevRun.text| - 1;
      var isLeaf := |ChildrenOf(doc.children, prevRun.id)| == 0;
      if isAtEnd && prevRun.peerId == peerId && !prevRun.deleted && isLeaf {
        ExtendPastes(tree, h, prevRun.id, from, text);
        doc' := ApplyExtendRun(doc, prevRun.id, text, tree);
        done, sent := true, [Patch(prevRun.id, text)];
      }
    }
  }

  /** A run with a later stamp than all others lands right behind its parent's own characters. */
  lemma InsertPastes(d: Forest, h: Hlc, later: Hlc, node: RunNode, from: nat)
    requires Healthy(d, h) && Fits(h) && Fits(later) && Earlier(h, later)
    requires node.id == ToString(later) && !node.deleted && node.parentId in Members(d)
    requires |Join(Before(d, node.parentId) + Own(Find(d, node.parentId)))| == from
    ensures node.id !in Members(d) && Pasted(Insert(d, node), d, from, node.text)
  {
    forall x | x in Members(d) && x != ROOT ensures Less(x, node.id) {
      LaterSortsAbove(x, h, later);
    }
    SeparatorFreeIds(later);
    InsertFirst(d, node);
    InsertText(d, node);
  }

  /** Splitting the parent behind the preceding character leaves that character at its end. */
  lemma SplitBehind(d: Forest, id: Id, k: nat)
    requires Doc(d) && SplitsSpent(d) && id in Members(d) && id != ROOT && !Find(d, id).deleted
    requires 0 < k < |Find(d, id).text|
    ensures var e := Split(d, id, k);
            && Doc(e) && id in Members(e) && Text(e) == Text(d) && Anchored(e, id)
            && |Join(Before(e, id) + Own(Find(e, id)))| == |Join(Before(d, id))| + k
  {
    var t, pre, post := Find(d, id).text, Before(d, id), Behind(d, id);
    InRangeSplitIsFree(d, id, k);
    LocatedAt(d, id);
    SplitLocated(d, id, k, t, pre, post);
    SplitText(d, id, k);
    var e, right := Split(d, id, k), [Piece(SplitId(id, k), t[k..])];
    assert Located(e, id, t[..k], pre, right + post);
    LocatedUnique(e, id, t[..k], pre, right + post);
    JoinConcat(pre, Own(Find(e, id)));
    JoinOne(Piece(id, t[..k]));
  }

  /** Where a new run goes: the parent, split first if the position is inside it. */
  method ChooseParent(doc: DocState, from: nat, ghost tree: Forest, ghost h: Hlc)
    returns (parentId: Id, splitAt: Option<int>, doc': DocState, ghost tree': Forest)
    requires Repr(doc, tree) && Healthy(tree, h) && from <= |Text(tree)|
    ensures Repr(doc', tree') && Healthy(tree', h) && Text(tree') == Text(tree)
    ensures Placeable(tree, parentId) && Anchored(tree', parentId)
    ensures |Join(Before(tree', parentId) + Own(Find(tree', parentId)))| == from
    ensures tree' == SplitForPut(tree, parentId, splitAt)
    // A split is named exactly if one was made.
    ensures splitAt.Some? ==> Splittable(tree, parentId, splitAt.value)
  {
    splitAt, doc', tree' := None, doc, tree;
    if from == 0 {
      parentId := ROOT;
      assert Before(tree, ROOT) + Own(Find(tree, ROOT)) == [];
      return;
    }
    var parentRun, offset := RunBefore(doc, from, tree);
    parentId := parentRun.id;
    if offset < |parentRun.text| - 1 {
      splitAt := Some(offset + 1);
      doc', tree' := SplitParent(doc, parentId, offset + 1, from, tree, h);
    } else {
      JoinConcat(Before(tree, parentId), Own(parentRun));
      JoinOne(Piece(parentId, parentRun.text));
    }
  }

  /** SPLIT behind the character in front of the position. */
  method SplitParent(doc: DocState, id: Id, k: nat, ghost from: nat, ghost tree: Forest, ghost h: Hlc)
    returns (doc': DocState, ghost tree': Forest)
    requires Repr(doc, tree) && Healthy(tree, h) && id in Members(tree) && id != ROOT && !Find(tree, id).deleted
    requires 0 < k < |Find(tree, id).text| && |Join(Before(tree, id))| + k == from
    ensures Repr(doc', tree') && Healthy(tree', h) && Text(tree') == Text(tree) && Anchored(tree', id)
    ensures |Join(Before(tree', id) + Own(Find(tree', id)))| == from
    ensures Splittable(tree, id, k) && tree' == Split(tree, id, k)
  {
    SplitBehind(tree, id, k);
    InRangeSplitIsFree(tree, id, k);
    SplitHealthy(tree, id, k, h);
    doc' := ApplySplit(doc, id, k, tree);
    tree' := Split(tree, id, k);
  }

  /** INSERT_RUN of a fresh run, after a SPLIT if the position is inside a run. */
  method InsertNew(doc: DocState, clock: Hlc, from: nat, text: string, now: nat, ghost tree: Forest)
    returns (doc': DocState, clock': Hlc, sent: seq<Update>)
    requires Repr(doc, tree) && Healthy(tree, clock) && from <= |Text(tree)|
    requires Fits(clock) && Fits(Increment(clock, now)) && CleanPeer(clock.peerId)
    ensures clock' == Increment(clock, now)
    ensures |sent| == 1 && sent[0].Put? && sent[0].node.id == ToString(clock') && sent[0].node.text == text
    ensures sent[0].node.peerId == clock.peerId && !sent[0].node.deleted
    ensures sent[0].splitParentAt.Some? ==> Splittable(tree, sent[0].node.parentId, sent[0].splitParentAt.value)
    ensures AllDeliverable(tree, sent, clock') && Repr(doc', DeliverAll(tree, sent, clock'))
    ensures Pasted(DeliverAll(tree, sent, clock'), tree, from, text)
  {
    var parentId, splitAt;
    ghost var split;
    parentId, splitAt, doc', split := ChooseParent(doc, from, tree, clock);
    clock' := Increment(clock, now);
    var node := RunNode(ToString(clock'), text, parentId, clock.peerId, false);
    StepsForward(clock, clock, now);
    InsertPastes(split, clock, clock', node, from);
    SeparatorFreeIds(clock');
    OwnStamp(clock');
    SplitKeepsParent(tree, parentId, splitAt);
    doc' := DocReducer(doc', INSERT_RUN(node), split);
    sent := [Put(node, splitAt)];
    DeliverOne(tree, sent[0], clock');
  }

  lemma DominatedLater(d: Forest, h: Hlc, later: Hlc)
    requires Healthy(d, h) && Fits(h) && Fits(later) && Earlier(h, later)
    ensures Healthy(d, later)
  {
    forall x | x in Members(d) && x != ROOT ensures StampedBy(x, later) {
      LaterSortsAbove(x, h, later);
    }
  }

  /** The clock only ever moves to the next tick. */
  ghost predicate Ticked(clock: Hlc, clock': Hlc, now: nat)
  {
    clock' == clock || clock' == Increment(clock, now)
  }

  /** Updates that were deliverable before a tick are deliverable after it. */
  lemma TickedCarries(us: seq<Update>, d: Forest, e: Forest, clock: Hlc, clock': Hlc, now: nat)
    requires Carries(us, d, e, clock) && Healthy(d, clock) && Ticked(clock, clock', now)
    requires Fits(clock) && Fits(clock')
    ensures Carries(us, d, e, clock') && Healthy(d, clock')
  {
    StepsForward(clock, clock, now);
    if clock' != clock {
      DeliverableLater(d, us, clock, clock');
      DominatedLater(d, clock, clock');
    }
  }

  /** Inserts text at a position of the current document. */
  method InsertLocal(doc: DocState, clock: Hlc, from: nat, text: string, now: nat, ghost tree: Forest)
    returns (doc': DocState, clock': Hlc, sent: seq<Update>)
    requires Repr(doc, tree) && Healthy(tree, clock) && from <= |Text(tree)|
    requires Fits(clock) && Fits(Increment(clock, now)) && CleanPeer(clock.peerId)
    ensures Ticked(clock, clock', now) && Typed(sent, tree, from, text, clock')
    ensures AllDeliverable(tree, sent, clock') && Repr(doc', DeliverAll(tree, sent, clock'))
    ensures Pasted(DeliverAll(tree, sent, clock'), tree, from, text)
  {
    doc', clock', sent := doc, clock, [];
    if |text| > 0 {
      var done;
      done, doc', sent := TryExtend(doc, clock.peerId, from, text, tree, clock);
      if !done {
        doc', clock', sent := InsertNew(doc, clock, from, text, now, tree);
      }
    }
  }
}
