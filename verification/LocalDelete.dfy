/**
 * The bridge deletes a range run by run while reading positions from the index
 * as it was before the first delete.  These lemmas say why that is sound: what
 * is still to be deleted has not moved relative to the old walk.
 */
module LocalDelete {
  import opened Ids
  import opened RunForest
  import opened RunEffects
  import opened SplitFreshness
  import opened PositionIndex
  import opened CausalTree
  import opened Reducer
  import opened Hlc
  import opened Wire

  /**
   * From `next` on, the walk is still the old one; `front` is what now stands
   * before it.  Old position `pos` is document position `from` by now.
   */
  ghost predicate Remaining(d: Forest, walk: seq<Piece>, front: seq<Piece>, next: nat, from: nat, pos: nat)
  {
    && next <= |walk| && Visible(d) == front + walk[next..]
    && |Join(walk[..next])| <= pos
    && |Join(front)| + pos - |Join(walk[..next])| == from
  }

  ghost predicate Erased(d: Forest, start: Forest, from: nat, pos: nat)
  {
    from <= pos <= |Text(start)| && Text(d) == Text(start)[..from] + Text(start)[pos..]
  }

  /**
   * The characters of `start` from `from` up to `pos` are gone from `d`, the
   * updates sent so far say how, and the rest of the walk stands.
   */
  ghost predicate Underway(d: Forest, start: Forest, h: Hlc, sent: seq<Update>, from: nat, pos: nat, to: nat)
  {
    exists front, next :: Progress(d, start, h, sent, from, pos, to, front, next)
  }

  ghost predicate Progress(d: Forest, start: Forest, h: Hlc, sent: seq<Update>, from: nat, pos: nat, to: nat,
                           front: seq<Piece>, next: nat)
  {
    && Healthy(start, h) && Carries(sent, start, d, h) && Erased(d, start, from, pos) && OnlyDeletes(sent)
    && (pos < to ==> Remaining(d, Visible(start), front, next, from, pos))
  }

  lemma StartUnderway(d: Forest, h: Hlc, from: nat, to: nat)
    requires Healthy(d, h) && from <= |Text(d)|
    ensures Underway(d, d, h, [], from, from, to)
  {
    assert Progress(d, d, h, [], from, from, to, [], 0);
  }

  lemma DoneUnderway(d: Forest, start: Forest, h: Hlc, sent: seq<Update>, from: nat, to: nat)
    requires Underway(d, start, h, sent, from, to, to)
    ensures AllDeliverable(start, sent, h) && DeliverAll(start, sent, h) == d && Erased(d, start, from, to)
    ensures OnlyDeletes(sent)
  {
  }

  lemma JoinPrefix(walk: seq<Piece>, i: nat, j: nat)
    requires i <= j <= |walk|
    ensures |Join(walk[..j])| == |Join(walk[..i])| + |Join(walk[i..j])|
  {
    assert walk[..j] == walk[..i] + walk[i..j];
    JoinConcat(walk[..i], walk[i..j]);
  }

  lemma JoinStep(walk: seq<Piece>, i: nat)
    requires i < |walk|
    ensures |Join(walk[..i + 1])| == |Join(walk[..i])| + |walk[i].text|
  {
    JoinPrefix(walk, i, i + 1);
    assert walk[i..i + 1] == [walk[i]];
    JoinOne(walk[i]);
  }

  lemma SpanPrefix(walk: seq<Piece>, k: nat)
    requires k <= |walk|
    ensures Total(SpansOf(walk)[..k]) == |Join(walk[..k])|
  {
    assert SpansOf(walk)[..k] == SpansOf(walk[..k]);
    TotalIsTextLength(walk[..k]);
  }

  /** The run that held old position `pos` now starts `offset` characters before `from`. */
  lemma Advance(d: Forest, walk: seq<Piece>, front: seq<Piece>, next: nat, from: nat, pos: nat, k: nat, offset: nat)
    returns (front': seq<Piece>)
    requires Remaining(d, walk, front, next, from, pos)
    requires k < |walk| && offset < |walk[k].text| && |Join(walk[..k])| + offset == pos
    ensures Located(d, walk[k].id, walk[k].text, front', walk[k + 1..])
    ensures |Join(front')| + offset == from
  {
    JoinStep(walk, k);
    if k < next { JoinPrefix(walk, k + 1, next); }
    JoinPrefix(walk, next, k);
    front' := front + walk[next..k];
    JoinConcat(front, walk[next..k]);
    assert walk[next..] == walk[next..k] + [walk[k]] + walk[k + 1..];
  }

  /** Deleting from that run removes the characters the editor removed, and no more. */
  lemma CutHere(d: Forest, h: Hlc, id: Id, t: string, front: seq<Piece>, tail: seq<Piece>,
                offset: nat, count: nat, from: nat, text: string, pos: nat)
    requires Healthy(d, h) && Located(d, id, t, front, tail)
    requires |Join(front)| + offset == from <= pos
    requires 0 < count && offset + count <= |t| && pos + count <= |text|
    requires Text(d) == text[..from] + text[pos..]
    ensures Deletable(d, id, offset, count)
    ensures Healthy(DeleteRange(d, id, offset, count), h)
    ensures Visible(DeleteRange(d, id, offset, count)) == front + Leftover(id, t, offset, count) + tail
    ensures Text(DeleteRange(d, id, offset, count)) == text[..from] + text[pos + count..]
  {
    LocatedUnique(d, id, t, front, tail);
    SpentCutsFree(d, id, offset, count);
    DeleteLocated(d, id, offset, count, t, front, tail);
    DeleteHealthy(d, id, offset, count, h);
    LeftoverSplice(front, id, t, offset, count, tail);
    CutTwice(text, from, pos, count);
  }

  lemma CutTwice(text: string, from: nat, pos: nat, count: nat)
    requires from <= pos && pos + count <= |text|
    ensures var s := text[..from] + text[pos..];
            s[..from] + s[from + count..] == text[..from] + text[pos + count..]
  {
  }

  /** A run deleted up to its end leaves the rest of the old walk in place. */
  lemma NextRun(d: Forest, walk: seq<Piece>, front: seq<Piece>, k: nat, offset: nat, from: nat, pos: nat)
    returns (front': seq<Piece>)
    requires k < |walk| && offset < |walk[k].text| && |Join(walk[..k])| + offset == pos
    requires |Join(front)| + offset == from
    requires Visible(d) == front + Leftover(walk[k].id, walk[k].text, offset, |walk[k].text| - offset) + walk[k + 1..]
    ensures Remaining(d, walk, front', k + 1, from, pos + |walk[k].text| - offset)
  {
    var piece := walk[k];
    var left := Leftover(piece.id, piece.text, offset, |piece.text| - offset);
    front' := front + left;
    JoinConcat(front, left);
    JoinStep(walk, k);
    LeftoverText(piece.id, piece.text, offset, |piece.text| - offset);
  }

  function Min(a: int, b: int): int { if a < b then a else b }

  /** One step of the deletion, at the run that the old index names for `pos`. */
  lemma StepUnderway(d: Forest, start: Forest, h: Hlc, sent: seq<Update>, from: nat, pos: nat, to: nat,
                     k: nat, id: Id, offset: nat, count: nat)
    requires Underway(d, start, h, sent, from, pos, to) && pos < to <= |Text(start)|
    requires k < |Visible(start)| && offset < |Visible(start)[k].text| && id == Visible(start)[k].id
    requires |Join(Visible(start)[..k])| + offset == pos
    requires count == Min(|Visible(start)[k].text| - offset, to - pos)
    ensures Underway(DeleteRange(d, id, offset, count), start, h, sent + [Delete(id, offset, count)],
                     from, pos + count, to)
  {
    var front, next :| Progress(d, start, h, sent, from, pos, to, front, next);
    var walk, u := Visible(start), Delete(id, offset, count);
    CarriesHealthy(sent, start, d, h);
    front := Advance(d, walk, front, next, from, pos, k, offset);
    CutHere(d, h, walk[k].id, walk[k].text, front, walk[k + 1..], offset, count, from, Text(start), pos);
    CarriesOneMore(sent, u, start, d, h);
    if offset + count == |walk[k].text| {
      front := NextRun(Deliver(d, u), walk, front, k, offset, from, pos);
    }
    assert Progress(Deliver(d, u), start, h, sent + [u], from, pos + count, to, front, k + 1);
  }

  /** The run at an old position, as a place in the old walk. */
  method RunAt(index: Index, pos: nat, to: nat, ghost walk: seq<Piece>)
    returns (id: Id, offset: nat, count: nat, ghost k: nat)
    requires index.spans == SpansOf(walk) && index.totalLength == |Join(walk)| && pos < to <= |Join(walk)|
    ensures k < |walk| && id == walk[k].id && offset < |walk[k].text|
    ensures |Join(walk[..k])| + offset == pos && count == Min(|walk[k].text| - offset, to - pos)
  {
    TotalIsTextLength(walk);
    var lookup := LookupPosition(index, pos);
    var hit := lookup.value;
    id, offset, k := hit.runId, hit.offset, hit.spanIndex;
    count := Min(index.spans[hit.spanIndex].length - offset, to - pos);
    SpanPrefix(walk, k);
  }

  /** One DELETE_RANGE: the part of the deletion that lies in the run at old position `pos`. */
  method DeleteNext(doc: DocState, index: Index, pos: nat, to: nat, sent: seq<Update>,
                    ghost tree: Forest, ghost start: Forest, ghost h: Hlc, ghost from: nat)
    returns (doc': DocState, sent': seq<Update>, count: nat, ghost tree': Forest)
    requires InHand(doc, tree, start, h, sent, from, pos, to) && Indexes(index, start) && pos < to <= |Text(start)|
    ensures InHand(doc', tree', start, h, sent', from, pos + count, to) && 0 < count <= to - pos
  {
    var id, offset;
    ghost var k;
    id, offset, count, k := RunAt(index, pos, to, Visible(start));
    StepUnderway(tree, start, h, sent, from, pos, to, k, id, offset, count);
    doc' := ApplyDeleteRange(doc, id, offset, count, tree);
    tree' := DeleteRange(tree, id, offset, count);
    sent' := sent + [Delete(id, offset, count)];
  }

  /** Deletes [from, to) run by run, reading positions from the index as it was at the start. */
  method DeleteRuns(doc: DocState, from: nat, to: nat, ghost tree: Forest, ghost h: Hlc)
    returns (doc': DocState, sent: seq<Update>, ghost tree': Forest)
    requires InHand(doc, tree, tree, h, [], from, from, to)
    requires Indexes(doc.index, tree) && from <= to <= |Text(tree)|
    ensures InHand(doc', tree', tree, h, sent, from, to, to)
  {
    var index, pos := doc.index, from;
    doc', sent, tree' := doc, [], tree;
    while pos < to
      invariant from <= pos <= to && InHand(doc', tree', tree, h, sent, from, pos, to)
    {
      var count;
      doc', sent, count, tree' := DeleteNext(doc', index, pos, to, sent, tree', tree, h, from);
      pos := pos + count;
    }
  }

  /**
   * A deletion on its way, with the state that represents it.  The quantifier
   * keeps this one proposition, so that the loop passes it on as a whole.
   */
  ghost predicate InHand(doc: DocState, d: Forest, start: Forest, h: Hlc, sent: seq<Update>, from: nat, pos: nat, to: nat)
  {
    exists e :: e == d && Repr(doc, e) && Underway(e, start, h, sent, from, pos, to)
  }

  lemma StartInHand(doc: DocState, d: Forest, h: Hlc, from: nat, to: nat)
    requires Repr(doc, d) && Healthy(d, h) && from <= |Text(d)|
    ensures InHand(doc, d, d, h, [], from, from, to)
  {
    StartUnderway(d, h, from, to);
  }

  /** What was sent says what happened: exactly [from, to) is gone. */
  method DeleteLocal(doc: DocState, from: nat, to: nat, ghost tree: Forest, ghost h: Hlc)
    returns (doc': DocState, sent: seq<Update>)
    requires Repr(doc, tree) && Healthy(tree, h) && from <= to <= |Text(tree)|
    ensures AllDeliverable(tree, sent, h) && Repr(doc', DeliverAll(tree, sent, h))
    ensures Erased(DeliverAll(tree, sent, h), tree, from, to) && OnlyDeletes(sent)
  {
    ghost var tree';
    StartInHand(doc, tree, h, from, to);
    doc', sent, tree' := DeleteRuns(doc, from, to, tree, h);
    DoneUnderway(tree', tree, h, sent, from, to);
  }
}
