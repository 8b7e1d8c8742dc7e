/** The bridge: one editor change becomes deletes, then an extended or a new run. */
module Bridge {
  import opened RunForest
  import opened CausalTree
  import opened Hlc
  import opened Wire
  import LocalDelete
  import LocalInsert

  /** `d` reads as `start` with [from, to) replaced. */
  ghost predicate Replaced(d: Forest, start: Forest, from: nat, to: nat, text: string)
  {
    from <= to <= |Text(start)| && Text(d) == Text(start)[..from] + text + Text(start)[to..]
  }

  /** Deletes, and behind them one update with the text, if there is any. */
  ghost predicate DeletesThenText(sent: seq<Update>, text: string)
  {
    exists k :: 0 <= k <= |sent| && OnlyDeletes(sent[..k]) && |sent| == k + (if text == "" then 0 else 1)
                && (text != "" ==> (sent[k].Patch? && sent[k].text == text) || (sent[k].Put? && sent[k].node.text == text))
  }

  lemma ErasedThenPasted(start: Forest, mid: Forest, end: Forest, from: nat, to: nat, text: string)
    requires LocalDelete.Erased(mid, start, from, to) && LocalInsert.Pasted(end, mid, from, text)
    ensures Replaced(end, start, from, to, text)
  {
  }

  /** Tree and clock after the change, and the updates that say it to other peers. */
  method Change(doc: DocState, clock: Hlc, from: nat, to: nat, text: string, now: nat, ghost tree: Forest)
    returns (doc': DocState, clock': Hlc, sent: seq<Update>)
    requires Repr(doc, tree) && Healthy(tree, clock) && from <= to <= |Text(tree)|
    requires Fits(clock) && Fits(Increment(clock, now)) && CleanPeer(clock.peerId)
    ensures LocalInsert.Ticked(clock, clock', now)
    ensures AllDeliverable(tree, sent, clock') && Repr(doc', DeliverAll(tree, sent, clock'))
    ensures Replaced(DeliverAll(tree, sent, clock'), tree, from, to, text)
    ensures Authored(sent, DeliverAll(tree, sent, clock'), clock.peerId) && DeletesThenText(sent, text)
  {
    var more;
    doc', sent := LocalDelete.DeleteLocal(doc, from, to, tree, clock);
    ghost var mid := DeliverAll(tree, sent, clock);
    CarriesHealthy(sent, tree, mid, clock);
    doc', clock', more := LocalInsert.InsertLocal(doc', clock, from, text, now, mid);
    LocalInsert.TickedCarries(sent, tree, mid, clock, clock', now);
    DeliverConcat(tree, sent, more, clock');
    ErasedThenPasted(tree, mid, DeliverAll(mid, more, clock'), from, to, text);
    LocalInsert.TypedAuthored(more, mid, from, text, clock');
    assert (sent + more)[..|sent|] == sent;
    sent := sent + more;
  }

  /** A change leaves a healthy tree under the new clock. */
  lemma ChangeHealthy(sent: seq<Update>, tree: Forest, tree': Forest, clock: Hlc, clock': Hlc, now: nat)
    requires Healthy(tree, clock) && LocalInsert.Ticked(clock, clock', now) && Fits(clock) && Fits(clock')
    requires Carries(sent, tree, tree', clock')
    ensures Healthy(tree', clock')
  {
    DeliverableEmpty(tree, clock);
    LocalInsert.TickedCarries([], tree, tree, clock, clock', now);
    CarriesHealthy(sent, tree, tree', clock');
  }

  lemma DeliverableEmpty(d: Forest, h: Hlc)
    ensures Carries([], d, d, h)
  {
  }
}
