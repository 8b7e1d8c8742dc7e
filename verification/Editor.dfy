/**
 * One editing peer: its document state, its clock and the text its editor
 * shows.  Local changes go through the bridge, which turns a plain text
 * replacement into reducer actions; remote actions go through the relay.
 */
module Editor {
  import opened RunForest
  import opened SplitFreshness
  import opened CausalTree
  import opened Reducer
  import opened Hlc
  import opened Wire
  import opened Concurrency
  import Bridge
  import LocalInsert
  import Relay

  class Peer {
    const peerId: string
    var doc: DocState
    var clock: Hlc
    var view: string
    var seen: set<string>
    /** The tree the document state stands for. */
    ghost var tree: Forest

    /**
     * State, index and tree agree, the editor shows the tree's text, and no id
     * of the tree can collide with what this peer does next.
     */
    ghost predicate InStep()
      reads this
    {
      && Repr(doc, tree) && view == Text(tree) && Healthy(tree, clock)
      && Fits(clock) && clock.peerId == peerId && CleanPeer(peerId)
    }

    /** What remains whatever other peers send: the maps hold the tree, the index lists its visible runs. */
    ghost predicate Held()
      reads this
    {
      Keeps(doc, tree) && clock.peerId == peerId
    }

    constructor (peerId: string, now: nat)
      requires CleanPeer(peerId) && Fits(Hlc(now, 0, peerId))
      ensures InStep() && tree == EMPTY && view == "" && seen == {} && this.peerId == peerId
    {
      var empty := CreateDocState();
      this.peerId := peerId;
      doc, clock, view, seen, tree := empty, Hlc(now, 0, peerId), "", {}, EMPTY;
      new;
      EmptySpent();
    }

    /**
     * The user replaces [from, to) by `text`.  The editor changes first; the
     * bridge then has to make the tree say the same.
     */
    method LocalChange(from: nat, to: nat, text: string, now: nat) returns (sent: seq<Update>)
      requires InStep() && from <= to <= |view| && Fits(Increment(clock, now))
      modifies this
      ensures InStep() && seen == old(seen)
      ensures view == old(view)[..from] + text + old(view)[to..]
      ensures LocalInsert.Ticked(old(clock), clock, now)
      // A peer that still has the old tree reaches the new one by applying what was sent.
      ensures Carries(sent, old(tree), tree, clock)
      // Text goes into runs of this peer only, in one update behind the deletes.
      ensures Authored(sent, tree, peerId) && Bridge.DeletesThenText(sent, text)
    {
      view := view[..from] + text + view[to..];
      ghost var start, before := tree, clock;
      doc, clock, sent := Bridge.Change(doc, clock, from, to, text, now, start);
      tree := DeliverAll(start, sent, clock);
      Bridge.ChangeHealthy(sent, start, tree, before, clock, now);
    }

    /**
     * A remote action: ignored if own or seen, else merged into clock, tree and
     * view.  The tree follows every action whose parents are there; the view
     * stays in step with it if every update is deliverable.
     */
    method HandleAction(action: Action, now: nat)
      requires Held()
      requires action.actorId != peerId && action.id !in seen ==> AllPresent(tree, action.updates)
      modifies this
      ensures Held()
      ensures action.actorId == peerId || action.id in old(seen) ==>
                doc == old(doc) && tree == old(tree) && view == old(view) && seen == old(seen) && clock == old(clock)
      ensures action.actorId != peerId && action.id !in old(seen) ==>
                && tree == DeliverEach(old(tree), action.updates)
                && seen == old(seen) + {action.id} && clock == Receive(old(clock), action.hlc, now)
      ensures old(InStep()) && action.actorId != peerId && action.id !in old(seen) && Timely(old(tree), old(clock), action, now)
              ==> InStep()
    {
      if action.actorId == peerId || action.id in seen { return; }
      seen := seen + {action.id};
      ghost var before := clock;
      clock := Receive(clock, action.hlc, now);
      if old(InStep()) && Timely(tree, before, action, now) { TimelyLater(tree, before, action, now); }
      doc, view := Relay.ApplyAll(doc, view, action.updates, tree, clock);
      tree := DeliverEach(tree, action.updates);
    }
  }

  /** Clocks within their widths, and every update deliverable. */
  ghost predicate Timely(tree: Forest, clock: Hlc, action: Action, now: nat)
  {
    && Fits(action.hlc) && Fits(Receive(clock, action.hlc, now))
    && AllDeliverable(tree, action.updates, action.hlc)
  }

  lemma TimelyLater(tree: Forest, clock: Hlc, action: Action, now: nat)
    requires Healthy(tree, clock) && Fits(clock) && Timely(tree, clock, action, now)
    ensures var later := Receive(clock, action.hlc, now);
            Healthy(tree, later) && AllDeliverable(tree, action.updates, later)
  {
    var later := Receive(clock, action.hlc, now);
    StepsForward(clock, action.hlc, now);
    DeliverableLater(tree, action.updates, action.hlc, later);
    LocalInsert.DominatedLater(tree, clock, later);
  }

  /**
   * Two peers with the same tree: after one edits and the other handles the
   * resulting action, they have the same tree and show the same text again.
   */
  method Exchange(a: Peer, b: Peer, from: nat, to: nat, text: string, id: string, now: nat, later: nat)
    requires a != b && a.InStep() && b.InStep() && a.tree == b.tree
    requires a.peerId != b.peerId && id !in b.seen
    requires from <= to <= |a.view| && Fits(Increment(a.clock, now))
    requires forall h: Hlc :: h == a.clock || h == Increment(a.clock, now) ==> Fits(Receive(b.clock, h, later))
    modifies a, b
    ensures a.InStep() && b.InStep() && a.tree == b.tree
    ensures a.view == b.view == old(a.view)[..from] + text + old(a.view)[to..]
  {
    ghost var start := a.tree;
    var sent := a.LocalChange(from, to, text, now);
    DeliverableIsPresent(start, sent, a.clock);
    b.HandleAction(Action(id, a.peerId, a.clock, sent), later);
  }

  /**
   * What each peer sent since they last had the same tree, made without the
   * other: puts that needed no split, under different ids, deletes of whole
   * runs, and text for runs that the other neither deletes nor extends.
   */
  ghost predicate Concurrent(start: Forest, us: seq<Update>, vs: seq<Update>)
  {
    Doc(start) && AllPlain(start, us) && AllPlain(start, vs) && AllApart(us, vs) && AllApart(vs, us)
  }

  /**
   * Two peers edit at the same time, any number of changes each, and then handle
   * each other's action.  They have the same tree again; and if neither deleted
   * a run the other typed behind, they are in step and show the same text.
   */
  method Cross(a: Peer, b: Peer, ghost start: Forest, sentA: seq<Update>, sentB: seq<Update>,
               idA: string, idB: string, now: nat)
    requires a != b && a.InStep() && b.InStep() && a.peerId != b.peerId && idA !in b.seen && idB !in a.seen
    requires Carries(sentA, start, a.tree, a.clock) && Carries(sentB, start, b.tree, b.clock)
    requires Concurrent(start, sentA, sentB)
    requires Fits(Receive(a.clock, b.clock, now)) && Fits(Receive(b.clock, a.clock, now))
    modifies a, b
    ensures a.Held() && b.Held() && a.tree == b.tree
    ensures SparesAll(sentA, sentB) && SparesAll(sentB, sentA) ==> a.InStep() && b.InStep() && a.view == b.view
  {
    var fromA := Action(idA, a.peerId, a.clock, sentA);
    var fromB := Action(idB, b.peerId, b.clock, sentB);
    DeliverableIsPresent(start, sentA, a.clock);
    DeliverableIsPresent(start, sentB, b.clock);
    ListsCommute(start, sentA, sentB);
    if SparesAll(sentA, sentB) && SparesAll(sentB, sentA) {
      AllDeliverableAfter(start, sentA, sentB, a.clock);
      AllDeliverableAfter(start, sentB, sentA, b.clock);
    }
    b.HandleAction(fromA, now);
    a.HandleAction(fromB, now);
  }
}
