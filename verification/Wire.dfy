/** The updates peers exchange, and what delivering one does to a tree. */
module Wire {
  import opened Options
  import opened Ids
  import opened RunForest
  import opened SplitFreshness
  import opened PositionIndex
  import opened Reducer
  import opened Hlc

  /** One mutation of one run; `Unreadable` lacks the field its method needs. */
  datatype Update =
    | Put(node: RunNode, splitParentAt: Option<int>)
    | Delete(subjectId: Id, offset: int, count: int)
    | Patch(subjectId: Id, text: string)
    | Unreadable

  /** The atomic sync unit. */
  datatype Action = Action(id: string, actorId: string, hlc: Hlc, updates: seq<Update>)

  /** The parent after the split the sender made, if the receiver still has to make it. */
  function SplitForPut(d: Forest, parent: Id, at: Option<int>): (e: Forest)
    requires parent in Members(d)
    ensures parent in Members(e)
  {
    if at.Some? && |Find(d, parent).text| > at.value then
      SplitHasParent(d, parent, at.value);
      Split(d, parent, at.value)
    else d
  }

  lemma SplitHasParent(d: Forest, parent: Id, k: int)
    requires parent in Members(d)
    ensures parent in Members(Split(d, parent, k))
  {
    if Splittable(d, parent, k) {
      ReplaceHasRun(d, parent, LeftHalf(Find(d, parent), k), SplitKids(d, parent, k));
    }
  }

  predicate Patchable(d: Forest, id: Id)
  {
    id in Members(d) && id != ROOT && !Find(d, id).deleted && Find(d, id).text != ""
  }

  /** The tree after an update was delivered. */
  function Deliver(d: Forest, u: Update): Forest
    requires u.Put? ==> u.node.id in Members(d) || u.node.parentId in Members(d)
  {
    match u
    case Put(node, at) =>
      if node.id in Members(d) then d else Insert(SplitForPut(d, node.parentId, at), node)
    case Delete(id, offset, count) => DeleteRange(d, id, offset, count)
    case Patch(id, text) => if Patchable(d, id) then Extend(d, id, text) else d
    case Unreadable => d
  }

  /** A delete that edits tree and view alike, or neither. */
  predicate CleanDelete(d: Forest, id: Id, offset: int, count: int)
  {
    !Reaches(d, id, offset) || count == 0 || Deletable(d, id, offset, count)
  }

  /** What a receiver needs of an update for its tree, index and view to stay in step. */
  ghost predicate Deliverable(d: Forest, u: Update, h: Hlc)
  {
    match u
    case Put(node, at) =>
      || node.id in Members(d)
      || (Placeable(d, node.parentId) && !node.deleted && !HasSeparator(node.id) && StampedBy(node.id, h))
    case Delete(id, offset, count) => CleanDelete(d, id, offset, count)
    case Patch(id, text) => Patchable(d, id) ==> RoomFor(d, id, |text|)
    case Unreadable => true
  }

  ghost predicate AllDeliverable(d: Forest, us: seq<Update>, h: Hlc)
    decreases |us|
  {
    us != [] ==> Deliverable(d, us[0], h) && AllDeliverable(Deliver(d, us[0]), us[1..], h)
  }

  ghost function DeliverAll(d: Forest, us: seq<Update>, h: Hlc): Forest
    requires AllDeliverable(d, us, h)
    decreases |us|
  {
    if us == [] then d else DeliverAll(Deliver(d, us[0]), us[1..], h)
  }

  /** A put names a run that is there, or a parent that is. */
  predicate Present(d: Forest, u: Update)
  {
    u.Put? ==> u.node.id in Members(d) || u.node.parentId in Members(d)
  }

  predicate AllPresent(d: Forest, us: seq<Update>)
    decreases |us|
  {
    us != [] ==> Present(d, us[0]) && AllPresent(Deliver(d, us[0]), us[1..])
  }

  /** The tree after any updates whose parents are there, deliverable or not. */
  function DeliverEach(d: Forest, us: seq<Update>): Forest
    requires AllPresent(d, us)
    decreases |us|
  {
    if us == [] then d else DeliverEach(Deliver(d, us[0]), us[1..])
  }

  lemma {:induction false} DeliverableIsPresent(d: Forest, us: seq<Update>, h: Hlc)
    requires AllDeliverable(d, us, h)
    ensures AllPresent(d, us) && DeliverEach(d, us) == DeliverAll(d, us, h)
    decreases |us|
  {
    if us != [] { DeliverableIsPresent(Deliver(d, us[0]), us[1..], h); }
  }

  lemma {:induction false} DeliverConcat(d: Forest, us: seq<Update>, vs: seq<Update>, h: Hlc)
    requires AllDeliverable(d, us, h) && AllDeliverable(DeliverAll(d, us, h), vs, h)
    ensures AllDeliverable(d, us + vs, h)
    ensures DeliverAll(d, us + vs, h) == DeliverAll(DeliverAll(d, us, h), vs, h)
    decreases |us|
  {
    if us == [] {
      assert us + vs == vs;
    } else {
      assert (us + vs)[1..] == us[1..] + vs;
      DeliverConcat(Deliver(d, us[0]), us[1..], vs, h);
    }
  }

  lemma DeliverOne(d: Forest, u: Update, h: Hlc)
    requires Deliverable(d, u, h)
    ensures AllDeliverable(d, [u], h) && DeliverAll(d, [u], h) == Deliver(d, u)
  {
    assert [u][1..] == [];
    assert AllDeliverable(Deliver(d, u), [], h);
  }

  predicate OnlyDeletes(us: seq<Update>)
  {
    forall i :: 0 <= i < |us| ==> us[i].Delete?
  }

  /** Text goes into runs of its own author, and new runs carry the author's name. */
  predicate Authored(us: seq<Update>, d: Forest, peerId: string)
  {
    forall i :: 0 <= i < |us| ==>
      match us[i]
      case Patch(id, _) => id in Members(d) && Find(d, id).peerId == peerId
      case Put(node, _) => node.peerId == peerId
      case _ => true
  }

  /** Delivering `us` one by one takes the tree `d` to `e`. */
  ghost predicate Carries(us: seq<Update>, d: Forest, e: Forest, h: Hlc)
  {
    AllDeliverable(d, us, h) && DeliverAll(d, us, h) == e
  }

  lemma CarriesOneMore(us: seq<Update>, u: Update, d: Forest, e: Forest, h: Hlc)
    requires Carries(us, d, e, h) && Deliverable(e, u, h)
    ensures Carries(us + [u], d, Deliver(e, u), h)
  {
    DeliverOne(e, u, h);
    DeliverConcat(d, us, [u], h);
  }

  /** Deliverability only improves as the clock advances. */
  lemma {:induction false} DeliverableLater(d: Forest, us: seq<Update>, h: Hlc, later: Hlc)
    requires AllDeliverable(d, us, h) && Fits(h) && Fits(later) && Earlier(h, later)
    ensures AllDeliverable(d, us, later) && DeliverAll(d, us, later) == DeliverAll(d, us, h)
    decreases |us|
  {
    if us != [] {
      if us[0].Put? && us[0].node.id !in Members(d) {
        LaterSortsAbove(us[0].node.id, h, later);
      }
      DeliverableLater(Deliver(d, us[0]), us[1..], h, later);
    }
  }

  // ----- clock dominance

  /** Every run carries a stamp no later than the clock. */
  ghost predicate Dominated(d: Forest, h: Hlc)
  {
    forall x :: x in Members(d) && x != ROOT ==> StampedBy(x, h)
  }

  /** No id of the tree will ever collide with what its peer does next. */
  ghost predicate Collisionless(d: Forest, h: Hlc)
  {
    SplitsSpent(d) && Dominated(d, h)
  }

  ghost predicate Healthy(d: Forest, h: Hlc)
  {
    Doc(d) && Collisionless(d, h)
  }

  lemma SplitHealthy(d: Forest, id: Id, k: int, h: Hlc)
    requires Healthy(d, h)
    ensures Healthy(Split(d, id, k), h)
  {
    SplitDoc(d, id, k);
    SplitSpent(d, id, k);
    if Splittable(d, id, k) {
      SplitKeepsStamp(id, k, h);
    }
  }

  lemma InsertHealthy(d: Forest, node: RunNode, h: Hlc)
    requires Healthy(d, h) && node.parentId in Members(d)
    requires !HasSeparator(node.id) && StampedBy(node.id, h)
    ensures Healthy(Insert(d, node), h)
  {
    InsertDoc(d, node);
    InsertSpent(d, node);
  }

  lemma DeleteHealthy(d: Forest, id: Id, offset: int, count: int, h: Hlc)
    requires Healthy(d, h)
    ensures Healthy(DeleteRange(d, id, offset, count), h)
  {
    DeleteSpent(d, id, offset, count);
    if Deletable(d, id, offset, count) {
      var right := SplitId(id, offset);
      SplitHealthy(d, id, count, h);
      SplitHealthy(d, id, offset, h);
      SplitHealthy(Split(d, id, offset), right, count, h);
      SplitIdHasSeparator(id, offset);
      TombstoneSpent(d, id);
      TombstoneSpent(Split(d, id, count), id);
      TombstoneSpent(Split(d, id, offset), right);
      TombstoneSpent(Split(Split(d, id, offset), right, count), right);
    }
  }

  lemma ExtendHealthy(d: Forest, id: Id, text: string, h: Hlc)
    requires Healthy(d, h) && Patchable(d, id) && RoomFor(d, id, |text|)
    ensures Healthy(Extend(d, id, text), h)
  {
    ExtendSpentExactly(d, id, text);
    InPlaceDoc(d, id, Find(d, id).(text := Find(d, id).text + text));
  }

  lemma SplitKeepsParent(d: Forest, parent: Id, at: Option<int>)
    requires Doc(d) && parent in Members(d)
    ensures Doc(SplitForPut(d, parent, at))
    ensures Members(d) <= Members(SplitForPut(d, parent, at))
    ensures Placeable(d, parent) ==> Placeable(SplitForPut(d, parent, at), parent)
  {
    if at.Some? {
      SplitDoc(d, parent, at.value);
      if Splittable(d, parent, at.value) {
        SplitKidsShape(d, parent, at.value);
        ReplaceInside(d, parent, LeftHalf(Find(d, parent), at.value), SplitKids(d, parent, at.value), parent);
      }
    }
  }

  /** Delivering keeps the tree healthy. */
  lemma DeliverHealthy(d: Forest, u: Update, h: Hlc)
    requires Healthy(d, h) && Deliverable(d, u, h)
    ensures Healthy(Deliver(d, u), h)
  {
    match u
    case Put(node, at) =>
      if node.id !in Members(d) {
        SplitKeepsParent(d, node.parentId, at);
        if at.Some? { SplitHealthy(d, node.parentId, at.value, h); }
        InsertHealthy(SplitForPut(d, node.parentId, at), node, h);
      }
    case Delete(id, offset, count) => DeleteHealthy(d, id, offset, count, h);
    case Patch(id, text) => if Patchable(d, id) { ExtendHealthy(d, id, text, h); }
    case Unreadable =>
  }

  lemma {:induction false} CarriesHealthy(us: seq<Update>, d: Forest, e: Forest, h: Hlc)
    requires Carries(us, d, e, h) && Healthy(d, h)
    ensures Healthy(e, h)
    decreases |us|
  {
    if us != [] {
      DeliverHealthy(d, us[0], h);
      CarriesHealthy(us[1..], Deliver(d, us[0]), e, h);
    }
  }
}
