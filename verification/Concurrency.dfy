/**
 * Updates that two peers make at the same time: puts that need no split, text
 * appended to runs and deletes of whole runs can be delivered in either order.
 */
module Concurrency {
  import opened Ids
  import opened RunForest
  import opened SplitFreshness
  import opened Reducer
  import opened Hlc
  import opened Wire
  import opened Convergence

  /** A put of a clock id without a split, text for a run that takes it, or a delete of a whole run. */
  ghost predicate Plain(d: Forest, u: Update)
  {
    match u
    case Put(node, at) => at.None? && node.parentId in Members(d) && !HasSeparator(node.id)
    case Delete(id, offset, count) => id in Members(d) && offset == 0 && 0 < count == |Find(d, id).text|
    case Patch(id, _) => Patchable(d, id)
    case Unreadable => true
  }

  /** The run an update changes. */
  predicate Changes(u: Update, id: Id)
  {
    (u.Delete? || u.Patch?) && u.subjectId == id
  }

  /** Not two puts under one id, and no text for a run that the other deletes or extends. */
  predicate Apart(u: Update, v: Update)
  {
    && (u.Put? && v.Put? ==> u.node.id != v.node.id)
    && (u.Patch? ==> !Changes(v, u.subjectId)) && (v.Patch? ==> !Changes(u, v.subjectId))
  }

  /** What an update makes of a run that is there. */
  function Marked(run: RunNode, u: Update): RunNode
  {
    if !Changes(u, run.id) then run
    else if u.Delete? then run.(deleted := true) else run.(text := run.text + u.text)
  }

  /** The ids after a plain update. */
  function Grown(ids: set<Id>, u: Update): set<Id>
  {
    if u.Put? then ids + {u.node.id} else ids
  }

  /** A plain update marks the runs that are there and adds at most its own. */
  lemma PlainStep(d: Forest, u: Update)
    requires Doc(d) && Plain(d, u)
    ensures Doc(Deliver(d, u)) && Members(Deliver(d, u)) == Grown(Members(d), u)
    ensures forall x :: x in Members(d) ==> Find(Deliver(d, u), x) == Marked(Find(d, x), u)
    ensures u.Put? && u.node.id !in Members(d) ==> Find(Deliver(d, u), u.node.id) == u.node
  {
    match u
    case Put(node, _) =>
      InsertDoc(d, node);
      if node.id !in Members(d) {
        InsertNewFind(d, node);
        forall x | x in Members(d) ensures Find(Insert(d, node), x) == Find(d, x) { InsertFind(d, node, x); }
      }
    case Delete(id, _, _) => WholeDelete(d, id);
    case Patch(id, text) => Appended(d, id, text);
    case Unreadable =>
  }

  lemma Appended(d: Forest, id: Id, text: string)
    requires Doc(d) && Patchable(d, id)
    ensures var e := Extend(d, id, text);
            && Doc(e) && Members(e) == Members(d)
            && forall x :: x in Members(d) ==>
                 Find(e, x) == if x == id then Find(d, x).(text := Find(d, x).text + text) else Find(d, x)
  {
    var run := Find(d, id).(text := Find(d, id).text + text);
    InPlaceDoc(d, id, run);
    forall x | x in Members(d) ensures Find(Extend(d, id, text), x) == if x == id then run else Find(d, x) {
      InPlaceFind(d, id, run, x);
    }
  }

  lemma WholeDelete(d: Forest, id: Id)
    requires Doc(d) && id in Members(d) && Find(d, id).text != ""
    ensures var e := DeleteRange(d, id, 0, |Find(d, id).text|);
            && Doc(e) && Members(e) == Members(d)
            && forall x :: x in Members(d) ==>
                 Find(e, x) == if x == id then Find(d, x).(deleted := true) else Find(d, x)
  {
    var run := Find(d, id).(deleted := true);
    if !Find(d, id).deleted {
      InPlaceDoc(d, id, run);
      forall x | x in Members(d)
        ensures Find(Tombstone(d, id), x) == if x == id then run else Find(d, x)
      {
        InPlaceFind(d, id, run, x);
      }
    }
  }

  /** What is plain stays plain when another plain update comes first. */
  lemma PlainKept(d: Forest, u: Update, v: Update)
    requires Doc(d) && Plain(d, u) && Plain(d, v) && Apart(u, v)
    ensures Plain(Deliver(d, u), v)
  {
    PlainStep(d, u);
  }

  /** A tree that both updates left: old runs marked by both, and their own runs. */
  ghost predicate LeftBy(e: Forest, d: Forest, u: Update, v: Update)
  {
    && Doc(e) && Members(e) == Grown(Grown(Members(d), u), v)
    && (forall x :: x in Members(d) ==> Find(e, x) == Marked(Marked(Find(d, x), u), v))
    && (u.Put? && u.node.id !in Members(d) ==> Find(e, u.node.id) == u.node)
    && (v.Put? && v.node.id !in Members(d) ==> Find(e, v.node.id) == v.node)
  }

  lemma PlainBoth(d: Forest, u: Update, v: Update)
    requires Doc(d) && Plain(d, u) && Plain(d, v) && Apart(u, v)
    ensures Plain(Deliver(d, u), v) && LeftBy(Deliver(Deliver(d, u), v), d, u, v)
  {
    PlainKept(d, u, v);
    PlainStep(d, u);
    PlainStep(Deliver(d, u), v);
  }

  lemma MarksCommute(run: RunNode, u: Update, v: Update)
    requires Apart(u, v)
    ensures Marked(Marked(run, u), v) == Marked(Marked(run, v), u)
  {
  }

  lemma LeftBySame(d: Forest, u: Update, v: Update, e: Forest, f: Forest)
    requires LeftBy(e, d, u, v) && LeftBy(f, d, v, u) && Apart(u, v)
    ensures e == f
  {
    forall x | x in Members(e) ensures Find(e, x) == Find(f, x) {
      if x in Members(d) {
        MarksCommute(Find(d, x), u, v);
      }
    }
    SameRunsSameTree(e, f);
  }

  /** Two plain updates commute. */
  lemma PlainCommute(d: Forest, u: Update, v: Update)
    requires Doc(d) && Plain(d, u) && Plain(d, v) && Apart(u, v)
    ensures Plain(Deliver(d, u), v) && Plain(Deliver(d, v), u)
    ensures Deliver(Deliver(d, u), v) == Deliver(Deliver(d, v), u)
  {
    PlainBoth(d, u, v);
    PlainBoth(d, v, u);
    LeftBySame(d, u, v, Deliver(Deliver(d, u), v), Deliver(Deliver(d, v), u));
  }

  // ----- lists of plain updates

  ghost predicate AllPlain(d: Forest, us: seq<Update>)
    decreases |us|
  {
    us != [] ==> Plain(d, us[0]) && AllPlain(Deliver(d, us[0]), us[1..])
  }

  predicate ApartFrom(u: Update, vs: seq<Update>)
  {
    forall i :: 0 <= i < |vs| ==> Apart(u, vs[i])
  }

  predicate AllApart(us: seq<Update>, vs: seq<Update>)
  {
    forall i :: 0 <= i < |us| ==> ApartFrom(us[i], vs)
  }

  lemma {:induction false} PlainPresent(d: Forest, us: seq<Update>)
    requires Doc(d) && AllPlain(d, us)
    ensures AllPresent(d, us) && Doc(DeliverEach(d, us))
    decreases |us|
  {
    if us != [] {
      PlainStep(d, us[0]);
      PlainPresent(Deliver(d, us[0]), us[1..]);
    }
  }

  /** One update moves over a list. */
  lemma {:induction false} MoveOver(d: Forest, u: Update, vs: seq<Update>)
    requires Doc(d) && Plain(d, u) && AllPlain(d, vs) && ApartFrom(u, vs)
    ensures AllPlain(Deliver(d, u), vs) && AllPresent(d, vs) && AllPresent(Deliver(d, u), vs)
    ensures Plain(DeliverEach(d, vs), u)
    ensures Deliver(DeliverEach(d, vs), u) == DeliverEach(Deliver(d, u), vs)
    decreases |vs|
  {
    if vs != [] {
      PlainStep(d, vs[0]);
      PlainCommute(d, u, vs[0]);
      MoveOver(Deliver(d, vs[0]), u, vs[1..]);
    }
  }

  /** Two lists of plain updates, each made without the other, commute. */
  lemma {:induction false} ListsCommute(d: Forest, us: seq<Update>, vs: seq<Update>)
    requires Doc(d) && AllPlain(d, us) && AllPlain(d, vs) && AllApart(us, vs)
    ensures AllPresent(d, us) && AllPresent(d, vs)
    ensures AllPresent(DeliverEach(d, us), vs) && AllPresent(DeliverEach(d, vs), us)
    ensures DeliverEach(DeliverEach(d, us), vs) == DeliverEach(DeliverEach(d, vs), us)
    decreases |us|
  {
    PlainPresent(d, vs);
    if us != [] {
      PlainStep(d, us[0]);
      assert ApartFrom(us[0], vs);
      MoveOver(d, us[0], vs);
      assert AllApart(us[1..], vs);
      ListsCommute(Deliver(d, us[0]), us[1..], vs);
    }
  }

  // ----- what the other peer's view needs

  /** No run that `vs` deletes is the parent of one that `u` puts. */
  predicate Spares(vs: seq<Update>, u: Update)
  {
    u.Put? ==> forall i :: 0 <= i < |vs| && vs[i].Delete? ==> vs[i].subjectId != u.node.parentId
  }

  predicate SparesAll(vs: seq<Update>, us: seq<Update>)
  {
    forall i :: 0 <= i < |us| ==> Spares(vs, us[i])
  }

  /** A run that a list neither deletes nor extends is left as it was. */
  lemma {:induction false} Untouched(d: Forest, vs: seq<Update>, x: Id)
    requires Doc(d) && AllPlain(d, vs) && x in Members(d)
    requires forall i :: 0 <= i < |vs| ==> !Changes(vs[i], x)
    ensures AllPresent(d, vs) && x in Members(DeliverEach(d, vs)) && Find(DeliverEach(d, vs), x) == Find(d, x)
    decreases |vs|
  {
    if vs != [] {
      PlainStep(d, vs[0]);
      assert Find(Deliver(d, vs[0]), x) == Find(d, x);
      Untouched(Deliver(d, vs[0]), vs[1..], x);
    }
  }

  /** A run that a list does not delete keeps its place. */
  lemma {:induction false} StaysPlaceable(d: Forest, vs: seq<Update>, x: Id)
    requires Doc(d) && AllPlain(d, vs) && Placeable(d, x)
    requires forall i :: 0 <= i < |vs| && vs[i].Delete? ==> vs[i].subjectId != x
    ensures AllPresent(d, vs) && Placeable(DeliverEach(d, vs), x)
    decreases |vs|
  {
    if vs != [] {
      PlainStep(d, vs[0]);
      assert Find(Deliver(d, vs[0]), x) == Marked(Find(d, x), vs[0]);
      StaysPlaceable(Deliver(d, vs[0]), vs[1..], x);
    }
  }

  /** No list of plain updates makes a split. */
  lemma {:induction false} NoNewSplits(d: Forest, vs: seq<Update>, x: Id)
    requires Doc(d) && AllPlain(d, vs) && HasSeparator(x)
    ensures AllPresent(d, vs) && (x in Members(DeliverEach(d, vs)) <==> x in Members(d))
    decreases |vs|
  {
    if vs != [] {
      PlainStep(d, vs[0]);
      NoNewSplits(Deliver(d, vs[0]), vs[1..], x);
    }
  }

  lemma RoomAfter(d: Forest, vs: seq<Update>, id: Id, more: nat)
    requires Doc(d) && AllPlain(d, vs) && id in Members(d) && RoomFor(d, id, more)
    requires forall i :: 0 <= i < |vs| ==> !Changes(vs[i], id)
    ensures AllPresent(d, vs) && id in Members(DeliverEach(d, vs)) && RoomFor(DeliverEach(d, vs), id, more)
  {
    Untouched(d, vs, id);
    forall k: nat | SplitId(id, k) in Members(DeliverEach(d, vs)) ensures |Find(d, id).text| + more <= k {
      SplitIdHasSeparator(id, k);
      NoNewSplits(d, vs, SplitId(id, k));
    }
  }

  /** A plain update that could be delivered before a list can be delivered after it. */
  lemma DeliverableAfter(d: Forest, u: Update, vs: seq<Update>, h: Hlc)
    requires Doc(d) && Plain(d, u) && AllPlain(d, vs) && ApartFrom(u, vs)
    requires Deliverable(d, u, h) && Spares(vs, u)
    ensures AllPresent(d, vs) && Deliverable(DeliverEach(d, vs), u, h)
  {
    MoveOver(d, u, vs);
    if u.Put? {
      if u.node.id in Members(d) {
        MembersKept(d, vs, u.node.id);
      } else {
        StaysPlaceable(d, vs, u.node.parentId);
      }
    }
    if u.Patch? {
      forall i | 0 <= i < |vs| ensures !Changes(vs[i], u.subjectId) { assert Apart(u, vs[i]); }
      RoomAfter(d, vs, u.subjectId, |u.text|);
    }
  }

  lemma {:induction false} MembersKept(d: Forest, vs: seq<Update>, x: Id)
    requires Doc(d) && AllPlain(d, vs) && x in Members(d)
    ensures AllPresent(d, vs) && x in Members(DeliverEach(d, vs))
    decreases |vs|
  {
    if vs != [] {
      PlainStep(d, vs[0]);
      MembersKept(Deliver(d, vs[0]), vs[1..], x);
    }
  }

  /** So can a whole list of them. */
  lemma {:induction false} AllDeliverableAfter(d: Forest, us: seq<Update>, vs: seq<Update>, h: Hlc)
    requires Doc(d) && AllPlain(d, us) && AllPlain(d, vs) && AllApart(us, vs)
    requires AllDeliverable(d, us, h) && SparesAll(vs, us)
    ensures AllPresent(d, vs) && AllDeliverable(DeliverEach(d, vs), us, h)
    decreases |us|
  {
    PlainPresent(d, vs);
    if us != [] {
      assert ApartFrom(us[0], vs) && Spares(vs, us[0]);
      DeliverableAfter(d, us[0], vs, h);
      MoveOver(d, us[0], vs);
      PlainStep(d, us[0]);
      assert AllApart(us[1..], vs) && SparesAll(vs, us[1..]);
      AllDeliverableAfter(Deliver(d, us[0]), us[1..], vs, h);
    }
  }
}
