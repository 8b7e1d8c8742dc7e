/**
 * Split ids are derived, not drawn from a clock, so they could collide.  In a
 * run where inserts carry clock ids and extends hit only leaf runs they never
 * do: every split ever made of a run lies at or beyond its current end.
 */
module SplitFreshness {
  import opened Ids
  import opened RunForest
  import opened RunEffects

  /** Each split id in the tree belongs to a run that is at least as short and has children. */
  ghost predicate SplitsSpent(d: Forest)
  {
    forall x: Id, k: nat {:trigger SplitId(x, k)} :: SplitId(x, k) in Members(d) ==>
      x in Members(d) && |Find(d, x).text| <= k && KidsOf(d, x).Cons?
  }

  lemma EmptySpent()
    ensures Doc(EMPTY) && SplitsSpent(EMPTY)
  {
    forall x: Id, k: nat ensures SplitId(x, k) !in Members(EMPTY) {
      SplitIdHasSeparator(x, k);
    }
  }

  /** While every split is spent, a split inside a run finds its id free. */
  lemma InRangeSplitIsFree(d: Forest, id: Id, k: nat)
    requires SplitsSpent(d) && id in Members(d) && 0 < k < |Find(d, id).text|
    ensures Splittable(d, id, k)
  {
  }

  lemma SpentCutsFree(d: Forest, id: Id, offset: nat, count: nat)
    requires SplitsSpent(d) && Deletable(d, id, offset, count)
    ensures CutsFree(d, id, offset, count, |Find(d, id).text|)
  {
    assert SplitId(SplitId(id, offset), count) in Members(d) ==> SplitId(id, offset) in Members(d);
  }

  lemma InsertSpent(d: Forest, node: RunNode)
    requires Doc(d) && SplitsSpent(d) && node.parentId in Members(d) && !HasSeparator(node.id)
    ensures SplitsSpent(Insert(d, node))
  {
    if node.id in Members(d) { return; }
    var p, e := node.parentId, Insert(d, node);
    InsertDoc(d, node);
    forall x: Id, k: nat | SplitId(x, k) in Members(e)
      ensures x in Members(e) && |Find(e, x).text| <= k && KidsOf(e, x).Cons?
    {
      SplitIdHasSeparator(x, k);
      assert SplitId(x, k) in Members(d);
      InsertFind(d, node, x);
    }
  }

  /** Inserting changes no other run, and only ever adds a child. */
  lemma InsertFind(d: Forest, node: RunNode, x: Id)
    requires Doc(d) && node.parentId in Members(d) && node.id !in Members(d) && x in Members(d)
    ensures x in Members(Insert(d, node)) && Find(Insert(d, node), x) == Find(d, x)
    ensures KidsOf(d, x).Cons? ==> KidsOf(Insert(d, node), x).Cons?
  {
    var p := node.parentId;
    var kids := KidsOf(d, p);
    KidsOfDistinct(d, p);
    AttachDistinct(kids, node);
    if x in Outside(d, p) {
      ReplaceOutside(d, p, Find(d, p), Attach(kids, node), x);
    } else {
      ReplaceInside(d, p, Find(d, p), Attach(kids, node), x);
      if x != p {
        AttachFind(kids, node, x);
        InnerFind(d, p, x);
      }
    }
  }

  lemma InsertNewFind(d: Forest, node: RunNode)
    requires Doc(d) && node.parentId in Members(d) && node.id !in Members(d)
    ensures node.id in Members(Insert(d, node)) && Find(Insert(d, node), node.id) == node
  {
    var p, kids := node.parentId, KidsOf(d, node.parentId);
    KidsOfDistinct(d, p);
    AttachDistinct(kids, node);
    AttachFind(kids, node, node.id);
    ReplaceInside(d, p, Find(d, p), Attach(kids, node), node.id);
  }

  /** The runs after a split: two halves by the same author, and every other run's text and children kept. */
  lemma SplitFind(d: Forest, id: Id, k: nat, x: Id)
    requires Doc(d) && Splittable(d, id, k) && (x in Members(d) || x == SplitId(id, k))
    ensures x in Members(Split(d, id, k))
    ensures Find(Split(d, id, k), x).text ==
            if x == id then Find(d, id).text[..k]
            else if x == SplitId(id, k) then Find(d, id).text[k..] else Find(d, x).text
    ensures Find(Split(d, id, k), x).deleted == Find(d, if x == SplitId(id, k) then id else x).deleted
    ensures Find(Split(d, id, k), x).peerId == Find(d, if x == SplitId(id, k) then id else x).peerId
    ensures x == SplitId(id, k) ==> Find(Split(d, id, k), x).parentId == id
    ensures x == id || (x != SplitId(id, k) && KidsOf(d, x).Cons?) ==> KidsOf(Split(d, id, k), x).Cons?
  {
    var left, kids := LeftHalf(Find(d, id), k), SplitKids(d, id, k);
    SplitKidsShape(d, id, k);
    if x in Outside(d, id) {
      ReplaceOutside(d, id, left, kids, x);
    } else {
      ReplaceInside(d, id, left, kids, x);
      if x != id && x != SplitId(id, k) {
        InnerFind(d, id, x);
        ReparentFind(KidsOf(d, id), SplitId(id, k), x);
      }
    }
  }

  lemma SplitSpent(d: Forest, id: Id, k: int)
    requires Doc(d) && SplitsSpent(d)
    ensures SplitsSpent(Split(d, id, k))
  {
    if !Splittable(d, id, k) { return; }
    var e := Split(d, id, k);
    SplitDoc(d, id, k);
    forall x: Id, j: nat | SplitId(x, j) in Members(e)
      ensures x in Members(e) && |Find(e, x).text| <= j && KidsOf(e, x).Cons?
    {
      if SplitId(x, j) == SplitId(id, k) {
        SplitIdInjective(x, j, id, k);
      }
      SplitFind(d, id, k, x);
    }
  }

  /** Changing a run in place keeps every other run and all chains. */
  lemma InPlaceFind(d: Forest, id: Id, run: RunNode, x: Id)
    requires Doc(d) && id in Members(d) && run.id == id && x in Members(d)
    ensures x in Members(Replace(d, id, run, KidsOf(d, id)))
    ensures Find(Replace(d, id, run, KidsOf(d, id)), x) == if x == id then run else Find(d, x)
    ensures KidsOf(Replace(d, id, run, KidsOf(d, id)), x).Cons? == KidsOf(d, x).Cons?
  {
    KidsOfDistinct(d, id);
    if x in Outside(d, id) {
      ReplaceOutside(d, id, run, KidsOf(d, id), x);
    } else {
      ReplaceInside(d, id, run, KidsOf(d, id), x);
      if x != id {
        InnerFind(d, id, x);
      }
    }
  }

  lemma InPlaceSpent(d: Forest, id: Id, run: RunNode)
    requires Doc(d) && SplitsSpent(d) && id in Members(d) && id != ROOT
    requires run.id == id && run.parentId == Find(d, id).parentId
    requires |run.text| <= |Find(d, id).text| || KidsOf(d, id).Nil?
    ensures SplitsSpent(Replace(d, id, run, KidsOf(d, id)))
  {
    var e := Replace(d, id, run, KidsOf(d, id));
    InPlaceDoc(d, id, run);
    forall x: Id, k: nat | SplitId(x, k) in Members(e)
      ensures x in Members(e) && |Find(e, x).text| <= k && KidsOf(e, x).Cons?
    {
      InPlaceFind(d, id, run, x);
    }
  }

  lemma TombstoneSpent(d: Forest, id: Id)
    requires Doc(d) && SplitsSpent(d) && id != ROOT
    ensures Doc(Tombstone(d, id)) && SplitsSpent(Tombstone(d, id))
    ensures Members(Tombstone(d, id)) == Members(d)
  {
    if id in Members(d) && !Find(d, id).deleted {
      InPlaceSpent(d, id, Find(d, id).(deleted := true));
      InPlaceDoc(d, id, Find(d, id).(deleted := true));
    }
  }

  /** Extending a leaf run keeps the property; its splits, had it any, would be children. */
  lemma ExtendSpent(d: Forest, id: Id, more: string)
    requires Doc(d) && SplitsSpent(d) && id in Members(d) && id != ROOT && KidsOf(d, id).Nil?
    ensures Doc(Extend(d, id, more)) && SplitsSpent(Extend(d, id, more))
  {
    if !Find(d, id).deleted {
      InPlaceSpent(d, id, Find(d, id).(text := Find(d, id).text + more));
      InPlaceDoc(d, id, Find(d, id).(text := Find(d, id).text + more));
    }
  }

  /** No split of the run would lie inside it after it grew by `more` characters. */
  ghost predicate RoomFor(d: Forest, id: Id, more: nat)
    requires id in Members(d)
  {
    forall k: nat :: SplitId(id, k) in Members(d) ==> |Find(d, id).text| + more <= k
  }

  lemma LeafHasRoom(d: Forest, id: Id, more: nat)
    requires SplitsSpent(d) && id in Members(d) && KidsOf(d, id).Nil?
    ensures RoomFor(d, id, more)
  {
  }

  /** Exactly when extending any visible run keeps split ids spent: no earlier split falls inside it. */
  lemma ExtendSpentExactly(d: Forest, id: Id, more: string)
    requires Doc(d) && SplitsSpent(d) && id in Members(d) && id != ROOT && !Find(d, id).deleted
    ensures SplitsSpent(Extend(d, id, more)) <==> RoomFor(d, id, |more|)
  {
    var run := Find(d, id).(text := Find(d, id).text + more);
    var e := Extend(d, id, more);
    InPlaceDoc(d, id, run);
    InPlaceFind(d, id, run, id);
    if RoomFor(d, id, |more|) {
      forall x: Id, k: nat | SplitId(x, k) in Members(e)
        ensures x in Members(e) && |Find(e, x).text| <= k && KidsOf(e, x).Cons?
      {
        InPlaceFind(d, id, run, x);
      }
    }
  }

  const AB: RunNode := RunNode("x", "ab", ROOT, "p", false)
  const LONE_B: Forest := Cons(RunNode("x:s:1", "b", "x", "p", false), Nil, Nil)
  const HALVES: Forest := Cons(ROOT_NODE, Cons(AB.(text := "a"), LONE_B, Nil), Nil)
  const EXTENDED: Forest := Cons(ROOT_NODE, Cons(AB.(text := "acd"), LONE_B, Nil), Nil)

  lemma FirstSplitId()
    ensures SplitId("x", 1) == "x:s:1"
  {
    assert Decimal(1) == "1";
  }

  /** A run of two characters, split in the middle. */
  lemma SplitInHalf()
    ensures Split(Insert(EMPTY, AB), "x", 1) == HALVES && Text(HALVES) == "ab"
  {
    FirstSplitId();
    var whole := Cons(ROOT_NODE, Cons(AB, Nil, Nil), Nil);
    assert Insert(EMPTY, AB) == whole;
    assert "ab"[..1] == "a" && "ab"[1..] == "b";
    assert Splittable(whole, "x", 1);
    assert Visible(HALVES) == [Piece("x", "a"), Piece("x:s:1", "b")];
    JoinTwo(Piece("x", "a"), Piece("x:s:1", "b"));
  }

  lemma ExtendLeftHalf()
    ensures Extend(HALVES, "x", "cd") == EXTENDED && Text(EXTENDED) == "acdb"
  {
    assert "a" + "cd" == "acd";
    assert Visible(EXTENDED) == [Piece("x", "acd"), Piece("x:s:1", "b")];
    JoinTwo(Piece("x", "acd"), Piece("x:s:1", "b"));
  }

  /**
   * A run split at 1 and then extended: deleting its last two characters
   * removes the split-off half instead.
   */
  lemma ExtendedLeftHalfCollides()
    ensures var d := Extend(Split(Insert(EMPTY, AB), "x", 1), "x", "cd");
            && Text(d) == "acdb" && Deletable(d, "x", 1, 2)
            && Text(DeleteRange(d, "x", 1, 2)) == "acd"
  {
    SplitInHalf();
    ExtendLeftHalf();
    FirstSplitId();
    var gone := Cons(LONE_B.run.(deleted := true), Nil, Nil);
    var e := Cons(ROOT_NODE, Cons(AB.(text := "acd"), gone, Nil), Nil);
    assert Tombstone(EXTENDED, "x:s:1") == e;
    assert Visible(e) == [Piece("x", "acd")];
    JoinOne(Piece("x", "acd"));
  }

  lemma DeleteSpent(d: Forest, id: Id, offset: int, count: int)
    requires Doc(d) && SplitsSpent(d)
    ensures Doc(DeleteRange(d, id, offset, count)) && SplitsSpent(DeleteRange(d, id, offset, count))
  {
    if Deletable(d, id, offset, count) {
      var len := |Find(d, id).text|;
      if offset == 0 && count == len {
        TombstoneSpent(d, id);
      } else if offset == 0 {
        SplitSpent(d, id, count);
        SplitDoc(d, id, count);
        TombstoneSpent(Split(d, id, count), id);
      } else {
        DeleteTailSpent(d, id, offset, count);
      }
    }
  }

  lemma DeleteTailSpent(d: Forest, id: Id, offset: nat, count: nat)
    requires Doc(d) && SplitsSpent(d) && Deletable(d, id, offset, count) && 0 < offset
    ensures Doc(DeleteRange(d, id, offset, count)) && SplitsSpent(DeleteRange(d, id, offset, count))
  {
    var right, d1 := SplitId(id, offset), Split(d, id, offset);
    SplitIdHasSeparator(id, offset);
    SplitSpent(d, id, offset);
    SplitDoc(d, id, offset);
    if offset + count == |Find(d, id).text| {
      TombstoneSpent(d1, right);
    } else {
      SplitSpent(d1, right, count);
      SplitDoc(d1, right, count);
      TombstoneSpent(Split(d1, right, count), right);
    }
  }

  // ----- when DELETE_RANGE is exact

  lemma SplitCount(d: Forest, id: Id, k: int)
    requires Doc(d)
    ensures Doc(Split(d, id, k))
    ensures |Visible(Split(d, id, k))| <= |Visible(d)| + 1
    ensures id in Members(d) && Find(d, id).deleted ==> Visible(Split(d, id, k)) == Visible(d)
    ensures id in Members(d) ==>
              id in Members(Split(d, id, k)) && Find(Split(d, id, k), id).deleted == Find(d, id).deleted
  {
    SplitDoc(d, id, k);
    if Splittable(d, id, k) {
      SplitKidsShape(d, id, k);
      ReplaceInside(d, id, LeftHalf(Find(d, id), k), SplitKids(d, id, k), id);
      if Find(d, id).deleted {
        SplitDeleted(d, id, k);
      } else {
        LocatedAt(d, id);
        SplitLocated(d, id, k, Find(d, id).text, Before(d, id), Behind(d, id));
      }
    }
  }

  lemma TombstoneCount(d: Forest, id: Id)
    requires Doc(d) && id in Members(d) && id != ROOT
    ensures |Visible(Tombstone(d, id))| == |Visible(d)| - if Find(d, id).deleted then 0 else 1
  {
    if !Find(d, id).deleted {
      LocatedAt(d, id);
      TombstoneLocated(d, id, Find(d, id).text, Before(d, id), Behind(d, id));
    }
  }

  /**
   * An in-range DELETE_RANGE leaves of its run exactly the characters outside
   * the range, and every other visible run alone, if and only if the split ids
   * it needs are free.
   */
  lemma DeleteExactWhenFree(d: Forest, id: Id, offset: nat, count: nat)
    requires Doc(d) && Deletable(d, id, offset, count)
    ensures var t := Find(d, id).text;
            Visible(DeleteRange(d, id, offset, count))
              == Before(d, id) + Leftover(id, t, offset, count) + Behind(d, id)
            <==> CutsFree(d, id, offset, count, |t|)
  {
    if CutsFree(d, id, offset, count, |Find(d, id).text|) {
      LocatedAt(d, id);
      DeleteLocated(d, id, offset, count, Find(d, id).text, Before(d, id), Behind(d, id));
    } else {
      DeleteInexact(d, id, offset, count);
    }
  }

  lemma DeleteInexact(d: Forest, id: Id, offset: nat, count: nat)
    requires Doc(d) && Deletable(d, id, offset, count)
    requires !CutsFree(d, id, offset, count, |Find(d, id).text|)
    ensures Visible(DeleteRange(d, id, offset, count))
            != Before(d, id) + Leftover(id, Find(d, id).text, offset, count) + Behind(d, id)
  {
    var t, right := Find(d, id).text, SplitId(id, offset);
    LocatedAt(d, id);
    SplitIdHasSeparator(id, offset);
    if offset == 0 {
      TombstoneCount(d, id);
    } else if offset + count == |t| {
      TombstoneCount(d, right);
      assert Visible(d)[|Before(d, id)|] == Piece(id, t);
    } else if right in Members(d) {
      SplitCount(d, right, count);
      TombstoneCount(Split(d, right, count), right);
    } else {
      var d1, front := Split(d, id, offset), Before(d, id) + [Piece(id, t[..offset])];
      SplitLocated(d, id, offset, t, Before(d, id), Behind(d, id));
      SplitDoc(d, id, offset);
      assert Located(d1, right, t[offset..], front, Behind(d, id));
      LocatedUnique(d1, right, t[offset..], front, Behind(d, id));
      TombstoneCount(d1, right);
    }
  }
}
