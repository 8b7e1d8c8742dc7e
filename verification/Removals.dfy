/**
 * Which characters DELETE_RANGE takes out of any document.  It always takes one
 * range; it is the range asked for when the split ids it needs are free, and
 * otherwise the range of whatever run stands in their place.
 */
module Removals {
  import opened Ids
  import opened RunForest
  import opened RunEffects
  import opened SplitFreshness

  /** A range of document positions. */
  datatype Range = Range(at: nat, count: nat)

  /** The text without a range; a range outside the text takes nothing. */
  function Excise(s: string, r: Range): string
  {
    if r.at + r.count <= |s| then s[..r.at] + s[r.at + r.count..] else s
  }

  /** The range a run occupies; empty unless it is visible. */
  function Whole(d: Forest, id: Id): Range
    requires id in Members(d)
  {
    if id == ROOT || Find(d, id).deleted then Range(0, 0) else Range(|Join(Before(d, id))|, |Find(d, id).text|)
  }

  /** The range asked for. */
  function Asked(d: Forest, id: Id, offset: nat, count: nat): Range
    requires id in Members(d)
  {
    Range(|Join(Before(d, id))| + offset, count)
  }

  /** What is taken where the first split id is already a run's. */
  function FromTaken(d: Forest, right: Id, count: nat, whole: bool): Range
    requires right in Members(d)
  {
    if !whole && Splittable(d, right, count) && !Find(d, right).deleted then Range(Whole(d, right).at, count)
    else Whole(d, right)
  }

  /** The range that DELETE_RANGE really takes. */
  function Removed(d: Forest, id: Id, offset: int, count: int): Range
  {
    if !Deletable(d, id, offset, count) then Range(0, 0)
    else
      var len, right := |Find(d, id).text|, SplitId(id, offset);
      if CutsFree(d, id, offset, count, len) then Asked(d, id, offset, count)
      else if offset == 0 then Whole(d, id)
      else if right in Members(d) then FromTaken(d, right, count, offset + count == len)
      else Asked(d, id, offset, len - offset)
  }

  lemma WholeInText(d: Forest, id: Id)
    requires Doc(d) && id in Members(d)
    ensures Whole(d, id).at + Whole(d, id).count <= |Text(d)|
  {
    if id != ROOT && !Find(d, id).deleted {
      LocatedAt(d, id);
      TextAround(d, id, Find(d, id).text, Before(d, id), Behind(d, id));
    }
  }

  lemma RemovedInText(d: Forest, id: Id, offset: int, count: int)
    requires Doc(d)
    ensures Removed(d, id, offset, count).at + Removed(d, id, offset, count).count <= |Text(d)|
  {
    if Deletable(d, id, offset, count) {
      WholeInText(d, id);
      if SplitId(id, offset) in Members(d) { WholeInText(d, SplitId(id, offset)); }
    }
  }

  /** A tombstone takes the whole run, if it was visible. */
  lemma TombstoneText(d: Forest, id: Id)
    requires Doc(d) && id in Members(d) && id != ROOT
    ensures Whole(d, id).at + Whole(d, id).count <= |Text(d)|
    ensures Text(Tombstone(d, id)) == Excise(Text(d), Whole(d, id))
  {
    WholeInText(d, id);
    if Find(d, id).deleted {
      CutNothing(Text(d));
    } else {
      var t, pre, post := Find(d, id).text, Before(d, id), Behind(d, id);
      LocatedAt(d, id);
      TombstoneLocated(d, id, t, pre, post);
      TextAround(d, id, t, pre, post);
      JoinConcat(pre, post);
      CutMiddle(Join(pre), t, Join(post));
    }
  }

  lemma CutNothing(s: string)
    ensures Excise(s, Range(0, 0)) == s
  {
  }

  lemma CutMiddle(a: string, t: string, b: string)
    ensures Excise(a + t + b, Range(|a|, |t|)) == a + b
  {
  }

  /** Splitting a run and deleting its front takes the front. */
  lemma FrontText(d: Forest, id: Id, count: nat)
    requires Doc(d) && Splittable(d, id, count) && id != ROOT && !Find(d, id).deleted
    ensures Whole(d, id).at + count <= |Text(d)|
    ensures Text(Tombstone(Split(d, id, count), id)) == Excise(Text(d), Range(Whole(d, id).at, count))
  {
    assert DeleteRange(d, id, 0, count) == Tombstone(Split(d, id, count), id);
    DeleteText(d, id, 0, count);
  }

  /** Of a deleted run it takes nothing. */
  lemma FrontOfDeleted(d: Forest, id: Id, count: nat)
    requires Doc(d) && id in Members(d) && Find(d, id).deleted
    ensures Text(Tombstone(Split(d, id, count), id)) == Text(d)
  {
    SplitCount(d, id, count);
  }

  /** The first cut is made, the second is not: everything behind the first is taken. */
  lemma TailText(d: Forest, id: Id, offset: nat, count: nat)
    requires Doc(d) && Deletable(d, id, offset, count) && offset > 0 && offset + count < |Find(d, id).text|
    requires SplitId(id, offset) !in Members(d) && SplitId(SplitId(id, offset), count) in Members(d)
    ensures var r := Asked(d, id, offset, |Find(d, id).text| - offset);
            && r.at + r.count <= |Text(d)|
            && Text(DeleteRange(d, id, offset, count)) == Excise(Text(d), r)
  {
    var t, pre, post := Find(d, id).text, Before(d, id), Behind(d, id);
    var d1, left, right := Split(d, id, offset), Piece(id, t[..offset]), Piece(SplitId(id, offset), t[offset..]);
    SplitIdHasSeparator(id, offset);
    LocatedAt(d, id);
    SplitLocated(d, id, offset, t, pre, post);
    SplitDoc(d, id, offset);
    SplitText(d, id, offset);
    LocatedNeighbours(d1, left, right, pre, post);
    LocatedUnique(d1, right.id, right.text, pre + [left], post);
    assert Split(d1, right.id, count) == d1;
    TombstoneText(d1, right.id);
    JoinConcat(pre, [left]);
    JoinOne(left);
  }

  /** For every document, DELETE_RANGE takes that one range and nothing else. */
  lemma DeleteRemoves(d: Forest, id: Id, offset: int, count: int)
    requires Doc(d)
    ensures Removed(d, id, offset, count).at + Removed(d, id, offset, count).count <= |Text(d)|
    ensures Text(DeleteRange(d, id, offset, count)) == Excise(Text(d), Removed(d, id, offset, count))
  {
    RemovedInText(d, id, offset, count);
    if !Deletable(d, id, offset, count) {
      CutNothing(Text(d));
    } else if CutsFree(d, id, offset, count, |Find(d, id).text|) {
      DeleteText(d, id, offset, count);
    } else if offset == 0 {
      TombstoneText(d, id);
    } else if SplitId(id, offset) in Members(d) {
      TakenText(d, id, offset, count);
    } else {
      TailText(d, id, offset, count);
    }
  }

  lemma TakenText(d: Forest, id: Id, offset: nat, count: nat)
    requires Doc(d) && Deletable(d, id, offset, count) && offset > 0 && SplitId(id, offset) in Members(d)
    ensures var r := FromTaken(d, SplitId(id, offset), count, offset + count == |Find(d, id).text|);
            && r.at + r.count <= |Text(d)|
            && Text(DeleteRange(d, id, offset, count)) == Excise(Text(d), r)
  {
    var right := SplitId(id, offset);
    SplitIdHasSeparator(id, offset);
    assert Split(d, id, offset) == d;
    TombstoneText(d, right);
    if offset + count != |Find(d, id).text| && Splittable(d, right, count) {
      if Find(d, right).deleted {
        FrontOfDeleted(d, right, count);
        CutNothing(Text(d));
      } else {
        FrontText(d, right, count);
      }
    }
  }
}
