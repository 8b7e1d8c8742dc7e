/**
 * What each operation does to the depth-first walk.  Every statement is local:
 * given where a run sits in the walk, it says what stands there afterwards and
 * that everything in front of it and behind it is untouched.
 */
module RunEffects {
  import opened Ids
  import opened RunForest

  /** `id` is visible with text `t`, the walk meets `pre` before it and `post` after it. */
  ghost predicate Located(d: Forest, id: Id, t: string, pre: seq<Piece>, post: seq<Piece>)
  {
    Visible(d) == pre + [Piece(id, t)] + post
  }

  lemma {:induction false} VisibleFind(f: Forest, p: Piece)
    requires Distinct(f) && p in Visible(f)
    ensures p.id in Members(f) && p.id != ROOT
    ensures !Find(f, p.id).deleted && Find(f, p.id).text == p.text
  {
    VisibleMembers(f.kids);
    VisibleMembers(f.rest);
    if p in Visible(f.kids) {
      VisibleFind(f.kids, p);
    } else if p in Visible(f.rest) {
      VisibleFind(f.rest, p);
    }
  }

  /** Visible pieces met after a run, its descendants included. */
  function Behind(d: Forest, id: Id): seq<Piece>
    requires id in Members(d)
  {
    Visible(KidsOf(d, id)) + After(d, id)
  }

  /** Every visible run has its place. */
  lemma LocatedAt(d: Forest, id: Id)
    requires Doc(d) && id in Members(d) && id != ROOT && !Find(d, id).deleted
    ensures Located(d, id, Find(d, id).text, Before(d, id), Behind(d, id))
  {
    VisibleAround(d, id);
    Flatten(Before(d, id), Own(Find(d, id)), Visible(KidsOf(d, id)), After(d, id));
  }

  lemma Flatten<T>(a: seq<T>, b: seq<T>, c: seq<T>, d: seq<T>)
    ensures a + (b + c) + d == a + b + (c + d)
  {
  }

  lemma AroundIsOther(d: Forest, id: Id)
    requires Doc(d) && id in Members(d)
    ensures forall p :: p in Before(d, id) || p in Behind(d, id) ==> p.id != id
  {
    AroundIsOutside(d, id);
    KidsOfDistinct(d, id);
    VisibleMembers(KidsOf(d, id));
  }

  /** The place of a run in the walk is unique. */
  lemma LocatedUnique(d: Forest, id: Id, t: string, pre: seq<Piece>, post: seq<Piece>)
    requires Doc(d) && Located(d, id, t, pre, post)
    ensures id in Members(d) && id != ROOT && !Find(d, id).deleted && Find(d, id).text == t
    ensures pre == Before(d, id) && post == Behind(d, id)
  {
    assert Visible(d)[|pre|] == Piece(id, t);
    VisibleFind(d, Piece(id, t));
    LocatedAt(d, id);
    AroundIsOther(d, id);
    UniqueSplit(pre, Before(d, id), Piece(id, t), post, Behind(d, id));
  }

  lemma UniqueSplit(a: seq<Piece>, b: seq<Piece>, p: Piece, x: seq<Piece>, y: seq<Piece>)
    requires a + [p] + x == b + [p] + y
    requires p !in b && p !in y
    ensures a == b && x == y
  {
    var s := a + [p] + x;
    assert forall i :: 0 <= i < |b| ==> s[i] in b;
    assert forall i :: |b| < i < |s| ==> s[i] in y;
    assert s[|a|] == p;
    assert a == s[..|a|] && b == s[..|b|];
    assert x == s[|a| + 1..] && y == s[|b| + 1..];
  }

  lemma JoinMiddle(a: seq<Piece>, m: seq<Piece>, b: seq<Piece>)
    ensures Join(a + m + b) == Join(a) + Join(m) + Join(b)
  {
    JoinConcat(a + m, b);
    JoinConcat(a, m);
  }

  lemma JoinOne(p: Piece)
    ensures Join([p]) == p.text
  {
    assert JoinFrom([p], 1) == "";
    assert p.text + "" == p.text;
  }

  lemma JoinTwo(p: Piece, q: Piece)
    ensures Join([p, q]) == p.text + q.text
  {
    assert [p, q] == [p] + [q];
    JoinConcat([p], [q]);
    JoinOne(p);
    JoinOne(q);
  }

  lemma TextAround(d: Forest, id: Id, t: string, pre: seq<Piece>, post: seq<Piece>)
    requires Located(d, id, t, pre, post)
    ensures Text(d) == Join(pre) + t + Join(post)
  {
    JoinMiddle(pre, [Piece(id, t)], post);
    JoinOne(Piece(id, t));
  }

  // ----- SPLIT

  lemma SplitLocated(d: Forest, id: Id, k: nat, t: string, pre: seq<Piece>, post: seq<Piece>)
    requires Doc(d) && Located(d, id, t, pre, post) && Splittable(d, id, k)
    ensures Doc(Split(d, id, k))
    ensures k < |t|
    ensures Visible(Split(d, id, k)) == pre + [Piece(id, t[..k]), Piece(SplitId(id, k), t[k..])] + post
  {
    LocatedUnique(d, id, t, pre, post);
    SplitDoc(d, id, k);
    var run := Find(d, id);
    SplitKidsShape(d, id, k);
    SplitIdHasSeparator(id, k);
    ReplaceVisible(d, id, LeftHalf(run, k), SplitKids(d, id, k));
  }

  /** A split rewrites ids, parents and spans, never the text. */
  lemma SplitText(d: Forest, id: Id, k: int)
    requires Doc(d)
    ensures Doc(Split(d, id, k)) && Text(Split(d, id, k)) == Text(d)
  {
    SplitDoc(d, id, k);
    if Splittable(d, id, k) {
      if Find(d, id).deleted {
        SplitDeleted(d, id, k);
      } else {
        SplitVisibleText(d, id, k);
      }
    }
  }

  lemma SplitDeleted(d: Forest, id: Id, k: nat)
    requires Doc(d) && Splittable(d, id, k) && Find(d, id).deleted
    ensures Visible(Split(d, id, k)) == Visible(d)
  {
    var left, right := LeftHalf(Find(d, id), k), RightHalf(Find(d, id), k);
    VisibleAround(d, id);
    SplitKidsShape(d, id, k);
    ReplaceVisible(d, id, left, SplitKids(d, id, k));
    assert Own(left) == Own(right) == Own(Find(d, id)) == [];
    assert Subtree(left, SplitKids(d, id, k)) == Subtree(Find(d, id), KidsOf(d, id));
  }

  lemma SplitVisibleText(d: Forest, id: Id, k: nat)
    requires Doc(d) && Splittable(d, id, k) && !Find(d, id).deleted
    ensures Text(Split(d, id, k)) == Text(d)
  {
    var t, pre, post := Find(d, id).text, Before(d, id), Behind(d, id);
    LocatedAt(d, id);
    SplitLocated(d, id, k, t, pre, post);
    var halves := [Piece(id, t[..k]), Piece(SplitId(id, k), t[k..])];
    JoinMiddle(pre, halves, post);
    JoinTwo(halves[0], halves[1]);
    TextAround(d, id, t, pre, post);
    assert t[..k] + t[k..] == t;
  }

  datatype Cut = Cut(id: Id, offset: int)

  function SplitAll(d: Forest, cuts: seq<Cut>): Forest
    decreases |cuts|
  {
    if cuts == [] then d else SplitAll(Split(d, cuts[0].id, cuts[0].offset), cuts[1..])
  }

  /** Any sequence of splits, in any order, leaves the visible text unchanged. */
  lemma {:induction false} SplitAllText(d: Forest, cuts: seq<Cut>)
    requires Doc(d)
    ensures Doc(SplitAll(d, cuts)) && Text(SplitAll(d, cuts)) == Text(d)
    decreases |cuts|
  {
    if cuts != [] {
      SplitText(d, cuts[0].id, cuts[0].offset);
      SplitAllText(Split(d, cuts[0].id, cuts[0].offset), cuts[1..]);
    }
  }

  // ----- tombstones

  lemma TombstoneLocated(d: Forest, id: Id, t: string, pre: seq<Piece>, post: seq<Piece>)
    requires Doc(d) && Located(d, id, t, pre, post)
    ensures Doc(Tombstone(d, id)) && Members(Tombstone(d, id)) == Members(d)
    ensures Visible(Tombstone(d, id)) == pre + post
  {
    LocatedUnique(d, id, t, pre, post);
    var run := Find(d, id).(deleted := true);
    InPlaceDoc(d, id, run);
    ReplaceVisible(d, id, run, KidsOf(d, id));
    assert Own(run) == [];
    Flatten(pre, Own(run), Visible(KidsOf(d, id)), After(d, id));
    assert pre + [] + post == pre + post;
  }

  // ----- EXTEND_RUN

  lemma ExtendLocated(d: Forest, id: Id, more: string, t: string, pre: seq<Piece>, post: seq<Piece>)
    requires Doc(d) && Located(d, id, t, pre, post)
    ensures Doc(Extend(d, id, more)) && Members(Extend(d, id, more)) == Members(d)
    ensures Located(Extend(d, id, more), id, t + more, pre, post)
    ensures Text(Extend(d, id, more)) == Join(pre) + t + more + Join(post)
  {
    LocatedUnique(d, id, t, pre, post);
    InPlaceDoc(d, id, Find(d, id).(text := t + more));
    ExtendVisible(d, id, more);
    TextAround(Extend(d, id, more), id, t + more, pre, post);
  }

  lemma ExtendVisible(d: Forest, id: Id, more: string)
    requires Doc(d) && id in Members(d) && id != ROOT && !Find(d, id).deleted
    ensures Located(Extend(d, id, more), id, Find(d, id).text + more, Before(d, id), Behind(d, id))
  {
    var run := Find(d, id).(text := Find(d, id).text + more);
    ReplaceVisible(d, id, run, KidsOf(d, id));
    Flatten(Before(d, id), Own(run), Visible(KidsOf(d, id)), After(d, id));
  }

  // ----- INSERT_RUN

  lemma InsertVisible(d: Forest, node: RunNode)
    requires Doc(d) && node.parentId in Members(d) && node.id !in Members(d)
    ensures Doc(Insert(d, node))
    ensures Visible(d) == InsertPrefix(d, node.parentId, node.id) + InsertSuffix(d, node.parentId, node.id)
    ensures Visible(Insert(d, node)) == InsertPrefix(d, node.parentId, node.id) + Own(node) + InsertSuffix(d, node.parentId, node.id)
  {
    var p := node.parentId;
    InsertDoc(d, node);
    VisibleAround(d, p);
    AttachVisible(KidsOf(d, p), node);
    ReplaceVisible(d, p, Find(d, p), Attach(KidsOf(d, p), node));
    Weave(Before(d, p), Own(Find(d, p)), AttachBefore(KidsOf(d, p), node.id), [],
          AttachAfter(KidsOf(d, p), node.id), After(d, p));
    Weave(Before(d, p), Own(Find(d, p)), AttachBefore(KidsOf(d, p), node.id), Own(node),
          AttachAfter(KidsOf(d, p), node.id), After(d, p));
  }

  lemma Weave<T>(a: seq<T>, b: seq<T>, c: seq<T>, m: seq<T>, x: seq<T>, y: seq<T>)
    ensures a + (b + (c + m + x)) + y == (a + b + c) + m + (x + y)
    ensures m == [] ==> c + m + x == c + x && (a + b + c) + m + (x + y) == (a + b + c) + (x + y)
  {
  }

  /** A new run is spliced into the text where the walk reaches it. */
  lemma InsertText(d: Forest, node: RunNode)
    requires Doc(d) && node.parentId in Members(d) && node.id !in Members(d) && !node.deleted
    ensures Doc(Insert(d, node))
    ensures var at := |Join(InsertPrefix(d, node.parentId, node.id))|;
            at <= |Text(d)| && Text(Insert(d, node)) == Text(d)[..at] + node.text + Text(d)[at..]
  {
    InsertVisible(d, node);
    var a, b := InsertPrefix(d, node.parentId, node.id), InsertSuffix(d, node.parentId, node.id);
    assert Own(node) == [Piece(node.id, node.text)];
    JoinMiddle(a, Own(node), b);
    JoinOne(Piece(node.id, node.text));
    JoinConcat(a, b);
  }

  /** An id above every run goes in front of all its siblings. */
  lemma InsertFirst(d: Forest, node: RunNode)
    requires Doc(d) && node.parentId in Members(d) && node.id != ROOT
    requires forall x :: x in Members(d) && x != ROOT ==> Less(x, node.id)
    ensures node.id !in Members(d)
    ensures InsertPrefix(d, node.parentId, node.id) == Before(d, node.parentId) + Own(Find(d, node.parentId))
  {
    LessTrichotomy(node.id, node.id);
    var kids := KidsOf(d, node.parentId);
    RootHasNoParent(d, node.parentId);
    if kids.Cons? {
      assert kids.run.id in Members(kids);
    }
  }

  lemma RootHasNoParent(d: Forest, id: Id)
    requires Doc(d) && id in Members(d)
    ensures ROOT !in Members(KidsOf(d, id))
  {
    KidsOfDistinct(d, id);
  }

  // ----- DELETE_RANGE

  /** The split ids DELETE_RANGE needs are free. */
  predicate CutsFree(d: Forest, id: Id, offset: nat, count: nat, len: nat)
  {
    && (offset == 0 < count < len ==> SplitId(id, count) !in Members(d))
    && (0 < offset < len ==> SplitId(id, offset) !in Members(d))
    && (0 < offset && offset + count < len ==>
          SplitId(SplitId(id, offset), count) !in Members(d))
  }

  /** The right remainder of a run after a range was deleted from it. */
  function Remainder(id: Id, offset: nat, count: nat): Id
  {
    if offset == 0 then SplitId(id, count) else SplitId(SplitId(id, offset), count)
  }

  /** What is left of a visible run of text `t`. */
  function Leftover(id: Id, t: string, offset: nat, count: nat): seq<Piece>
    requires offset + count <= |t|
  {
    (if offset > 0 then [Piece(id, t[..offset])] else []) +
    (if offset + count < |t| then [Piece(Remainder(id, offset, count), t[offset + count..])] else [])
  }

  /** Two neighbours in the walk are both located. */
  lemma LocatedNeighbours(d: Forest, p: Piece, q: Piece, pre: seq<Piece>, post: seq<Piece>)
    requires Visible(d) == pre + [p, q] + post
    ensures Located(d, p.id, p.text, pre, [q] + post)
    ensures Located(d, q.id, q.text, pre + [p], post)
  {
    assert pre + [p, q] + post == pre + [p] + ([q] + post) == (pre + [p]) + [q] + post;
  }

  /** DELETE_RANGE leaves of its run exactly what is outside the range, in all four cases. */
  lemma DeleteLocated(d: Forest, id: Id, offset: nat, count: nat, t: string, pre: seq<Piece>, post: seq<Piece>)
    requires Doc(d) && Located(d, id, t, pre, post)
    requires 0 < count && offset + count <= |t| && CutsFree(d, id, offset, count, |t|)
    ensures Doc(DeleteRange(d, id, offset, count))
    ensures Visible(DeleteRange(d, id, offset, count)) == pre + Leftover(id, t, offset, count) + post
  {
    LocatedUnique(d, id, t, pre, post);
    var left := Leftover(id, t, offset, count);
    if offset == 0 && count == |t| {
      TombstoneLocated(d, id, t, pre, post);
      assert left == [];
      Around(pre, [], [], post);
    } else if offset == 0 {
      DeleteFront(d, id, count, t, pre, post);
      assert left == [Piece(SplitId(id, count), t[count..])];
      Around(pre, [], left, post);
    } else if offset + count == |t| {
      DeleteBack(d, id, offset, t, pre, post);
      assert left == [Piece(id, t[..offset])];
    } else {
      DeleteMiddle(d, id, offset, count, t, pre, post);
      Around(pre, [Piece(id, t[..offset])], [Piece(Remainder(id, offset, count), t[offset + count..])], post);
    }
  }

  lemma Around<T>(a: seq<T>, x: seq<T>, y: seq<T>, b: seq<T>)
    ensures a + (x + y) + b == a + x + (y + b)
    ensures x == [] ==> a + (x + y) + b == a + (y + b) && a + x == a && [] + b == b
  {
  }

  lemma DeleteFront(d: Forest, id: Id, count: nat, t: string, pre: seq<Piece>, post: seq<Piece>)
    requires Doc(d) && Located(d, id, t, pre, post) && Splittable(d, id, count)
    ensures var e := Tombstone(Split(d, id, count), id);
            Doc(e) && count < |t| && Visible(e) == pre + ([Piece(SplitId(id, count), t[count..])] + post)
  {
    SplitLocated(d, id, count, t, pre, post);
    var e, left, right := Split(d, id, count), Piece(id, t[..count]), Piece(SplitId(id, count), t[count..]);
    LocatedNeighbours(e, left, right, pre, post);
    TombstoneLocated(e, id, left.text, pre, [right] + post);
  }

  lemma DeleteBack(d: Forest, id: Id, offset: nat, t: string, pre: seq<Piece>, post: seq<Piece>)
    requires Doc(d) && Located(d, id, t, pre, post) && Splittable(d, id, offset)
    ensures var e := Tombstone(Split(d, id, offset), SplitId(id, offset));
            Doc(e) && offset < |t| && Visible(e) == pre + [Piece(id, t[..offset])] + post
  {
    SplitLocated(d, id, offset, t, pre, post);
    var e, left, right := Split(d, id, offset), Piece(id, t[..offset]), Piece(SplitId(id, offset), t[offset..]);
    LocatedNeighbours(e, left, right, pre, post);
    TombstoneLocated(e, right.id, right.text, pre + [left], post);
  }

  lemma DeleteMiddle(d: Forest, id: Id, offset: nat, count: nat, t: string, pre: seq<Piece>, post: seq<Piece>)
    requires Doc(d) && Located(d, id, t, pre, post) && Splittable(d, id, offset)
    requires 0 < count && offset + count < |t| && SplitId(SplitId(id, offset), count) !in Members(d)
    ensures var right := SplitId(id, offset);
            var e := Tombstone(Split(Split(d, id, offset), right, count), right);
            && Doc(e)
            && Visible(e) == pre + [Piece(id, t[..offset])] + ([Piece(SplitId(right, count), t[offset + count..])] + post)
  {
    SplitLocated(d, id, offset, t, pre, post);
    SplitDoc(d, id, offset);
    var d1, left, right := Split(d, id, offset), Piece(id, t[..offset]), Piece(SplitId(id, offset), t[offset..]);
    LocatedNeighbours(d1, left, right, pre, post);
    LocatedUnique(d1, right.id, right.text, pre + [left], post);
    SplitIdHasSeparator(right.id, count);
    DeleteFront(d1, right.id, count, right.text, pre + [left], post);
    assert right.text[count..] == t[offset + count..];
  }

  /** The document loses exactly the characters of the range. */
  lemma DeleteText(d: Forest, id: Id, offset: nat, count: nat)
    requires Doc(d) && Deletable(d, id, offset, count)
    requires CutsFree(d, id, offset, count, |Find(d, id).text|)
    ensures Doc(DeleteRange(d, id, offset, count))
    ensures var from := |Join(Before(d, id))| + offset;
            && from + count <= |Text(d)|
            && Text(DeleteRange(d, id, offset, count)) == Text(d)[..from] + Text(d)[from + count..]
  {
    LocatedAt(d, id);
    DeleteLocated(d, id, offset, count, Find(d, id).text, Before(d, id), Behind(d, id));
    LeftoverSplice(Before(d, id), id, Find(d, id).text, offset, count, Behind(d, id));
  }

  lemma LeftoverSplice(pre: seq<Piece>, id: Id, t: string, offset: nat, count: nat, post: seq<Piece>)
    requires offset + count <= |t|
    ensures var s, from := Join(pre + [Piece(id, t)] + post), |Join(pre)| + offset;
            && from + count <= |s|
            && Join(pre + Leftover(id, t, offset, count) + post) == s[..from] + s[from + count..]
  {
    JoinOne(Piece(id, t));
    LeftoverText(id, t, offset, count);
    JoinCut(pre, [Piece(id, t)], Leftover(id, t, offset, count), post, t, offset, count);
  }

  lemma JoinCut(pre: seq<Piece>, mid: seq<Piece>, left: seq<Piece>, post: seq<Piece>, t: string, offset: nat, count: nat)
    requires offset + count <= |t| && Join(mid) == t && Join(left) == t[..offset] + t[offset + count..]
    ensures var s, from := Join(pre + mid + post), |Join(pre)| + offset;
            from + count <= |s| && Join(pre + left + post) == s[..from] + s[from + count..]
  {
    JoinMiddle(pre, mid, post);
    JoinMiddle(pre, left, post);
    CutOut(Join(pre), t, Join(left), Join(post), Join(pre + mid + post), Join(pre + left + post), offset, count);
  }

  /** The same on the strings alone. */
  lemma CutOut(a: string, t: string, u: string, b: string, s: string, r: string, offset: nat, count: nat)
    requires offset + count <= |t| && s == a + t + b && u == t[..offset] + t[offset + count..] && r == a + u + b
    ensures |a| + offset + count <= |s| && r == s[..|a| + offset] + s[|a| + offset + count..]
  {
    CutInside(a, t, b, offset, count);
  }

  lemma LeftoverText(id: Id, t: string, offset: nat, count: nat)
    requires offset + count <= |t|
    ensures Join(Leftover(id, t, offset, count)) == t[..offset] + t[offset + count..]
  {
    var left, right := Piece(id, t[..offset]), Piece(Remainder(id, offset, count), t[offset + count..]);
    JoinOne(left);
    JoinOne(right);
    JoinTwo(left, right);
    assert Leftover(id, t, offset, count)
           == if offset > 0 && offset + count < |t| then [left, right]
              else if offset > 0 then [left] else if offset + count < |t| then [right] else [];
    assert offset + count == |t| ==> t[..offset] + t[offset + count..] == t[..offset];
    assert offset == 0 ==> t[..offset] + t[offset + count..] == t[offset + count..];
  }

  /** Cutting inside the middle of three strings. */
  lemma CutInside(a: string, t: string, b: string, offset: nat, count: nat)
    requires offset + count <= |t|
    ensures var s, from := a + t + b, |a| + offset;
            a + (t[..offset] + t[offset + count..]) + b == s[..from] + s[from + count..]
  {
    var s, from := a + t + b, |a| + offset;
    assert s[..from] == a + t[..offset];
    assert s[from + count..] == t[offset + count..] + b;
    FourStrings(a, t[..offset], t[offset + count..], b);
  }

  lemma FourStrings(a: string, x: string, y: string, b: string)
    ensures a + (x + y) + b == (a + x) + (y + b)
  {
  }

}
