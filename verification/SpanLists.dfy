/**
 * What the span array lists, whatever its order: one span per visible run, with
 * the run's length.  Unlike the order, this survives inserts under deleted
 * parents, and it is all that some lookups need.
 */
module SpanLists {
  import opened Options
  import opened Ids
  import opened RunForest
  import opened RunEffects
  import opened SplitFreshness
  import opened PositionIndex

  /** The depth-first spans list the visible runs. */
  lemma IndexesLists(index: Index, d: Forest)
    requires Doc(d) && Indexes(index, d)
    ensures Lists(index, d)
  {
    WalkOnce(d);
    forall s: RunSpan ensures s in index.spans <==> HasSpan(d, s) {
      WalkLists(d, s);
    }
  }

  lemma WalkLists(d: Forest, s: RunSpan)
    requires Doc(d)
    ensures s in SpansOf(Visible(d)) <==> HasSpan(d, s)
  {
    var walk := Visible(d);
    if s in SpansOf(walk) {
      var i :| 0 <= i < |walk| && SpansOf(walk)[i] == s;
      VisibleFind(d, walk[i]);
    }
    if HasSpan(d, s) { SpanOfRun(d, s.runId); }
  }

  lemma WalkOnce(d: Forest)
    requires Doc(d)
    ensures OncePerRun(SpansOf(Visible(d)))
  {
    var walk := Visible(d);
    forall i, j | 0 <= i < j < |walk| ensures walk[i].id != walk[j].id {
      RunOfSpan(d, i);
      AroundIsOther(d, walk[i].id);
      assert walk[j] == walk[i + 1..][j - i - 1];
    }
  }

  // ----- which runs have spans afterwards

  lemma InsertSpans(d: Forest, node: RunNode, s: RunSpan)
    requires Doc(d) && node.parentId in Members(d) && node.id !in Members(d)
    ensures HasSpan(Insert(d, node), s) <==>
              if s.runId == node.id then !node.deleted && s.length == |node.text| else HasSpan(d, s)
  {
    InsertDoc(d, node);
    InsertNewFind(d, node);
    if s.runId in Members(d) { InsertFind(d, node, s.runId); }
  }

  lemma SplitSpans(d: Forest, id: Id, k: nat, s: RunSpan)
    requires Doc(d) && Splittable(d, id, k) && id != ROOT
    ensures HasSpan(Split(d, id, k), s) <==>
              if s.runId == id then !Find(d, id).deleted && s.length == k
              else if s.runId == SplitId(id, k) then !Find(d, id).deleted && s.length == |Find(d, id).text| - k
              else HasSpan(d, s)
  {
    SplitDoc(d, id, k);
    SplitIdHasSeparator(id, k);
    if s.runId in Members(Split(d, id, k)) { SplitFind(d, id, k, s.runId); }
  }

  lemma InPlaceSpans(d: Forest, id: Id, run: RunNode, s: RunSpan)
    requires Doc(d) && id in Members(d) && id != ROOT && run.id == id && run.parentId == Find(d, id).parentId
    ensures HasSpan(Replace(d, id, run, KidsOf(d, id)), s) <==>
              if s.runId == id then !run.deleted && s.length == |run.text| else HasSpan(d, s)
  {
    InPlaceDoc(d, id, run);
    if s.runId in Members(d) { InPlaceFind(d, id, run, s.runId); }
  }

  // ----- what each change of the array lists

  lemma SplicedMembers(spans: seq<RunSpan>, at: nat, x: RunSpan, y: RunSpan)
    requires at <= |spans|
    ensures y in spans[..at] + [x] + spans[at..] <==> y == x || y in spans
  {
    assert spans == spans[..at] + spans[at..];
  }

  lemma SplicedOnce(spans: seq<RunSpan>, at: nat, x: RunSpan)
    requires at <= |spans| && OncePerRun(spans) && forall y :: y in spans ==> y.runId != x.runId
    ensures OncePerRun(spans[..at] + [x] + spans[at..])
  {
    var all := spans[..at] + [x] + spans[at..];
    forall i, j | 0 <= i < j < |all| ensures all[i].runId != all[j].runId {
      assert i != at ==> all[i] == spans[if i < at then i else i - 1];
      assert j != at ==> all[j] == spans[if j < at then j else j - 1];
    }
  }

  lemma InsertLists(d: Forest, node: RunNode, spans: seq<RunSpan>, at: nat)
    requires Doc(d) && node.parentId in Members(d) && node.id !in Members(d) && !node.deleted
    requires ListsRuns(spans, d) && at <= |spans|
    ensures ListsRuns(spans[..at] + [RunSpan(node.id, |node.text|)] + spans[at..], Insert(d, node))
  {
    var x := RunSpan(node.id, |node.text|);
    SplicedOnce(spans, at, x);
    forall s: RunSpan ensures s in spans[..at] + [x] + spans[at..] <==> HasSpan(Insert(d, node), s) {
      SplicedMembers(spans, at, x, s);
      InsertSpans(d, node, s);
    }
  }

  lemma InsertDeletedLists(d: Forest, node: RunNode, spans: seq<RunSpan>)
    requires Doc(d) && node.parentId in Members(d) && node.id !in Members(d) && node.deleted
    requires ListsRuns(spans, d)
    ensures ListsRuns(spans, Insert(d, node))
  {
    forall s: RunSpan ensures s in spans <==> HasSpan(Insert(d, node), s) {
      InsertSpans(d, node, s);
    }
  }

  lemma SplitDeletedLists(d: Forest, id: Id, k: nat, spans: seq<RunSpan>)
    requires Doc(d) && Splittable(d, id, k) && id != ROOT && Find(d, id).deleted && ListsRuns(spans, d)
    ensures ListsRuns(spans, Split(d, id, k))
  {
    forall s: RunSpan ensures s in spans <==> HasSpan(Split(d, id, k), s) {
      SplitSpans(d, id, k, s);
    }
  }

  /** Two spans in place of the one at `at`. */
  function Halve(spans: seq<RunSpan>, at: nat, x: RunSpan, y: RunSpan): seq<RunSpan>
    requires at < |spans|
  {
    spans[..at] + [x, y] + spans[at + 1..]
  }

  /** Replacing one span by two lists the two and no longer the one. */
  lemma HalvedMembers(spans: seq<RunSpan>, at: nat, x: RunSpan, y: RunSpan, s: RunSpan)
    requires at < |spans| && OncePerRun(spans)
    ensures s in Halve(spans, at, x, y) <==>
              s == x || s == y || (s in spans && s.runId != spans[at].runId)
  {
    var all := Halve(spans, at, x, y);
    assert all[at] == x && all[at + 1] == y;
    if s in spans && s.runId != spans[at].runId {
      var i :| 0 <= i < |spans| && spans[i] == s;
      assert all[if i < at then i else i + 1] == s;
    }
    if s in all && s != x && s != y {
      var i :| 0 <= i < |all| && all[i] == s;
      assert s == spans[if i < at then i else i - 1];
    }
  }

  lemma HalvedOnce(spans: seq<RunSpan>, at: nat, x: RunSpan, y: RunSpan)
    requires at < |spans| && OncePerRun(spans) && x.runId == spans[at].runId != y.runId
    requires forall s :: s in spans ==> s.runId != y.runId
    ensures OncePerRun(Halve(spans, at, x, y))
  {
    var all := Halve(spans, at, x, y);
    forall i, j | 0 <= i < j < |all| ensures all[i].runId != all[j].runId {
      assert i != at + 1 ==> all[i].runId == spans[if i <= at then i else i - 1].runId;
      assert j != at + 1 ==> all[j].runId == spans[if j <= at then j else j - 1].runId;
      assert all[at + 1] == y;
    }
  }

  lemma SplitLists(d: Forest, id: Id, k: nat, spans: seq<RunSpan>, at: nat)
    requires Doc(d) && Splittable(d, id, k) && id != ROOT && !Find(d, id).deleted
    requires ListsRuns(spans, d) && at < |spans| && spans[at].runId == id
    ensures ListsRuns(Halve(spans, at, RunSpan(id, k), RunSpan(SplitId(id, k), |Find(d, id).text| - k)), Split(d, id, k))
  {
    var x, y := RunSpan(id, k), RunSpan(SplitId(id, k), |Find(d, id).text| - k);
    SplitIdHasSeparator(id, k);
    HalvedOnce(spans, at, x, y);
    forall s: RunSpan ensures s in Halve(spans, at, x, y) <==> HasSpan(Split(d, id, k), s) {
      HalvedMembers(spans, at, x, y, s);
      SplitSpans(d, id, k, s);
    }
  }

  /** The spans of all runs but one. */
  function WithoutRun(spans: seq<RunSpan>, id: Id): seq<RunSpan>
  {
    if spans == [] then []
    else (if spans[0].runId != id then [spans[0]] else []) + WithoutRun(spans[1..], id)
  }

  lemma {:induction false} WithoutMembers(spans: seq<RunSpan>, id: Id, s: RunSpan)
    ensures s in WithoutRun(spans, id) <==> s in spans && s.runId != id
  {
    if spans != [] {
      WithoutMembers(spans[1..], id, s);
      assert s in spans <==> s == spans[0] || s in spans[1..];
    }
  }

  lemma {:induction false} WithoutOnce(spans: seq<RunSpan>, id: Id)
    requires OncePerRun(spans)
    ensures OncePerRun(WithoutRun(spans, id))
  {
    if spans != [] {
      var rest := WithoutRun(spans[1..], id);
      WithoutOnce(spans[1..], id);
      forall s | s in rest ensures s.runId != spans[0].runId {
        WithoutMembers(spans[1..], id, s);
        var i :| 0 <= i < |spans[1..]| && spans[1..][i] == s;
        assert spans[i + 1] == s;
      }
      if spans[0].runId == id {
        assert WithoutRun(spans, id) == rest;
      } else {
        HeadOnce(spans[0], rest);
      }
    }
  }

  lemma HeadOnce(head: RunSpan, rest: seq<RunSpan>)
    requires OncePerRun(rest)
    requires forall i :: 0 <= i < |rest| ==> rest[i].runId != head.runId
    ensures OncePerRun([head] + rest)
  {
  }

  lemma TombstoneLists(d: Forest, id: Id, spans: seq<RunSpan>)
    requires Doc(d) && id in Members(d) && id != ROOT && !Find(d, id).deleted && ListsRuns(spans, d)
    ensures ListsRuns(WithoutRun(spans, id), Tombstone(d, id))
  {
    WithoutOnce(spans, id);
    forall s: RunSpan ensures s in WithoutRun(spans, id) <==> HasSpan(Tombstone(d, id), s) {
      WithoutMembers(spans, id, s);
      InPlaceSpans(d, id, Find(d, id).(deleted := true), s);
    }
  }

  /** The spans with one run's grown. */
  function Lengthen(spans: seq<RunSpan>, id: Id, more: nat): (r: seq<RunSpan>)
    ensures |r| == |spans|
  {
    seq(|spans|, i requires 0 <= i < |spans| =>
      if spans[i].runId == id then RunSpan(id, spans[i].length + more) else spans[i])
  }

  lemma ExtendLists(d: Forest, id: Id, more: string, spans: seq<RunSpan>)
    requires Doc(d) && id in Members(d) && id != ROOT && !Find(d, id).deleted && ListsRuns(spans, d)
    ensures ListsRuns(Lengthen(spans, id, |more|), Extend(d, id, more))
  {
    var grown, t := Lengthen(spans, id, |more|), Find(d, id).text;
    forall s: RunSpan ensures s in grown <==> HasSpan(Extend(d, id, more), s) {
      InPlaceSpans(d, id, Find(d, id).(text := t + more), s);
      if s in grown {
        var i :| 0 <= i < |grown| && grown[i] == s;
        assert HasSpan(d, spans[i]);
      }
      if HasSpan(Extend(d, id, more), s) {
        var was := if s.runId == id then RunSpan(id, |t|) else s;
        assert was in spans;
        var i :| 0 <= i < |spans| && spans[i] == was;
        assert grown[i] == s;
      }
    }
  }

  // ----- what lookups need of the list

  /** A run has a span exactly when it is visible, wherever the span stands. */
  lemma ListedSpan(spans: seq<RunSpan>, d: Forest, id: Id)
    requires ListsRuns(spans, d)
    ensures (exists i :: FirstSpan(spans, id, i)) <==> id in Members(d) && id != ROOT && !Find(d, id).deleted
    ensures forall i :: FirstSpan(spans, id, i) ==> id in Members(d) && spans[i].length == |Find(d, id).text|
  {
    forall i | FirstSpan(spans, id, i) ensures HasSpan(d, spans[i]) {
    }
    if id in Members(d) && id != ROOT && !Find(d, id).deleted {
      var s := RunSpan(id, |Find(d, id).text|);
      assert s in spans;
      var i :| 0 <= i < |spans| && spans[i] == s;
      assert FirstSpan(spans, id, i);
    }
  }

  /** `RunOffsetToPosition` on a document's index: defined by what it lists, exact where it is. */
  method PositionIn(index: Index, id: Id, offset: int, ghost d: Forest) returns (pos: Option<int>)
    requires Doc(d) && ListsRuns(index.spans, d)
    ensures pos.Some? <==> Reaches(d, id, offset)
    ensures Indexes(index, d) && pos.Some? ==> pos.value == |Join(Before(d, id))| + offset
  {
    pos := RunOffsetToPosition(index, id, offset);
    ListedSpan(index.spans, d, id);
    if pos.Some? {
      SpanOfRun(d, id);
      assert Indexes(index, d) ==> FirstSpan(index.spans, id, |Before(d, id)|);
    }
  }
}
