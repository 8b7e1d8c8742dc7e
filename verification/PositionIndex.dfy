/** The flat span array that maps document positions to runs, and its lookups. */
module PositionIndex {
  import opened Options
  import opened Ids
  import opened RunForest
  import opened RunEffects

  /** A span covers the positions of one visible run. */
  datatype RunSpan = RunSpan(runId: Id, length: nat)

  datatype Index = Index(spans: seq<RunSpan>, totalLength: int)

  datatype PositionLookup = PositionLookup(runId: Id, offset: nat, spanIndex: nat)

  function SpansOf(ps: seq<Piece>): (spans: seq<RunSpan>)
    ensures |spans| == |ps|
    ensures forall i :: 0 <= i < |ps| ==> spans[i] == RunSpan(ps[i].id, |ps[i].text|)
  {
    seq(|ps|, i requires 0 <= i < |ps| => RunSpan(ps[i].id, |ps[i].text|))
  }

  lemma SpansConcat(a: seq<Piece>, b: seq<Piece>)
    ensures SpansOf(a + b) == SpansOf(a) + SpansOf(b)
  {
  }

  /** Sum of the span lengths. */
  function Total(spans: seq<RunSpan>): nat
  {
    if spans == [] then 0 else spans[0].length + Total(spans[1..])
  }

  lemma {:induction false} TotalConcat(a: seq<RunSpan>, b: seq<RunSpan>)
    ensures Total(a + b) == Total(a) + Total(b)
  {
    if a == [] {
      assert a + b == b;
    } else {
      assert (a + b)[1..] == a[1..] + b;
      TotalConcat(a[1..], b);
    }
  }

  lemma TotalStep(spans: seq<RunSpan>, i: nat)
    requires i < |spans|
    ensures Total(spans[..i + 1]) == Total(spans[..i]) + spans[i].length
    ensures Total(spans[..i + 1]) <= Total(spans)
  {
    assert spans[..i + 1] == spans[..i] + [spans[i]];
    TotalConcat(spans[..i], [spans[i]]);
    assert spans == spans[..i + 1] + spans[i + 1..];
    TotalConcat(spans[..i + 1], spans[i + 1..]);
  }

  /** The spans of a walk are as long as its text. */
  lemma {:induction false} TotalIsTextLength(ps: seq<Piece>)
    ensures Total(SpansOf(ps)) == |Join(ps)|
  {
    if ps != [] {
      assert SpansOf(ps)[1..] == SpansOf(ps[1..]);
      TotalIsTextLength(ps[1..]);
      assert ps == [ps[0]] + ps[1..];
      JoinConcat([ps[0]], ps[1..]);
      JoinOne(ps[0]);
    }
  }

  /** The index is the depth-first order of visible runs with their lengths. */
  ghost predicate Indexes(index: Index, d: Forest)
  {
    index.spans == SpansOf(Visible(d)) && index.totalLength == |Text(d)|
  }

  /** The span of a visible run. */
  predicate HasSpan(d: Forest, s: RunSpan)
  {
    && s.runId in Members(d) && s.runId != ROOT
    && !Find(d, s.runId).deleted && s.length == |Find(d, s.runId).text|
  }

  ghost predicate OncePerRun(spans: seq<RunSpan>)
  {
    forall i, j :: 0 <= i < j < |spans| ==> spans[i].runId != spans[j].runId
  }

  /** The array holds the spans of the visible runs, once each, in some order. */
  ghost predicate ListsRuns(spans: seq<RunSpan>, d: Forest)
  {
    OncePerRun(spans) && forall s :: s in spans <==> HasSpan(d, s)
  }

  /** The index lists the visible runs, and its length is the document's. */
  ghost predicate Lists(index: Index, d: Forest)
  {
    ListsRuns(index.spans, d) && index.totalLength == |Text(d)|
  }

  /** The first span of a run is at `i`. */
  ghost predicate FirstSpan(spans: seq<RunSpan>, id: Id, i: int)
  {
    0 <= i < |spans| && spans[i].runId == id && forall j :: 0 <= j < i ==> spans[j].runId != id
  }

  /** Position of the first span of a run, or -1. */
  method FindSpan(spans: seq<RunSpan>, id: Id) returns (i: int)
    ensures i == -1 || FirstSpan(spans, id, i)
    ensures i == -1 <==> forall j :: 0 <= j < |spans| ==> spans[j].runId != id
  {
    i := 0;
    while i < |spans|
      invariant 0 <= i <= |spans|
      invariant forall j :: 0 <= j < i ==> spans[j].runId != id
    {
      if spans[i].runId == id { return; }
      i := i + 1;
    }
    i := -1;
  }

  /** Which run contains a document position. */
  method LookupPosition(index: Index, position: int) returns (r: Option<PositionLookup>)
    ensures r.Some? <==> 0 <= position < index.totalLength && position < Total(index.spans)
    ensures r.Some? ==>
              var l := r.value;
              && l.spanIndex < |index.spans|
              && l.runId == index.spans[l.spanIndex].runId
              && l.offset < index.spans[l.spanIndex].length
              && Total(index.spans[..l.spanIndex]) + l.offset == position
  {
    if position < 0 || position >= index.totalLength { return None; }
    var spans := index.spans;
    var cumulative, i := 0, 0;
    while i < |spans|
      invariant 0 <= i <= |spans|
      invariant cumulative == Total(spans[..i]) <= position
    {
      TotalStep(spans, i);
      if position < cumulative + spans[i].length {
        return Some(PositionLookup(spans[i].runId, position - cumulative, i));
      }
      cumulative := cumulative + spans[i].length;
      i := i + 1;
    }
    assert spans[..i] == spans;
    return None;
  }

  /** Document position of an offset inside a run. */
  method RunOffsetToPosition(index: Index, runId: Id, offset: int) returns (r: Option<int>)
    ensures forall i :: FirstSpan(index.spans, runId, i) ==>
              r == if offset >= index.spans[i].length then None
                   else Some(Total(index.spans[..i]) + offset)
    ensures r == None || exists i :: FirstSpan(index.spans, runId, i)
  {
    var spans := index.spans;
    var cumulative, i := 0, 0;
    while i < |spans|
      invariant 0 <= i <= |spans|
      invariant cumulative == Total(spans[..i])
      invariant forall j :: 0 <= j < i ==> spans[j].runId != runId
    {
      if spans[i].runId == runId {
        assert FirstSpan(spans, runId, i);
        return if offset >= spans[i].length then None else Some(cumulative + offset);
      }
      TotalStep(spans, i);
      cumulative := cumulative + spans[i].length;
      i := i + 1;
    }
    return None;
  }

  // ----- what the lookups mean for a document

  /** A visible run has one span, right after the spans of everything before it. */
  lemma SpanOfRun(d: Forest, id: Id)
    requires Doc(d) && id in Members(d) && id != ROOT && !Find(d, id).deleted
    ensures FirstSpan(SpansOf(Visible(d)), id, |Before(d, id)|)
    ensures SpansOf(Visible(d))[|Before(d, id)|].length == |Find(d, id).text|
    ensures Total(SpansOf(Visible(d))[..|Before(d, id)|]) == |Join(Before(d, id))|
  {
    LocatedAt(d, id);
    AroundIsOther(d, id);
    var walk, n := Visible(d), |Before(d, id)|;
    assert walk[n] == Piece(id, Find(d, id).text);
    assert walk[..n] == Before(d, id);
    assert forall j :: 0 <= j < n ==> walk[j] == Before(d, id)[j];
    assert SpansOf(walk)[..n] == SpansOf(Before(d, id));
    TotalIsTextLength(Before(d, id));
  }

  /** ROOT and deleted runs have no span. */
  lemma NoSpan(d: Forest, id: Id)
    requires Doc(d) && (id !in Members(d) || id == ROOT || Find(d, id).deleted)
    ensures forall i :: 0 <= i < |Visible(d)| ==> SpansOf(Visible(d))[i].runId != id
    ensures !exists i :: FirstSpan(SpansOf(Visible(d)), id, i)
  {
    forall i | 0 <= i < |Visible(d)| ensures Visible(d)[i].id != id {
      VisibleFind(d, Visible(d)[i]);
    }
  }

  /** The run has a span and the offset falls before its end. */
  predicate Reaches(d: Forest, id: Id, offset: int)
  {
    id in Members(d) && id != ROOT && !Find(d, id).deleted && offset < |Find(d, id).text|
  }

  /** A span names a visible run of that length, placed where the walk meets it. */
  lemma RunOfSpan(d: Forest, i: nat)
    requires Doc(d) && i < |Visible(d)|
    ensures var p := Visible(d)[i];
            && Located(d, p.id, p.text, Visible(d)[..i], Visible(d)[i + 1..])
            && p.id in Members(d) && p.id != ROOT
            && !Find(d, p.id).deleted && Find(d, p.id).text == p.text
            && Before(d, p.id) == Visible(d)[..i]
            && Behind(d, p.id) == Visible(d)[i + 1..]
  {
    var p := Visible(d)[i];
    assert Visible(d) == Visible(d)[..i] + [p] + Visible(d)[i + 1..];
    LocatedUnique(d, p.id, p.text, Visible(d)[..i], Visible(d)[i + 1..]);
  }

  /** A position found through the index names the character that stands there. */
  lemma LookupNamesCharacter(d: Forest, index: Index, l: PositionLookup)
    requires Doc(d) && Indexes(index, d)
    requires l.spanIndex < |index.spans| && l.runId == index.spans[l.spanIndex].runId
    requires l.offset < index.spans[l.spanIndex].length
    ensures var position := Total(index.spans[..l.spanIndex]) + l.offset;
            && l.runId in Members(d) && !Find(d, l.runId).deleted
            && position < |Text(d)| && l.offset < |Find(d, l.runId).text|
            && Text(d)[position] == Find(d, l.runId).text[l.offset]
            && FirstSpan(index.spans, l.runId, l.spanIndex)
  {
    var i := l.spanIndex;
    RunOfSpan(d, i);
    var p := Visible(d)[i];
    SpanOfRun(d, p.id);
    TextAround(d, p.id, p.text, Visible(d)[..i], Visible(d)[i + 1..]);
  }

  /** The two lookups invert each other on the visible document. */
  method LookupRoundTrip(index: Index, position: int, ghost d: Forest) returns (back: Option<int>)
    requires Doc(d) && Indexes(index, d)
    ensures 0 <= position < |Text(d)| ==> back == Some(position)
    ensures !(0 <= position < |Text(d)|) ==> back == None
  {
    TotalIsTextLength(Visible(d));
    var l := LookupPosition(index, position);
    if l.None? { return None; }
    LookupNamesCharacter(d, index, l.value);
    back := RunOffsetToPosition(index, l.value.runId, l.value.offset);
  }

  method OffsetRoundTrip(index: Index, id: Id, offset: nat, ghost d: Forest)
    returns (back: Option<PositionLookup>)
    requires Doc(d) && Indexes(index, d)
    ensures back.Some? <==> id in Members(d) && id != ROOT && !Find(d, id).deleted && offset < |Find(d, id).text|
    ensures back.Some? ==> back.value.runId == id && back.value.offset == offset
  {
    TotalIsTextLength(Visible(d));
    var position := RunOffsetToPosition(index, id, offset);
    if id !in Members(d) || id == ROOT || Find(d, id).deleted {
      NoSpan(d, id);
    } else {
      SpanOfRun(d, id);
    }
    if position.None? { return None; }
    ghost var i := |Before(d, id)|;
    TotalStep(index.spans, i);
    back := LookupPosition(index, position.value);
    SameSpan(index.spans, i, offset, back.value.spanIndex, back.value.offset);
  }

  /** A position lies in one span only. */
  lemma SameSpan(spans: seq<RunSpan>, i: nat, a: nat, j: nat, b: nat)
    requires i < |spans| && j < |spans| && a < spans[i].length && b < spans[j].length
    requires Total(spans[..i]) + a == Total(spans[..j]) + b
    ensures i == j && a == b
  {
    if i < j {
      TotalMonotone(spans, i + 1, j);
      TotalStep(spans, i);
    } else if j < i {
      TotalMonotone(spans, j + 1, i);
      TotalStep(spans, j);
    }
  }

  lemma TotalMonotone(spans: seq<RunSpan>, i: nat, j: nat)
    requires i <= j <= |spans|
    ensures Total(spans[..i]) <= Total(spans[..j])
  {
    assert spans[..j] == spans[..i] + spans[i..j];
    TotalConcat(spans[..i], spans[i..j]);
  }
}
