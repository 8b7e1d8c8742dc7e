/**
 * Runs of reducer actions in which split ids never collide: inserts carry
 * clock ids and extends hit leaf runs.
 */
module SplitRuns {
  import opened Ids
  import opened RunForest
  import opened RunEffects
  import opened SplitFreshness
  import opened CausalTree
  import opened Reducer

  /** What an action must not do: draw an id that looks like a split, or extend a run with children. */
  ghost predicate Clean(d: Forest, action: DocAction)
  {
    && Sound(d, action)
    && (action.INSERT_RUN? ==> !HasSeparator(action.node.id))
    && (action.EXTEND_RUN? && action.runId in Members(d) ==> KidsOf(d, action.runId).Nil?)
  }

  ghost predicate AllClean(d: Forest, actions: seq<DocAction>)
    decreases |actions|
  {
    actions != [] ==> Clean(d, actions[0]) && AllClean(Reduce(d, actions[0]), actions[1..])
  }

  lemma CleanStep(d: Forest, action: DocAction)
    requires Doc(d) && SplitsSpent(d) && Clean(d, action)
    ensures Doc(Reduce(d, action)) && SplitsSpent(Reduce(d, action))
  {
    match action
    case INSERT_RUN(node) =>
      InsertDoc(d, node);
      InsertSpent(d, node);
    case SPLIT(id, offset) =>
      SplitDoc(d, id, offset);
      SplitSpent(d, id, offset);
    case DELETE_RANGE(id, offset, count) => DeleteSpent(d, id, offset, count);
    case EXTEND_RUN(id, text) =>
      if id in Members(d) {
        ExtendSpent(d, id, text);
        InPlaceDoc(d, id, Find(d, id).(text := Find(d, id).text + text));
      }
  }

  /** After every such run, each split ever made of a run lies at or beyond the run's current end. */
  lemma {:induction false} CleanRun(d: Forest, actions: seq<DocAction>)
    requires Doc(d) && SplitsSpent(d) && AllClean(d, actions)
    ensures AllSound(d, actions)
    ensures Doc(ReduceAll(d, actions)) && SplitsSpent(ReduceAll(d, actions))
    decreases |actions|
  {
    if actions != [] {
      CleanStep(d, actions[0]);
      CleanRun(Reduce(d, actions[0]), actions[1..]);
    }
  }

  /** So an in-range split id is free, and splitting there happens. */
  lemma SplitAfterRun(actions: seq<DocAction>, id: Id, k: nat)
    requires AllClean(EMPTY, actions)
    ensures AllSound(EMPTY, actions)
    ensures var d := ReduceAll(EMPTY, actions);
            id in Members(d) && 0 < k < |Find(d, id).text| ==> SplitId(id, k) !in Members(d)
  {
    EmptySpent();
    CleanRun(EMPTY, actions);
  }

  /**
   * And every in-range DELETE_RANGE removes exactly its `count` characters,
   * leaves of its run what is outside the range, and touches no other run.
   */
  lemma DeleteAfterRun(actions: seq<DocAction>, id: Id, offset: nat, count: nat)
    requires AllClean(EMPTY, actions) && AllSound(EMPTY, actions)
    requires Deletable(ReduceAll(EMPTY, actions), id, offset, count)
    ensures var d := ReduceAll(EMPTY, actions);
            var from := |Join(Before(d, id))| + offset;
            && Visible(DeleteRange(d, id, offset, count))
               == Before(d, id) + Leftover(id, Find(d, id).text, offset, count) + Behind(d, id)
            && from + count <= |Text(d)|
            && Text(DeleteRange(d, id, offset, count)) == Text(d)[..from] + Text(d)[from + count..]
  {
    var d := ReduceAll(EMPTY, actions);
    EmptySpent();
    CleanRun(EMPTY, actions);
    SpentCutsFree(d, id, offset, count);
    DeleteExactWhenFree(d, id, offset, count);
    DeleteText(d, id, offset, count);
  }
}
