/** Clocks of many peers over every run of local inserts, sends and receipts. */
module ClockRuns {
  import opened Ids
  import opened Hlc

  type PeerId = string

  /** An action in flight: the sender's clock and every run id that precedes it causally. */
  datatype Message = Message(hlc: Hlc, past: set<Hlc>)

  /**
   * `known` is the causal past of each peer: the ids it drew, and the causal
   * past of every action it received, a superset of the runs in its tree.
   * `issued` lists run ids in the order they were drawn, `past` the causal past
   * of each draw, `wall` the largest wall-clock reading.
   */
  datatype World = World(clocks: map<PeerId, Hlc>, known: map<PeerId, set<Hlc>>, issued: seq<Hlc>,
                         past: seq<set<Hlc>>, mail: set<Message>, wall: nat)

  datatype Event =
    | Join(peer: PeerId, now: nat)
    | InsertRun(peer: PeerId, now: nat)
    | Send(peer: PeerId)
    | Deliver(peer: PeerId, message: Message, now: nat)

  const START: World := World(map[], map[], [], [], {}, 0)

  predicate Enabled(w: World, e: Event)
  {
    match e
    case Join(p, now) => p !in w.clocks
    case InsertRun(p, now) => p in w.clocks && p in w.known
    case Send(p) => p in w.clocks && p in w.known
    case Deliver(p, m, now) => p in w.clocks && p in w.known && m in w.mail
  }

  function Step(w: World, e: Event): World
    requires Enabled(w, e)
  {
    match e
    case Join(p, now) =>
      w.(clocks := w.clocks[p := Hlc(now, 0, p)], known := w.known[p := {}], wall := Max(w.wall, now))
    case InsertRun(p, now) =>
      var h := Increment(w.clocks[p], now);
      w.(clocks := w.clocks[p := h], known := w.known[p := w.known[p] + {h}],
         issued := w.issued + [h], past := w.past + [w.known[p]], wall := Max(w.wall, now))
    case Send(p) =>
      w.(mail := w.mail + {Message(w.clocks[p], w.known[p])})
    case Deliver(p, m, now) =>
      w.(clocks := w.clocks[p := Receive(w.clocks[p], m.hlc, now)],
         known := w.known[p := w.known[p] + m.past], wall := Max(w.wall, now))
  }

  predicate NotLater(a: Hlc, b: Hlc) { Earlier(a, b) || (a.ts == b.ts && a.count == b.count) }

  ghost predicate Covers(h: Hlc, ids: set<Hlc>)
  {
    forall x :: x in ids ==> NotLater(x, h)
  }

  /** Clocks dominate what their peers know, and never outrun the wall. */
  ghost predicate PeersInv(w: World)
  {
    && w.clocks.Keys == w.known.Keys
    && forall p :: p in w.clocks ==>
         w.clocks[p].peerId == p && w.clocks[p].ts <= w.wall && Covers(w.clocks[p], w.known[p])
  }

  ghost predicate MailInv(w: World)
  {
    forall m :: m in w.mail ==> m.hlc.ts <= w.wall && Covers(m.hlc, m.past)
  }

  /** Drawn ids lie below their peer's clock, ascend per peer, and above all their peer knew. */
  ghost predicate IssuedInv(w: World)
  {
    && |w.past| == |w.issued|
    && (forall i :: 0 <= i < |w.issued| ==>
          w.issued[i].peerId in w.clocks && NotLater(w.issued[i], w.clocks[w.issued[i].peerId]))
    && (forall i, j :: 0 <= i < j < |w.issued| && w.issued[i].peerId == w.issued[j].peerId ==>
          Earlier(w.issued[i], w.issued[j]))
    && (forall i, x :: 0 <= i < |w.issued| && x in w.past[i] ==> Earlier(x, w.issued[i]))
  }

  ghost predicate Inv(w: World)
  {
    PeersInv(w) && MailInv(w) && IssuedInv(w)
  }

  lemma InsertPeers(w: World, p: PeerId, now: nat)
    requires PeersInv(w) && MailInv(w) && p in w.clocks
    ensures PeersInv(Step(w, InsertRun(p, now))) && MailInv(Step(w, InsertRun(p, now)))
  {
    StepsForward(w.clocks[p], w.clocks[p], now);
  }

  lemma DeliverPeers(w: World, p: PeerId, m: Message, now: nat)
    requires PeersInv(w) && MailInv(w) && p in w.clocks && m in w.mail
    ensures PeersInv(Step(w, Deliver(p, m, now))) && MailInv(Step(w, Deliver(p, m, now)))
  {
    StepsForward(w.clocks[p], m.hlc, now);
  }

  lemma InsertIssued(w: World, p: PeerId, now: nat)
    requires Inv(w) && p in w.clocks
    ensures IssuedInv(Step(w, InsertRun(p, now)))
  {
    StepsForward(w.clocks[p], w.clocks[p], now);
    var h, w' := Increment(w.clocks[p], now), Step(w, InsertRun(p, now));
    assert forall i :: 0 <= i < |w.issued| ==> w'.issued[i] == w.issued[i] && w'.past[i] == w.past[i];
    assert forall i :: 0 <= i < |w.issued| && w.issued[i].peerId == p ==> Earlier(w.issued[i], h);
  }

  lemma DeliverIssued(w: World, p: PeerId, m: Message, now: nat)
    requires Inv(w) && p in w.clocks && m in w.mail
    ensures IssuedInv(Step(w, Deliver(p, m, now)))
  {
    StepsForward(w.clocks[p], m.hlc, now);
  }

  lemma StepInv(w: World, e: Event)
    requires Inv(w) && Enabled(w, e)
    ensures Inv(Step(w, e))
  {
    match e
    case Join(p, now) =>
    case Send(p) =>
    case InsertRun(p, now) =>
      InsertPeers(w, p, now);
      InsertIssued(w, p, now);
    case Deliver(p, m, now) =>
      DeliverPeers(w, p, m, now);
      DeliverIssued(w, p, m, now);
  }

  ghost predicate Runs(w: World, es: seq<Event>)
    decreases |es|
  {
    es == [] || (Enabled(w, es[0]) && Runs(Step(w, es[0]), es[1..]))
  }

  ghost function Run(w: World, es: seq<Event>): World
    requires Runs(w, es)
    decreases |es|
  {
    if es == [] then w else Run(Step(w, es[0]), es[1..])
  }

  lemma {:induction false} RunInv(w: World, es: seq<Event>)
    requires Inv(w) && Runs(w, es)
    ensures Inv(Run(w, es))
    decreases |es|
  {
    if es != [] {
      StepInv(w, es[0]);
      RunInv(Step(w, es[0]), es[1..]);
    }
  }

  /**
   * In every run: serialized run ids are pairwise different; an insert that
   * happens before another has the smaller id; a peer's next id sorts above
   * every run it knows; and no clock is ahead of the largest wall reading.
   */
  lemma ClockSafety(es: seq<Event>)
    requires Runs(START, es)
    ensures var w := Run(START, es);
            && (forall i, j :: 0 <= i < j < |w.issued| && Fits(w.issued[i]) && Fits(w.issued[j]) ==>
                  ToString(w.issued[i]) != ToString(w.issued[j]))
            && |w.past| == |w.issued|
            && (forall i, x :: 0 <= i < |w.issued| && x in w.past[i] && Fits(x) && Fits(w.issued[i]) ==>
                  Less(ToString(x), ToString(w.issued[i])))
            && (forall p, x :: p in w.clocks && p in w.known && x in w.known[p] ==>
                  NotLater(x, w.clocks[p]) && forall now :: Earlier(x, Increment(w.clocks[p], now)))
            && (forall p :: p in w.clocks ==> w.clocks[p].ts <= w.wall)
  {
    RunInv(START, es);
    var w := Run(START, es);
    forall i, j | 0 <= i < j < |w.issued| && Fits(w.issued[i]) && Fits(w.issued[j])
      ensures ToString(w.issued[i]) != ToString(w.issued[j])
    {
      StringOrderIsCompare(w.issued[i], w.issued[j]);
    }
    forall i, x | 0 <= i < |w.issued| && x in w.past[i] && Fits(x) && Fits(w.issued[i])
      ensures Less(ToString(x), ToString(w.issued[i]))
    {
      StringOrderIsCompare(x, w.issued[i]);
    }
  }

  // ----- happening before

  lemma {:induction false} RunsPrefix(w: World, es: seq<Event>, n: nat)
    requires Runs(w, es) && n < |es|
    ensures Runs(w, es[..n]) && Enabled(Run(w, es[..n]), es[n])
    ensures Runs(w, es[..n + 1]) && Run(w, es[..n + 1]) == Step(Run(w, es[..n]), es[n])
    decreases n
  {
    if n == 0 {
      assert es[..1][1..] == [];
    } else {
      assert es[1..][..n - 1] == es[..n][1..] && es[1..][..n] == es[..n + 1][1..];
      RunsPrefix(Step(w, es[0]), es[1..], n - 1);
    }
  }

  /** The world after the first `n` events. */
  ghost function After(es: seq<Event>, n: nat): World
    requires Runs(START, es) && n <= |es|
  {
    if n == 0 then START
    else
      RunsPrefix(START, es, n - 1);
      Run(START, es[..n])
  }

  lemma AfterNext(es: seq<Event>, n: nat)
    requires Runs(START, es) && n < |es|
    ensures Enabled(After(es, n), es[n]) && After(es, n + 1) == Step(After(es, n), es[n])
  {
    RunsPrefix(START, es, n);
  }

  /** The peer an event happens at, and its clock right after. */
  function Actor(e: Event): PeerId { e.peer }

  ghost function ClockAfter(es: seq<Event>, i: nat): Hlc
    requires Runs(START, es) && i < |es|
  {
    AfterNext(es, i);
    After(es, i + 1).clocks[Actor(es[i])]
  }

  /** One event directly precedes another at the same peer, or sends what the other receives. */
  ghost predicate Link(es: seq<Event>, i: nat, j: nat)
    requires Runs(START, es) && j < |es|
  {
    && i < j
    && (|| Actor(es[i]) == Actor(es[j])
        || (es[i].Send? && es[j].Deliver? && es[j].message.hlc == ClockAfter(es, i)))
  }

  /** Each event of a chain happens before the next. */
  ghost predicate Chain(es: seq<Event>, c: seq<nat>)
    requires Runs(START, es)
  {
    && (forall k :: 0 <= k < |c| ==> c[k] < |es|)
    && (forall k :: 0 <= k < |c| - 1 ==> Link(es, c[k], c[k + 1]))
  }

  /** A peer's clock never goes back. */
  lemma {:induction false} ClockForward(es: seq<Event>, n: nat, m: nat, p: PeerId)
    requires Runs(START, es) && n <= m <= |es| && p in After(es, n).clocks
    ensures p in After(es, m).clocks && NotLater(After(es, n).clocks[p], After(es, m).clocks[p])
    decreases m
  {
    if n < m {
      ClockForward(es, n, m - 1, p);
      AfterNext(es, m - 1);
      var w := After(es, m - 1);
      if es[m - 1].peer == p {
        match es[m - 1]
        case InsertRun(_, now) => StepsForward(w.clocks[p], w.clocks[p], now);
        case Deliver(_, msg, now) => StepsForward(w.clocks[p], msg.hlc, now);
        case _ =>
      }
    }
  }

  lemma SamePeerForward(es: seq<Event>, i: nat, j: nat)
    requires Runs(START, es) && i < j < |es| && Actor(es[i]) == Actor(es[j])
    ensures NotLater(ClockAfter(es, i), ClockAfter(es, j))
    ensures es[j].InsertRun? ==> Earlier(ClockAfter(es, i), ClockAfter(es, j))
  {
    var p := Actor(es[i]);
    AfterNext(es, i);
    AfterNext(es, j);
    ClockForward(es, i + 1, j, p);
    ClockForward(es, j, j + 1, p);
    if es[j].InsertRun? {
      var h := After(es, j).clocks[p];
      StepsForward(h, h, es[j].now);
    }
  }

  lemma ReceiptForward(es: seq<Event>, i: nat, j: nat)
    requires Runs(START, es) && i < j < |es| && es[j].Deliver? && es[j].message.hlc == ClockAfter(es, i)
    ensures NotLater(ClockAfter(es, i), ClockAfter(es, j))
  {
    AfterNext(es, j);
    StepsForward(After(es, j).clocks[es[j].peer], es[j].message.hlc, es[j].now);
  }

  /** Along a link the clock does not go back; into a run's id it goes forward. */
  lemma LinkForward(es: seq<Event>, i: nat, j: nat)
    requires Runs(START, es) && j < |es| && Link(es, i, j)
    ensures NotLater(ClockAfter(es, i), ClockAfter(es, j))
    ensures es[j].InsertRun? ==> Earlier(ClockAfter(es, i), ClockAfter(es, j))
  {
    if Actor(es[i]) == Actor(es[j]) {
      SamePeerForward(es, i, j);
    } else {
      ReceiptForward(es, i, j);
    }
  }

  lemma {:induction false} ChainForward(es: seq<Event>, c: seq<nat>)
    requires Runs(START, es) && Chain(es, c) && |c| >= 2
    ensures NotLater(ClockAfter(es, c[0]), ClockAfter(es, c[|c| - 1]))
    ensures es[c[|c| - 1]].InsertRun? ==> Earlier(ClockAfter(es, c[0]), ClockAfter(es, c[|c| - 1]))
    decreases |c|
  {
    var n := |c|;
    LinkForward(es, c[n - 2], c[n - 1]);
    if n > 2 {
      ChainForward(es, c[..n - 1]);
    }
  }

  /** The id an insert draws is its peer's clock right after. */
  lemma DrawnId(es: seq<Event>, i: nat)
    requires Runs(START, es) && i < |es| && es[i].InsertRun?
    ensures var w := After(es, i + 1);
            |w.issued| > 0 && w.issued[|w.issued| - 1] == ClockAfter(es, i)
  {
    AfterNext(es, i);
  }

  /**
   * In every run: an insert that happens before another, through any chain of
   * events at one peer and of messages sent and received, has the smaller id.
   */
  lemma HappensBeforeOrder(es: seq<Event>, c: seq<nat>)
    requires Runs(START, es) && Chain(es, c) && |c| >= 2
    requires es[c[0]].InsertRun? && es[c[|c| - 1]].InsertRun?
    requires Fits(ClockAfter(es, c[0])) && Fits(ClockAfter(es, c[|c| - 1]))
    ensures Less(ToString(ClockAfter(es, c[0])), ToString(ClockAfter(es, c[|c| - 1])))
  {
    ChainForward(es, c);
    StringOrderIsCompare(ClockAfter(es, c[0]), ClockAfter(es, c[|c| - 1]));
  }
}
