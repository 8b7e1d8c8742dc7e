/** One invocation's channel to the host: a table of calls that wait for a reply. */
module HostTransport {
  import Ids
  import opened Options

  /** How a host call ended, with the JSON text of its value or error. */
  datatype Settlement = Resolved(value: string) | Rejected(error: string)

  /**
   * The state of a transport: call ids to the promises that wait for them, one
   * promise per call ever made (`None` while unsettled), and the number behind
   * each call's id (0 for a call refused before it got one).
   */
  datatype Table = Table(pending: map<string, nat>, nextCallId: nat, closed: bool,
                         promises: seq<Option<Settlement>>, numbers: seq<nat>)

  /** Every call is pending or settled, and no call id was handed out twice. */
  ghost predicate Conserving(t: Table)
  {
    && t.nextCallId >= 1 && |t.numbers| == |t.promises| && (t.closed ==> t.pending == map[])
    && (forall k :: 0 <= k < |t.numbers| ==> t.numbers[k] < t.nextCallId)
    && (forall j, k :: 0 <= j < k < |t.numbers| && t.numbers[j] != 0 && t.numbers[k] != 0 ==>
          t.numbers[j] < t.numbers[k])
    && (forall k :: 0 <= k < |t.promises| && t.promises[k].None? ==>
          && t.numbers[k] != 0 && Ids.Decimal(t.numbers[k]) in t.pending
          && t.pending[Ids.Decimal(t.numbers[k])] == k)
    && (forall id :: id in t.pending ==>
          && t.pending[id] < |t.promises| && t.promises[t.pending[id]].None?
          && id == Ids.Decimal(t.numbers[t.pending[id]]))
  }

  /** The conserving tables as a set: `Valid` is then one proposition and not its seven clauses. */
  ghost function ConservingTables(): iset<Table> { iset t: Table | Conserving(t) }

  /** What is settled stays settled, and calls are only ever added. */
  ghost predicate Extends(t: Table, t': Table)
  {
    && |t.promises| <= |t'.promises| && t.numbers <= t'.numbers && t.nextCallId <= t'.nextCallId
    && (t.closed ==> t'.closed)
    && forall k :: 0 <= k < |t.promises| && t.promises[k].Some? ==> t'.promises[k] == t.promises[k]
  }

  /** A call on a closed transport is refused; one too large to frame is refused but uses up its id. */
  function Called(t: Table, fits: bool): Table
  {
    if t.closed then
      t.(promises := t.promises + [Some(Rejected("host socket is closed"))], numbers := t.numbers + [0])
    else if !fits then
      t.(promises := t.promises + [Some(Rejected("payload exceeds the frame limit"))],
         numbers := t.numbers + [t.nextCallId], nextCallId := t.nextCallId + 1)
    else
      t.(promises := t.promises + [None], numbers := t.numbers + [t.nextCallId],
         nextCallId := t.nextCallId + 1, pending := t.pending[Ids.Decimal(t.nextCallId) := |t.promises|])
  }

  lemma CallConserves(t: Table, fits: bool)
    requires Conserving(t)
    ensures Conserving(Called(t, fits)) && Extends(t, Called(t, fits))
  {
    NextIdIsFree(t);
  }

  /** A closed transport: every unsettled call rejected with the reason. */
  function Shut(t: Table, reason: string): Table
  {
    t.(pending := map[], closed := true, promises := seq(|t.promises|, k requires 0 <= k < |t.promises| =>
         if t.promises[k].None? then Some(Rejected(reason)) else t.promises[k]))
  }

  lemma ShutConserves(t: Table, reason: string)
    requires Conserving(t)
    ensures Conserving(Shut(t, reason)) && Extends(t, Shut(t, reason))
  {
  }

  /** `u` is `t` with some of its unsettled calls rejected. */
  ghost predicate Failing(t: Table, u: Table, reason: string)
  {
    Conserving(u) && Shut(u, reason) == Shut(t, reason) && u.closed == t.closed
  }

  /** The same for the tables a loop over pending calls may pass through. */
  ghost function FailingFrom(t: Table, reason: string): iset<Table> { iset u: Table | Failing(t, u, reason) }

  lemma FailingStep(t: Table, u: Table, reason: string, callId: string)
    requires Failing(t, u, reason) && callId in u.pending
    ensures Failing(t, Settle(u, callId, Rejected(reason)), reason)
  {
    SettleConserves(u, callId, Rejected(reason));
    var v := Settle(u, callId, Rejected(reason));
    assert Shut(v, reason).promises == Shut(u, reason).promises;
  }

  lemma FailingDone(t: Table, u: Table, reason: string)
    requires Failing(t, u, reason) && u.pending == map[]
    ensures u.(closed := true) == Shut(t, reason)
  {
    assert forall k :: 0 <= k < |u.promises| ==> u.promises[k].Some?;
    assert u.promises == Shut(u, reason).promises;
  }

  /** A call id that was never handed out is not pending. */
  lemma NextIdIsFree(t: Table)
    requires Conserving(t)
    ensures Ids.Decimal(t.nextCallId) !in t.pending
  {
    var id := Ids.Decimal(t.nextCallId);
    if id in t.pending {
      Ids.DecimalInjective(t.numbers[t.pending[id]], t.nextCallId);
      assert false;
    }
  }

  function Settle(t: Table, callId: string, s: Settlement): Table
    requires callId in t.pending
  {
    var k := t.pending[callId];
    t.(pending := t.pending - {callId}, promises := if k < |t.promises| then t.promises[k := Some(s)] else t.promises)
  }

  lemma SettleConserves(t: Table, callId: string, s: Settlement)
    requires Conserving(t) && callId in t.pending
    ensures Conserving(Settle(t, callId, s)) && Extends(t, Settle(t, callId, s))
  {
  }

  /** The new promise waits exactly if the call went out, under the id it went out with. */
  lemma CallFate(t: Table, fits: bool)
    requires Conserving(t)
    ensures Called(t, fits).nextCallId == t.nextCallId + if t.closed then 0 else 1
    ensures var u, k := Called(t, fits), |t.promises|;
            && |u.promises| == k + 1 && (u.promises[k].None? <==> !t.closed && fits)
            && (u.promises[k].Some? ==> u.promises[k].value.Rejected? && u.pending == t.pending)
            && (u.promises[k].None? ==> u.pending == t.pending[Ids.Decimal(t.nextCallId) := k])
  {
    NextIdIsFree(t);
  }

  /** Whoever waited is rejected with the reason. */
  lemma ShutFate(t: Table, reason: string)
    requires Conserving(t)
    ensures Shut(t, reason).closed && Shut(t, reason).pending == map[]
    ensures forall id :: id in t.pending ==> Shut(t, reason).promises[t.pending[id]] == Some(Rejected(reason))
  {
  }

  /** The promise behind the id is settled as the reply says, every other one as it was. */
  lemma SettleFate(t: Table, callId: string, s: Settlement)
    requires Conserving(t) && callId in t.pending
    ensures var u, k := Settle(t, callId, s), t.pending[callId];
            && callId !in u.pending && u.promises[k] == Some(s)
            && (forall id :: id in t.pending && id != callId ==>
                  id in u.pending && u.pending[id] == t.pending[id] && u.promises[u.pending[id]].None?)
  {
  }

  class SocketHostTransport {
    const invocation: nat
    var pending: map<string, nat>
    var nextCallId: nat
    var closed: bool
    var promises: seq<Option<Settlement>>
    ghost var numbers: seq<nat>

    ghost function State(): Table
      reads this
    {
      Table(pending, nextCallId, closed, promises, numbers)
    }

    ghost predicate Valid()
      reads this
    {
      State() in ConservingTables()
    }

    constructor (invocation: nat)
      ensures Valid() && State() == Table(map[], 1, false, [], []) && this.invocation == invocation
    {
      this.invocation := invocation;
      pending, nextCallId, closed, promises, numbers := map[], 1, false, [], [];
    }

    /** Starts a host call; `fits` says whether its frame is within the bound. Returns the id to send, if any. */
    method Call(fits: bool) returns (promise: nat, callId: Option<string>)
      requires Valid()
      modifies this
      ensures Valid() && State() == Called(old(State()), fits)
      ensures promise == |old(promises)|
      ensures callId == if old(closed) || !fits then None else Some(Ids.Decimal(old(nextCallId)))
    {
      CallConserves(State(), fits);
      promise := |promises|;
      if closed {
        promises, numbers := promises + [Some(Rejected("host socket is closed"))], numbers + [0];
        return promise, None;
      }
      var id := Ids.Decimal(nextCallId);
      numbers := numbers + [nextCallId];
      nextCallId := nextCallId + 1;
      if !fits {
        promises := promises + [Some(Rejected("payload exceeds the frame limit"))];
        return promise, None;
      }
      pending, promises := pending[id := promise], promises + [None];
      return promise, Some(id);
    }

    /** Settles the call a reply answers; a reply to no pending call changes nothing. */
    method HandleReply(callId: string, settlement: Settlement)
      requires Valid()
      modifies this`pending, this`promises
      ensures Valid() && Extends(old(State()), State())
      ensures State() == if callId in old(pending) then Settle(old(State()), callId, settlement) else old(State())
    {
      if callId in pending {
        SettleConserves(State(), callId, settlement);
        var k := pending[callId];
        pending := pending - {callId};
        promises := promises[k := Some(settlement)];
      }
    }

    /** Rejects everything that is still pending, and nothing else. */
    method FailAll(reason: string)
      requires Valid()
      modifies this`pending, this`promises
      ensures State() in FailingFrom(old(State()), reason) && pending == map[]
    {
      ghost var before := State();
      while pending != map[]
        invariant State() in FailingFrom(before, reason)
        decreases pending.Keys
      {
        var id :| id in pending;
        FailingStep(before, State(), reason, id);
        HandleReply(id, Rejected(reason));
      }
    }

    /** Ends the transport: every unsettled call is rejected with the reason. */
    method Close(reason: string)
      requires Valid()
      modifies this
      ensures Valid() && State() == Shut(old(State()), reason)
    {
      ghost var before := State();
      FailAll(reason);
      FailingDone(before, State(), reason);
      ShutConserves(before, reason);
      closed := true;
    }
  }
}
