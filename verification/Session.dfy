/**
 * One host connection serving many invocations.  Each method is one event;
 * since every event keeps `Valid`, what it says about the log of outputs holds
 * after every interleaving of chunks, handler settlement, clean-up and close.
 */
module Session {
  import Ids
  import opened Options
  import opened FrameCodec
  import opened HostTransport

  const FRESH: Table := Table(map[], 1, false, [], [])

  /** What the host may send; any other frame type decodes and is ignored. */
  datatype HostFrame = Invoke | Reply(callId: string, settlement: Settlement) | Unrecognized

  /**
   * Observable steps in order: frames sent, invocations started, the halt, the
   * fatal callback.  A note is a log line or an audit record; `Done` marks the
   * clean-up of an invocation and sends nothing.
   */
  datatype Output =
    | Ready
    | Start(invocation: nat)
    | HostCall(invocation: nat, callId: string)
    | Note(invocation: nat)
    | Result(invocation: nat)
    | Done(invocation: nat)
    | Halt
    | Fatal

  /** How often an output occurs. */
  function Count(log: seq<Output>, o: Output): nat { multiset(log)[o] }

  function Once(b: bool): nat { if b then 1 else 0 }

  /** Nothing is sent or started after the halt. */
  ghost predicate Quiet(log: seq<Output>)
  {
    forall i, j :: 0 <= i < j < |log| && log[i] == Halt ==> log[j] == Fatal || log[j].Done?
  }

  /** A log that nothing has halted yet may take any output; after the halt, only the report and clean-ups. */
  lemma Append(log: seq<Output>, o: Output)
    requires Quiet(log) && (Count(log, Halt) == 0 || o == Fatal || o.Done?)
    ensures Quiet(log + [o])
    ensures forall x :: Count(log + [o], x) == Count(log, x) + Once(x == o)
  {
    assert forall i :: 0 <= i < |log| ==> log[i] in multiset(log);
  }

  lemma AppendHalt(log: seq<Output>)
    requires Quiet(log) && Count(log, Halt) == 0
    ensures Quiet(log + [Halt] + [Fatal])
    ensures forall x :: Count(log + [Halt] + [Fatal], x) == Count(log, x) + Once(x == Halt || x == Fatal)
  {
    Append(log, Halt);
    Append(log + [Halt], Fatal);
  }

  /**
   * The flags of a session with its log and the call table of every invocation
   * started.  `handlerDone` says that the running handler settled and its
   * clean-up is due; `answered` collects the invocations whose handler settled
   * before any halt.
   */
  datatype Flags = Flags(log: seq<Output>, readySent: bool, stopped: bool, fatal: bool, inFlight: bool,
                         settled: bool, handlerDone: bool, tables: seq<Table>, answered: set<nat>)
  {
    predicate Halted() { stopped || fatal }

    function Sends(o: Output): Flags { this.(log := log + [o]) }

    /** The running invocation's transport is shut. */
    function Shuts(reason: string): Flags { this.(tables := ShutLast(tables, inFlight, reason)) }
  }

  function ShutLast(tables: seq<Table>, inFlight: bool, reason: string): (r: seq<Table>)
    ensures |r| == |tables|
  {
    if inFlight && |tables| > 0 then tables[|tables| - 1 := Shut(tables[|tables| - 1], reason)] else tables
  }

  /** At most one `ready`, result, halt and fatal report; exactly one result for an answered invocation. */
  ghost predicate Orderly(f: Flags)
  {
    && Quiet(f.log)
    && Count(f.log, Ready) == Once(f.readySent)
    && Count(f.log, Halt) == Once(f.Halted())
    && Count(f.log, Fatal) == Once(f.fatal)
    && (forall n: nat :: Count(f.log, Start(n)) == Once(1 <= n <= |f.tables|))
    && (forall n: nat :: Count(f.log, Result(n)) <= Once(1 <= n <= |f.tables|))
    && (f.inFlight ==> |f.tables| >= 1 && Count(f.log, Result(|f.tables|)) == Once(f.settled))
    && (forall n :: n in f.answered ==> 1 <= n <= |f.tables| && Count(f.log, Result(n)) == 1)
  }

  /** Only a halt answers an invocation before its handler ends. */
  ghost predicate Excused(f: Flags)
  {
    f.inFlight && f.settled && !f.handlerDone ==> f.Halted()
  }

  /** Every table conserves its calls; the running invocation's is open, and no other, and none after a halt. */
  ghost predicate Wired(f: Flags)
  {
    && (forall i :: 0 <= i < |f.tables| ==> Conserving(f.tables[i]))
    && (forall i :: 0 <= i < |f.tables| && (i + 1 < |f.tables| || !f.inFlight || f.Halted()) ==> f.tables[i].closed)
    && (f.inFlight && !f.Halted() && |f.tables| > 0 ==> !f.tables[|f.tables| - 1].closed)
  }

  ghost predicate Sane(f: Flags) { Orderly(f) && Excused(f) && Wired(f) }

  // ----- what a session may append to its log

  lemma ReadyOrderly(f: Flags)
    requires Orderly(f) && !f.readySent && !f.Halted()
    ensures Orderly(f.(readySent := true).Sends(Ready))
  {
    Append(f.log, Ready);
  }

  lemma StopOrderly(f: Flags)
    requires Orderly(f) && !f.Halted()
    ensures Orderly(f.(stopped := true).Sends(Halt))
  {
    Append(f.log, Halt);
  }

  lemma FatalOrderly(f: Flags)
    requires Orderly(f) && !f.Halted()
    ensures Orderly(f.(fatal := true).Sends(Halt).Sends(Fatal))
  {
    AppendHalt(f.log);
  }

  lemma ResultOrderly(f: Flags)
    requires Orderly(f) && !f.Halted() && f.inFlight && !f.settled
    ensures Orderly(f.(settled := true).Sends(Result(|f.tables|)))
  {
    Append(f.log, Result(|f.tables|));
  }

  lemma StartOrderly(f: Flags)
    requires Orderly(f) && !f.Halted() && !f.inFlight
    ensures Orderly(Started(f))
  {
    Append(f.log, Start(|f.tables| + 1));
  }

  /** Calls, notes and clean-ups are not counted. */
  lemma TrafficOrderly(f: Flags, o: Output)
    requires Orderly(f) && (o.Done? || (!f.Halted() && (o.HostCall? || o.Note?)))
    ensures Orderly(f.Sends(o))
  {
    Append(f.log, o);
  }

  /** What the tables hold does not matter to the log. */
  lemma TablesOrderly(f: Flags, tables: seq<Table>)
    requires Orderly(f) && |tables| == |f.tables|
    ensures Orderly(f.(tables := tables))
  {
  }

  // ----- what happens to the tables

  lemma ShutsWired(f: Flags, g: Flags, reason: string)
    requires Wired(f) && g.tables == f.Shuts(reason).tables
    requires g.inFlight ==> f.inFlight && g.Halted()
    ensures Wired(g)
  {
    if f.inFlight && |f.tables| > 0 { ShutConserves(f.tables[|f.tables| - 1], reason); }
  }

  /** Replacing one table by a conserving one that is as open as it was. */
  lemma TableWired(f: Flags, g: Flags, i: nat, t: Table)
    requires Wired(f) && i < |f.tables| && Conserving(t) && (f.tables[i].closed <==> t.closed)
    requires g.tables == f.tables[i := t] && g.inFlight == f.inFlight && g.Halted() == f.Halted()
    ensures Wired(g)
  {
  }

  lemma StartWired(f: Flags)
    requires Wired(f) && !f.Halted() && !f.inFlight
    ensures Wired(Started(f))
  {
    assert Conserving(FRESH);
  }

  // ----- one lemma per event

  lemma ReadySane(f: Flags)
    requires Sane(f) && !f.readySent && !f.Halted()
    ensures Sane(f.(readySent := true).Sends(Ready))
  {
    ReadyOrderly(f);
  }

  lemma CloseSane(f: Flags, reason: string)
    requires Sane(f) && !f.Halted()
    ensures Sane(f.(stopped := true).Sends(Halt).Shuts(reason))
  {
    var g := f.(stopped := true).Sends(Halt);
    StopOrderly(f);
    TablesOrderly(g, g.Shuts(reason).tables);
    ShutsWired(f, g.Shuts(reason), reason);
  }

  /** The waiting invocation gets its answer. */
  function Excuse(f: Flags): Flags
  {
    if f.inFlight && !f.settled then f.(settled := true).Sends(Result(|f.tables|)) else f
  }

  /** What a protocol error leaves: an answer for the waiting invocation, the halt, the report. */
  function Aborted(f: Flags, reason: string): Flags
  {
    Excuse(f).(fatal := true).Sends(Halt).Shuts(reason).Sends(Fatal)
  }

  lemma FailSane(f: Flags, reason: string)
    requires Sane(f) && !f.Halted()
    ensures Sane(Aborted(f, reason))
  {
    if f.inFlight && !f.settled { ResultOrderly(f); }
    var g := Excuse(f).(fatal := true).Sends(Halt).Sends(Fatal);
    FatalOrderly(Excuse(f));
    TablesOrderly(g, g.Shuts(reason).tables);
    ShutsWired(f, g.Shuts(reason), reason);
    assert Aborted(f, reason) == g.Shuts(reason);
  }

  lemma AnswerSane(f: Flags)
    requires Sane(f) && !f.Halted() && f.inFlight && !f.settled
    ensures Sane(f.(settled := true, handlerDone := true, answered := f.answered + {|f.tables|})
                  .Sends(Result(|f.tables|)))
  {
    ResultOrderly(f);
  }

  /** A new invocation with its own transport. */
  function Started(f: Flags): Flags
  {
    f.(tables := f.tables + [FRESH], inFlight := true, settled := false, handlerDone := false)
     .Sends(Start(|f.tables| + 1))
  }

  lemma StartSane(f: Flags)
    requires Sane(f) && !f.Halted() && !f.inFlight
    ensures Sane(Started(f))
  {
    StartOrderly(f);
    StartWired(f);
  }

  /** The running invocation's transport is shut and the session idle. */
  function Finished(f: Flags, reason: string): Flags
  {
    f.Shuts(reason).(inFlight := false).Sends(Done(|f.tables|))
  }

  lemma FinishSane(f: Flags, reason: string)
    requires Sane(f) && f.inFlight
    ensures Sane(Finished(f, reason))
  {
    TablesOrderly(f, f.Shuts(reason).tables);
    ShutsWired(f, f.Shuts(reason).(inFlight := false), reason);
    TrafficOrderly(f.Shuts(reason).(inFlight := false), Done(|f.tables|));
  }

  lemma CallSane(f: Flags, n: nat, fits: bool)
    requires Sane(f) && 1 <= n <= |f.tables|
    ensures Sane(CalledBy(f, n, fits))
  {
    var t := Called(f.tables[n - 1], fits);
    var g := f.(tables := f.tables[n - 1 := t]);
    CallConserves(f.tables[n - 1], fits);
    TablesOrderly(f, g.tables);
    TableWired(f, g, n - 1, t);
    if !(f.tables[n - 1].closed || !fits || f.Halted()) {
      TrafficOrderly(g, HostCall(n, Ids.Decimal(f.tables[n - 1].nextCallId)));
    }
  }

  lemma NoteSane(f: Flags, n: nat)
    requires Sane(f) && 1 <= n <= |f.tables|
    ensures Sane(NotedBy(f, n))
  {
    if !f.tables[n - 1].closed && !f.Halted() { TrafficOrderly(f, Note(n)); }
  }

  lemma ReplyWired(f: Flags, callId: string, s: Settlement)
    requires Wired(f)
    ensures Wired(Answered(f, callId, s))
  {
    var n := |f.tables| - 1;
    if f.inFlight && n >= 0 && callId in f.tables[n].pending {
      SettleConserves(f.tables[n], callId, s);
      TableWired(f, Answered(f, callId, s), n, Settle(f.tables[n], callId, s));
    }
  }

  lemma ReplySane(f: Flags, callId: string, s: Settlement)
    requires Sane(f)
    ensures Sane(Answered(f, callId, s))
  {
    var g := Answered(f, callId, s);
    TablesOrderly(f, g.tables);
    ReplyWired(f, callId, s);
    assert g == f.(tables := g.tables);
  }

  /** The current invocation's call with that id is settled, if there is one. */
  function Answered(f: Flags, callId: string, s: Settlement): Flags
  {
    var n := |f.tables| - 1;
    if f.inFlight && n >= 0 && callId in f.tables[n].pending
    then f.(tables := f.tables[n := Settle(f.tables[n], callId, s)]) else f
  }

  /** A host call of invocation `n`; a frame goes out unless the call is refused or the session halted. */
  function CalledBy(f: Flags, n: nat, fits: bool): Flags
    requires 1 <= n <= |f.tables|
  {
    var t := f.tables[n - 1];
    var g := f.(tables := f.tables[n - 1 := Called(t, fits)]);
    if t.closed || !fits || f.Halted() then g else g.Sends(HostCall(n, Ids.Decimal(t.nextCallId)))
  }

  /** A log line or an audit record of invocation `n`. */
  function NotedBy(f: Flags, n: nat): Flags
    requires 1 <= n <= |f.tables|
  {
    if f.tables[n - 1].closed || f.Halted() then f else f.Sends(Note(n))
  }

  /** The session after one frame of the host. */
  function Handled(f: Flags, frame: HostFrame): (g: Flags)
    requires f.Halted() ==> f.inFlight
    ensures g.Halted() ==> g.inFlight
  {
    match frame
    case Reply(callId, settlement) => Step(f, HostReplies(callId, settlement))
    case Invoke => Step(f, HostInvokes)
    case Unrecognized => f
  }

  function HandledAll(f: Flags, frames: seq<HostFrame>): (g: Flags)
    requires f.Halted() ==> f.inFlight
    ensures g.Halted() ==> g.inFlight
    decreases |frames|
  {
    if frames == [] then f else Handled(HandledAll(f, frames[..|frames| - 1]), frames[|frames| - 1])
  }

  /** The session after a chunk: every complete frame handled in order, or the connection failed. */
  function Took(f: Flags, decoded: DecodeResult<HostFrame>): Flags
    requires !f.Halted()
  {
    match decoded
    case Decoded(frames, _) => HandledAll(f, frames)
    case Failed(_) => Step(f, Breaks)
  }

  // ----- runs

  datatype Event =
    | Opens
    | HostCloses
    | Breaks
    | HostInvokes
    | HostReplies(callId: string, settlement: Settlement)
    | HandlerEnds
    | CleansUp
    | HandlerAsks(invocation: nat, fits: bool)
    | HandlerNotes(invocation: nat)

  /**
   * When an event can happen: a handler ends once, clean-up follows it, a stale
   * handler may still ask, and frames behind one that halted the session are
   * dispatched only while an invocation is in flight.
   */
  predicate Enabled(f: Flags, e: Event)
  {
    match e
    case HandlerEnds => f.inFlight && !f.handlerDone
    case CleansUp => f.inFlight && f.handlerDone
    case HandlerAsks(n, _) => 1 <= n <= |f.tables|
    case HandlerNotes(n) => 1 <= n <= |f.tables|
    case HostInvokes => f.Halted() ==> f.inFlight
    case _ => true
  }

  function Step(f: Flags, e: Event): Flags
    requires Enabled(f, e)
  {
    match e
    case Opens => if f.readySent || f.Halted() then f else f.(readySent := true).Sends(Ready)
    case HostCloses =>
      if f.Halted() then f else f.(stopped := true).Sends(Halt).Shuts("host closed the connection")
    case Breaks => if f.Halted() then f else Aborted(f, "runner finished")
    case HostInvokes =>
      if !f.inFlight then Started(f) else if f.Halted() then f else Aborted(f, "runner finished")
    case HostReplies(callId, settlement) => Answered(f, callId, settlement)
    case HandlerEnds =>
      if f.Halted() || f.settled then f.(handlerDone := true)
      else f.(settled := true, handlerDone := true, answered := f.answered + {|f.tables|}).Sends(Result(|f.tables|))
    case CleansUp => Finished(f, "runner finished")
    case HandlerAsks(n, fits) => CalledBy(f, n, fits)
    case HandlerNotes(n) => NotedBy(f, n)
  }

  lemma OpensSane(f: Flags)
    requires Sane(f)
    ensures Sane(Step(f, Opens))
  {
    if !f.readySent && !f.Halted() { ReadySane(f); }
  }

  lemma BreaksSane(f: Flags)
    requires Sane(f)
    ensures Sane(Step(f, HostCloses)) && Sane(Step(f, Breaks))
  {
    if !f.Halted() {
      CloseSane(f, "host closed the connection");
      FailSane(f, "runner finished");
    }
  }

  lemma InvokesSane(f: Flags)
    requires Sane(f) && Enabled(f, HostInvokes)
    ensures Sane(Step(f, HostInvokes))
  {
    if !f.inFlight {
      StartSane(f);
    } else if !f.Halted() {
      FailSane(f, "runner finished");
    }
  }

  lemma EndsSane(f: Flags)
    requires Sane(f) && Enabled(f, HandlerEnds)
    ensures Sane(Step(f, HandlerEnds))
  {
    if !f.Halted() && !f.settled { AnswerSane(f); }
  }

  lemma StepSane(f: Flags, e: Event)
    requires Sane(f) && Enabled(f, e)
    ensures Sane(Step(f, e))
  {
    match e
    case Opens => OpensSane(f);
    case HostCloses => BreaksSane(f);
    case Breaks => BreaksSane(f);
    case HostInvokes => InvokesSane(f);
    case HostReplies(callId, settlement) => ReplySane(f, callId, settlement);
    case HandlerEnds => EndsSane(f);
    case CleansUp => FinishSane(f, "runner finished");
    case HandlerAsks(n, fits) => CallSane(f, n, fits);
    case HandlerNotes(n) => NoteSane(f, n);
  }

  ghost predicate Runs(f: Flags, es: seq<Event>)
    decreases |es|
  {
    es == [] || (Enabled(f, es[0]) && Runs(Step(f, es[0]), es[1..]))
  }

  ghost function Run(f: Flags, es: seq<Event>): Flags
    requires Runs(f, es)
    decreases |es|
  {
    if es == [] then f else Run(Step(f, es[0]), es[1..])
  }

  lemma {:induction false} RunSane(f: Flags, es: seq<Event>)
    requires Sane(f) && Runs(f, es)
    ensures Sane(Run(f, es))
    decreases |es|
  {
    if es != [] {
      StepSane(f, es[0]);
      RunSane(Step(f, es[0]), es[1..]);
    }
  }

  // ----- a chunk is a run

  /** The events the frames of a chunk stand for, one by one; unrecognized frames are none. */
  function EventsOf(frames: seq<HostFrame>): seq<Event>
  {
    if frames == [] then []
    else
      EventsOf(frames[..|frames| - 1]) +
      match frames[|frames| - 1]
      case Reply(callId, settlement) => [HostReplies(callId, settlement)]
      case Invoke => [HostInvokes]
      case Unrecognized => []
  }

  /** What a chunk amounts to: an event per frame, or the failure. */
  function TookEvents(decoded: DecodeResult<HostFrame>): seq<Event>
  {
    match decoded
    case Decoded(frames, _) => EventsOf(frames)
    case Failed(_) => [Breaks]
  }

  lemma {:induction false} RunConcat(f: Flags, es: seq<Event>, more: seq<Event>)
    requires Runs(f, es) && Runs(Run(f, es), more)
    ensures Runs(f, es + more) && Run(f, es + more) == Run(Run(f, es), more)
    decreases |es|
  {
    if es == [] {
      assert es + more == more;
    } else {
      assert (es + more)[1..] == es[1..] + more;
      RunConcat(Step(f, es[0]), es[1..], more);
    }
  }

  lemma RunOne(f: Flags, e: Event)
    requires Enabled(f, e)
    ensures Runs(f, [e]) && Run(f, [e]) == Step(f, e)
  {
    assert [e][1..] == [];
  }

  /** Handling the frames of a chunk is one event per frame, in order. */
  lemma {:induction false} HandledAllIsRun(f: Flags, frames: seq<HostFrame>)
    requires f.Halted() ==> f.inFlight
    ensures Runs(f, EventsOf(frames)) && HandledAll(f, frames) == Run(f, EventsOf(frames))
    decreases |frames|
  {
    if frames != [] {
      var init, last := frames[..|frames| - 1], frames[|frames| - 1];
      HandledAllIsRun(f, init);
      var g := HandledAll(f, init);
      match last
      case Reply(callId, settlement) =>
        RunOne(g, HostReplies(callId, settlement));
        RunConcat(f, EventsOf(init), [HostReplies(callId, settlement)]);
      case Invoke =>
        RunOne(g, HostInvokes);
        RunConcat(f, EventsOf(init), [HostInvokes]);
      case Unrecognized => assert EventsOf(frames) == EventsOf(init);
    }
  }

  /** Every frame is handled: a chunk is its first part and then its second, however it is divided. */
  lemma {:induction false} HandledAllConcat(f: Flags, a: seq<HostFrame>, b: seq<HostFrame>)
    requires f.Halted() ==> f.inFlight
    ensures HandledAll(f, a + b) == HandledAll(HandledAll(f, a), b)
    ensures EventsOf(a + b) == EventsOf(a) + EventsOf(b)
    decreases |b|
  {
    if b == [] {
      assert a + b == a;
    } else {
      assert (a + b)[..|a + b| - 1] == a + b[..|b| - 1];
      HandledAllConcat(f, a, b[..|b| - 1]);
    }
  }

  lemma HandledOne(f: Flags, frame: HostFrame)
    requires f.Halted() ==> f.inFlight
    ensures HandledAll(f, [frame]) == Handled(f, frame)
  {
    assert [frame][..0] == [];
  }

  lemma HandledNext(f: Flags, frames: seq<HostFrame>, i: nat)
    requires i < |frames| && (f.Halted() ==> f.inFlight)
    ensures HandledAll(f, frames[..i + 1]) == Handled(HandledAll(f, frames[..i]), frames[i])
    ensures EventsOf(frames[..i + 1]) == EventsOf(frames[..i]) + EventsOf([frames[i]])
  {
    assert frames[..i + 1] == frames[..i] + [frames[i]];
    HandledAllConcat(f, frames[..i], [frames[i]]);
    HandledOne(HandledAll(f, frames[..i]), frames[i]);
  }

  /** `f` is what the events lead to. */
  ghost predicate Reached(history: seq<Event>, f: Flags)
  {
    Runs(IDLE, history) && Run(IDLE, history) == f
  }

  /** The same for histories. */
  ghost function Histories(): iset<(seq<Event>, Flags)> { iset p: (seq<Event>, Flags) | Reached(p.0, p.1) }

  lemma ReachedNext(history: seq<Event>, f: Flags, e: Event)
    requires (history, f) in Histories() && Enabled(f, e)
    ensures (history + [e], Step(f, e)) in Histories()
  {
    RunOne(f, e);
    RunConcat(IDLE, history, [e]);
  }

  lemma ReachedSane(history: seq<Event>, f: Flags)
    requires (history, f) in Histories()
    ensures Sane(f)
  {
    assert Sane(IDLE);
    RunSane(IDLE, history);
  }

  lemma OpenWhileRunning(history: seq<Event>, f: Flags, n: nat)
    requires (history, f) in Histories() && 1 <= n <= |f.tables|
    ensures f.Halted() || n < |f.tables| || !f.inFlight ==> f.tables[n - 1].closed
  {
    ReachedSane(history, f);
  }

  lemma UnansweredWhileRunning(history: seq<Event>, f: Flags)
    requires (history, f) in Histories() && f.inFlight && !f.handlerDone && !f.Halted()
    ensures !f.settled
  {
    ReachedSane(history, f);
  }

  lemma ReachedSkip(history: seq<Event>, f: Flags)
    requires (history, f) in Histories()
    ensures (history + [], f) in Histories()
  {
    assert history + [] == history;
  }

  /**
   * Every interleaving: at most one `ready`, fatal report and result per
   * invocation, exactly one result for a handler that ended before any halt,
   * nothing sent or started after the halt, nothing sent by an invocation after
   * its clean-up or the start of a later one, and no call lost or left pending by
   * a finished invocation.
   */
  lemma SessionSafety(es: seq<Event>)
    requires Runs(IDLE, es)
    ensures var f := Run(IDLE, es);
            && Count(f.log, Ready) <= 1 && Count(f.log, Fatal) <= 1
            && (forall n: nat :: Count(f.log, Result(n)) <= Count(f.log, Start(n)) <= 1)
            && (forall n :: n in f.answered ==> Count(f.log, Result(n)) == 1)
            && Quiet(f.log) && Terse(f.log)
            && (forall i :: 0 <= i < |f.tables| ==> Conserving(f.tables[i]))
            && (forall i :: 0 <= i < |f.tables| && (i + 1 < |f.tables| || !f.inFlight || f.Halted()) ==>
                  f.tables[i].closed && f.tables[i].pending == map[])
  {
    assert Sane(IDLE) && Tidy(IDLE);
    RunSane(IDLE, es);
    RunTidy(IDLE, es);
  }

  // ----- what each event answers

  /** While nothing has halted, opening sends the one `ready`. */
  lemma OpensReady(f: Flags)
    requires Sane(f) && !f.Halted()
    ensures Count(Step(f, Opens).log, Ready) == 1
  {
    if !f.readySent { Append(f.log, Ready); }
  }

  /** A protocol error answers a waiting invocation, rejects its calls, halts, and is reported once. */
  lemma BreaksAnswers(f: Flags)
    requires Sane(f) && !f.Halted()
    ensures var g := Step(f, Breaks);
            && g.Halted() && Count(g.log, Halt) == 1 && Count(g.log, Fatal) == 1
            && (f.inFlight ==> Count(g.log, Result(|f.tables|)) == 1 && g.tables[|f.tables| - 1].closed)
  {
    FailSane(f, "runner finished");
  }

  /** A second `invoke` is such an error; a first one starts an invocation with an open transport. */
  lemma InvokesStarts(f: Flags)
    requires Sane(f) && !f.Halted()
    ensures var g := Step(f, HostInvokes);
            if f.inFlight then g == Step(f, Breaks)
            else g.inFlight && |g.tables| == |f.tables| + 1 && !g.tables[|f.tables|].closed
                 && Count(g.log, Start(|g.tables|)) == 1 && !g.Halted()
  {
    if !f.inFlight { StartSane(f); }
  }

  /** The host closing halts without a frame and rejects the running invocation's calls. */
  lemma ClosesQuietly(f: Flags)
    requires Sane(f) && !f.Halted()
    ensures var g := Step(f, HostCloses);
            && g.Halted() && g.log == f.log + [Halt] && (f.inFlight ==> g.tables[|f.tables| - 1].closed)
  {
    CloseSane(f, "host closed the connection");
  }

  /** A call that fits goes out under a new id and waits; a note goes out. */
  lemma RunningSends(f: Flags)
    requires Sane(f) && f.inFlight && !f.Halted()
    ensures var n, t := |f.tables|, f.tables[|f.tables| - 1];
            var id := Ids.Decimal(t.nextCallId);
            var g := Step(f, HandlerAsks(n, true));
            && g.log == f.log + [HostCall(n, id)] && id !in t.pending
            && id in g.tables[n - 1].pending && g.tables[n - 1].promises == t.promises + [None]
            && g.tables[n - 1].pending[id] == |t.promises|
            && Step(f, HandlerNotes(n)).log == f.log + [Note(n)]
  {
    NextIdIsFree(f.tables[|f.tables| - 1]);
  }

  /** Cleaning up closes the transport, rejects what waits, and lets the next invocation in. */
  lemma CleanUpFrees(f: Flags)
    requires Sane(f) && Enabled(f, CleansUp)
    ensures var g := Step(f, CleansUp);
            && !g.inFlight && g.tables[|f.tables| - 1].closed && g.tables[|f.tables| - 1].pending == map[]
            && g.log == f.log + [Done(|f.tables|)]
  {
    FinishSane(f, "runner finished");
  }

  // ----- an invocation that is over sends nothing

  /** A frame of some invocation. */
  predicate Speaks(o: Output) { o.HostCall? || o.Note? || o.Result? }

  /** Invocation `n` is over: it was cleaned up, or a later one started. */
  predicate Ends(o: Output, n: nat) { o == Done(n) || (o.Start? && o.invocation > n) }

  /** No frame of an invocation stands behind its end. */
  ghost predicate Terse(log: seq<Output>)
  {
    forall i, j :: 0 <= i < j < |log| && Speaks(log[j]) ==> !Ends(log[i], log[j].invocation)
  }

  /** The log knows no invocation to come, and the running one has not ended in it. */
  ghost predicate Current(log: seq<Output>, started: nat, inFlight: bool)
  {
    forall i :: 0 <= i < |log| ==>
      && (log[i].Start? ==> log[i].invocation <= started)
      && (log[i].Done? ==> log[i].invocation <= started && (inFlight ==> log[i].invocation < started))
  }

  ghost predicate Tidy(f: Flags)
  {
    Terse(f.log) && Current(f.log, |f.tables|, f.inFlight)
  }

  /** What keeps a log tidy: frames of the running invocation, its start, its end. */
  lemma SendTidy(f: Flags, o: Output)
    requires Tidy(f)
    requires Speaks(o) ==> f.inFlight && o.invocation == |f.tables|
    requires o.Start? ==> o.invocation == |f.tables|
    requires o.Done? ==> !f.inFlight && o.invocation == |f.tables|
    ensures Tidy(f.Sends(o))
  {
    var log := f.Sends(o).log;
    assert forall i :: 0 <= i < |f.log| ==> log[i] == f.log[i];
    assert log[|f.log|] == o;
  }

  /** Only the running invocation's transport is open, so only it speaks. */
  lemma OpenIsCurrent(f: Flags, n: nat)
    requires Wired(f) && 1 <= n <= |f.tables| && !f.tables[n - 1].closed
    ensures f.inFlight && n == |f.tables|
  {
  }

  lemma AbortTidy(f: Flags, reason: string)
    requires Tidy(f)
    ensures Tidy(Aborted(f, reason))
  {
    if f.inFlight && !f.settled { SendTidy(f, Result(|f.tables|)); }
    var g := Excuse(f).(fatal := true);
    SendTidy(g, Halt);
    SendTidy(g.Sends(Halt).Shuts(reason), Fatal);
  }

  lemma StartTidy(f: Flags)
    requires Tidy(f)
    ensures Tidy(Started(f))
  {
    var g := f.(tables := f.tables + [FRESH], inFlight := true, settled := false, handlerDone := false);
    SendTidy(g, Start(|f.tables| + 1));
  }

  lemma FinishTidy(f: Flags, reason: string)
    requires Tidy(f)
    ensures Tidy(Finished(f, reason))
  {
    SendTidy(f.Shuts(reason).(inFlight := false), Done(|f.tables|));
  }

  lemma AskTidy(f: Flags, n: nat, fits: bool)
    requires Tidy(f) && Wired(f) && 1 <= n <= |f.tables|
    ensures Tidy(CalledBy(f, n, fits)) && Tidy(NotedBy(f, n))
  {
    var t := f.tables[n - 1];
    if !t.closed {
      OpenIsCurrent(f, n);
      SendTidy(f, Note(n));
      SendTidy(f.(tables := f.tables[n - 1 := Called(t, fits)]), HostCall(n, Ids.Decimal(t.nextCallId)));
    }
  }

  lemma StepTidy(f: Flags, e: Event)
    requires Sane(f) && Tidy(f) && Enabled(f, e)
    ensures Tidy(Step(f, e))
  {
    match e
    case Opens => SendTidy(f.(readySent := true), Ready);
    case HostCloses => SendTidy(f.(stopped := true), Halt);
    case Breaks => AbortTidy(f, "runner finished");
    case HostInvokes =>
      AbortTidy(f, "runner finished");
      StartTidy(f);
    case HostReplies(_, _) =>
    case HandlerEnds =>
      if !f.Halted() && !f.settled {
        SendTidy(f.(settled := true, handlerDone := true, answered := f.answered + {|f.tables|}), Result(|f.tables|));
      }
    case CleansUp => FinishTidy(f, "runner finished");
    case HandlerAsks(n, fits) => AskTidy(f, n, fits);
    case HandlerNotes(n) => AskTidy(f, n, true);
  }

  lemma {:induction false} RunTidy(f: Flags, es: seq<Event>)
    requires Sane(f) && Tidy(f) && Runs(f, es)
    ensures Tidy(Run(f, es))
    decreases |es|
  {
    if es != [] {
      StepSane(f, es[0]);
      StepTidy(f, es[0]);
      RunTidy(Step(f, es[0]), es[1..]);
    }
  }

  /** A handler that ends while nothing has halted has its one result from then on. */
  lemma EndedHandlerIsAnswered(f: Flags)
    requires Sane(f) && Enabled(f, HandlerEnds) && !f.Halted()
    ensures |f.tables| in Step(f, HandlerEnds).answered
  {
  }

  /** Call ids start over in each invocation: a reply meant for an old one is harmless exactly
      when the running invocation has no pending call with that id. */
  lemma StaleReply(f: Flags, n: nat, callId: string, settlement: Settlement)
    requires Sane(f) && 1 <= n <= |f.tables|
    ensures (forall i :: 0 <= i < |f.tables| && i + 1 != n ==>
               Answered(f, callId, settlement).tables[i] == f.tables[i])
            <==> !f.inFlight || n == |f.tables| || callId !in f.tables[|f.tables| - 1].pending
  {
    var last := |f.tables| - 1;
    var g := Answered(f, callId, settlement);
    if f.inFlight && callId in f.tables[last].pending {
      SettleConserves(f.tables[last], callId, settlement);
      assert g.tables == f.tables[last := Settle(f.tables[last], callId, settlement)];
      assert callId !in g.tables[last].pending;
    } else {
      assert g == f;
    }
  }

  // ----- which call a reply settles

  /** Some call of invocation `n` was given that id. */
  ghost predicate Made(tables: seq<Table>, n: nat, callId: string)
  {
    1 <= n <= |tables| && HasCall(tables[n - 1], callId)
  }

  ghost predicate HasCall(t: Table, callId: string) { exists k: nat :: IsCall(t, k, callId) }

  /** The `k`-th call of a table was given that id. */
  predicate IsCall(t: Table, k: nat, callId: string)
  {
    k < |t.numbers| && t.numbers[k] != 0 && callId == Ids.Decimal(t.numbers[k])
  }

  /** Every call frame that went out carries the id of a call in its invocation's table. */
  ghost predicate Linked(f: Flags)
  {
    forall o :: o in f.log && o.HostCall? ==> Made(f.tables, o.invocation, o.callId)
  }

  /** Tables are only added, and calls are only added to them. */
  ghost predicate Grown(tables: seq<Table>, tables': seq<Table>)
  {
    |tables| <= |tables'| && forall i :: 0 <= i < |tables| ==> tables[i].numbers <= tables'[i].numbers
  }

  lemma GrownMade(tables: seq<Table>, tables': seq<Table>, n: nat, callId: string)
    requires Grown(tables, tables') && Made(tables, n, callId)
    ensures Made(tables', n, callId)
  {
    var k: nat :| IsCall(tables[n - 1], k, callId);
    assert tables[n - 1].numbers[k] == tables'[n - 1].numbers[k];
    assert IsCall(tables'[n - 1], k, callId);
  }

  /** No call frame was added to a log. */
  ghost predicate SameCalls(log: seq<Output>, log': seq<Output>)
  {
    forall o :: o in log' && o.HostCall? ==> o in log
  }

  lemma GrownLinked(f: Flags, g: Flags)
    requires Linked(f) && Grown(f.tables, g.tables)
    requires SameCalls(f.log, g.log)
    ensures Linked(g)
  {
    forall o | o in g.log && o.HostCall? ensures Made(g.tables, o.invocation, o.callId) {
      GrownMade(f.tables, g.tables, o.invocation, o.callId);
    }
  }

  /** A call is given the next number; every earlier call keeps its own. */
  lemma CallIsMade(t: Table, fits: bool)
    ensures t.numbers <= Called(t, fits).numbers
    ensures !t.closed && fits && t.nextCallId >= 1 ==> HasCall(Called(t, fits), Ids.Decimal(t.nextCallId))
  {
    if !t.closed && fits && t.nextCallId >= 1 {
      assert IsCall(Called(t, fits), |t.numbers|, Ids.Decimal(t.nextCallId));
    }
  }

  lemma CallLinked(f: Flags, n: nat, fits: bool)
    requires Linked(f) && 1 <= n <= |f.tables| && Conserving(f.tables[n - 1])
    ensures Linked(CalledBy(f, n, fits))
  {
    var t := f.tables[n - 1];
    var g := f.(tables := f.tables[n - 1 := Called(t, fits)]);
    CallIsMade(t, fits);
    ReplaceGrows(f.tables, n - 1, Called(t, fits));
    GrownLinked(f, g);
    if !(t.closed || !fits || f.Halted()) { SendLinked(g, n, Ids.Decimal(t.nextCallId)); }
  }

  lemma SendLinked(f: Flags, n: nat, callId: string)
    requires Linked(f) && Made(f.tables, n, callId)
    ensures Linked(f.Sends(HostCall(n, callId)))
  {
  }

  lemma ReplaceGrows(tables: seq<Table>, i: nat, t: Table)
    requires i < |tables| && tables[i].numbers <= t.numbers
    ensures Grown(tables, tables[i := t])
  {
  }

  lemma ShutGrows(tables: seq<Table>, inFlight: bool, reason: string)
    ensures Grown(tables, ShutLast(tables, inFlight, reason))
  {
    if inFlight && |tables| > 0 { ReplaceGrows(tables, |tables| - 1, Shut(tables[|tables| - 1], reason)); }
  }

  lemma AnsweredGrows(f: Flags, callId: string, s: Settlement)
    ensures Grown(f.tables, Answered(f, callId, s).tables)
  {
    var g, n := Answered(f, callId, s), |f.tables| - 1;
    if g != f { ReplaceGrows(f.tables, n, Settle(f.tables[n], callId, s)); }
  }

  lemma StepGrows(f: Flags, e: Event)
    requires Enabled(f, e) && !e.HandlerAsks?
    ensures Grown(f.tables, Step(f, e).tables)
  {
    ShutGrows(f.tables, f.inFlight, "runner finished");
    ShutGrows(f.tables, f.inFlight, "host closed the connection");
    if e.HostReplies? { AnsweredGrows(f, e.callId, e.settlement); }
  }

  lemma StepSameCalls(f: Flags, e: Event)
    requires Enabled(f, e) && !e.HandlerAsks?
    ensures SameCalls(f.log, Step(f, e).log)
  {
    if e.Breaks? || e.HostInvokes? { AbortSameCalls(f, "runner finished"); }
  }

  lemma AbortSameCalls(f: Flags, reason: string)
    ensures SameCalls(f.log, Aborted(f, reason).log)
  {
    assert Aborted(f, reason).log == Excuse(f).log + [Halt] + [Fatal];
  }

  lemma StepLinked(f: Flags, e: Event)
    requires Sane(f) && Linked(f) && Enabled(f, e)
    ensures Linked(Step(f, e))
  {
    if e.HandlerAsks? {
      CallLinked(f, e.invocation, e.fits);
    } else {
      StepGrows(f, e);
      StepSameCalls(f, e);
      GrownLinked(f, Step(f, e));
    }
  }

  lemma {:induction false} RunLinked(f: Flags, es: seq<Event>)
    requires Sane(f) && Linked(f) && Runs(f, es)
    ensures Linked(Run(f, es))
    decreases |es|
  {
    if es != [] {
      StepSane(f, es[0]);
      StepLinked(f, es[0]);
      RunLinked(Step(f, es[0]), es[1..]);
    }
  }

  ghost predicate OnlyCall(t: Table, k: nat, callId: string)
  {
    IsCall(t, k, callId) && forall j: nat :: IsCall(t, j, callId) ==> j == k
  }

  /** Call ids of one invocation are distinct. */
  lemma OneCall(t: Table, j: nat, k: nat, callId: string)
    requires Conserving(t) && IsCall(t, j, callId) && IsCall(t, k, callId)
    ensures j == k
  {
    Ids.DecimalInjective(t.numbers[j], t.numbers[k]);
  }

  /** `g` is `f` with the `k`-th call of the current invocation settled; `f` itself if it was settled before. */
  ghost predicate SettlesOnly(f: Flags, g: Flags, k: nat, callId: string, s: Settlement)
    requires |f.tables| > 0
  {
    var n := |f.tables| - 1;
    var t := f.tables[n];
    && k < |t.promises|
    && g == if t.promises[k].Some? then f
            else f.(tables := f.tables[n := t.(pending := t.pending - {callId}, promises := t.promises[k := Some(s)])])
  }

  lemma ReplyTo(f: Flags, callId: string, s: Settlement, k: nat)
    requires Wired(f) && |f.tables| > 0 && IsCall(f.tables[|f.tables| - 1], k, callId)
    ensures SettlesOnly(f, Answered(f, callId, s), k, callId, s)
  {
    var t := f.tables[|f.tables| - 1];
    if callId in t.pending { OneCall(t, t.pending[callId], k, callId); }
  }

  /**
   * After every run: if the host answers a call of its latest invoke, then one
   * call and one only went out with that id, and the reply settles that call's
   * promise and nothing else, unless it was settled before.
   */
  lemma ReplyFindsItsCall(es: seq<Event>, callId: string, settlement: Settlement)
    requires Runs(IDLE, es) && HostCall(|Run(IDLE, es).tables|, callId) in Run(IDLE, es).log
    ensures var f := Run(IDLE, es);
            && |f.tables| > 0
            && exists k: nat ::
                 && OnlyCall(f.tables[|f.tables| - 1], k, callId)
                 && SettlesOnly(f, Answered(f, callId, settlement), k, callId, settlement)
  {
    assert Sane(IDLE) && Linked(IDLE);
    RunSane(IDLE, es);
    RunLinked(IDLE, es);
    var f := Run(IDLE, es);
    assert Made(f.tables, |f.tables|, callId);
    var t := f.tables[|f.tables| - 1];
    var k: nat :| IsCall(t, k, callId);
    forall j: nat | IsCall(t, j, callId) ensures j == k { OneCall(t, j, k, callId); }
    ReplyTo(f, callId, settlement, k);
  }

  /** A run in which the host answers the first invocation's call after starting the second. */
  const LATE_REPLY: seq<Event> :=
    [HostInvokes, HandlerAsks(1, true), HandlerEnds, CleansUp, HostInvokes, HandlerAsks(2, true)]

  const FIRST_CALL: Table := Table(map["1" := 0], 2, false, [None], [1])

  lemma FirstCallIsOne()
    ensures Called(FRESH, true) == FIRST_CALL
  {
    assert Ids.Decimal(1) == "1";
  }

  lemma LateReplyRun()
    ensures Runs(IDLE, LATE_REPLY)
    ensures var f := Run(IDLE, LATE_REPLY);
            && f.inFlight && f.tables == [Shut(FIRST_CALL, "runner finished"), FIRST_CALL]
            && f.log == [Start(1), HostCall(1, "1"), Result(1), Done(1), Start(2), HostCall(2, "1")]
  {
    FirstCallIsOne();
    assert Ids.Decimal(1) == "1";
    var es := LATE_REPLY;
    var f1 := Step(IDLE, es[0]);
    var f2 := Step(f1, es[1]);
    var f3 := Step(f2, es[2]);
    var f4 := Step(f3, es[3]);
    var f5 := Step(f4, es[4]);
    var f6 := Step(f5, es[5]);
    assert es[5..] == [es[5]] && es[6..] == [];
    assert Run(f6, es[6..]) == f6;
    assert Run(f5, es[5..]) == f6 by { assert es[5..][1..] == es[6..]; }
    assert Run(f4, es[4..]) == f6 by { assert es[4..][1..] == es[5..]; }
    assert Run(f3, es[3..]) == f6 by { assert es[3..][1..] == es[4..]; }
    assert Run(f2, es[2..]) == f6 by { assert es[2..][1..] == es[3..]; }
    assert Run(f1, es[1..]) == f6 by { assert es[1..][1..] == es[2..]; }
    assert f2.tables == [FIRST_CALL];
    assert f4.tables == [Shut(FIRST_CALL, "runner finished")];
  }

  /** The late reply to the first invocation's call settles the second's. */
  lemma StaleReplyMisdelivers(settlement: Settlement)
    ensures Runs(IDLE, LATE_REPLY)
    ensures var f := Run(IDLE, LATE_REPLY);
            && HostCall(1, "1") in f.log && |f.tables| == 2 && f.tables[1].promises == [None]
            && |Answered(f, "1", settlement).tables| == 2
            && Answered(f, "1", settlement).tables[1].promises == [Some(settlement)]
  {
    LateReplyRun();
    var f := Run(IDLE, LATE_REPLY);
    assert f.log[1] == HostCall(1, "1");
  }

  const IDLE: Flags := Flags([], false, false, false, false, false, false, [], {})

  /** A receiver with a stream it agrees with; as a set, so that membership is one proposition. */
  ghost function FaithfulFeeds(parse: seq<Byte> -> PayloadResult<HostFrame>): iset<(Receiver<HostFrame>, seq<Byte>)>
  {
    iset p: (Receiver<HostFrame>, seq<Byte>) | Faithful(p.0, ScanAll(p.1, parse))
  }

  class Session {
    const parse: seq<Byte> -> PayloadResult<HostFrame>
    var buffer: seq<Byte>
    /** The connection's flags, its log, and the transport of every invocation started. */
    var s: Flags
    /** All bytes taken in, the frames dispatched from them, and the failure met, if any. */
    ghost var stream: seq<Byte>
    ghost var dispatched: seq<HostFrame>
    ghost var failure: Option<DecodeError>
    /** Everything that happened, so that `SessionSafety` speaks of every session. */
    ghost var history: seq<Event>

    ghost function Fed(): Receiver<HostFrame>
      reads this
    {
      Receiver(buffer, dispatched, failure)
    }

    /**
     * The session is what its history of events leads to, so that `SessionSafety`
     * holds of it, and what was dispatched is what the stream says.
     */
    ghost predicate Valid()
      reads this
    {
      (history, s) in Histories() && (Fed(), stream) in FaithfulFeeds(parse) && (failure.Some? ==> s.fatal)
    }

    constructor (parse: seq<Byte> -> PayloadResult<HostFrame>)
      ensures Valid() && s == IDLE && stream == [] && history == []
    {
      this.parse := parse;
      buffer, s := [], IDLE;
      stream, dispatched, failure, history := [], [], None, [];
    }

    /** Sends `ready` once. */
    method Opened()
      requires Valid()
      modifies this`s, this`history
      ensures Valid() && s == Step(old(s), Opens)
      ensures history == old(history) + [Opens]
    {
      ReachedNext(history, s, Opens);
      history := history + [Opens];
      if s.readySent || s.Halted() { return; }
      s := s.(readySent := true);
      s := s.Sends(Ready);
    }

    /** The host closed the connection. */
    method Closed()
      requires Valid()
      modifies this`s, this`history
      ensures Valid() && s.Halted() && s == Step(old(s), HostCloses)
      ensures history == old(history) + [HostCloses]
    {
      ReachedNext(history, s, HostCloses);
      history := history + [HostCloses];
      if s.Halted() { return; }
      s := s.(stopped := true).Sends(Halt);
      s := s.Shuts("host closed the connection");
    }

    /** A protocol error: answer the waiting invocation, halt, report once. */
    method Fail()
      requires Valid()
      modifies this`s, this`history
      ensures Valid() && s.Halted() && s == Step(old(s), Breaks)
      ensures history == old(history) + [Breaks]
    {
      ReachedNext(history, s, Breaks);
      history := history + [Breaks];
      if s.Halted() { return; }
      if s.inFlight && !s.settled { s := s.(settled := true).Sends(Result(|s.tables|)); }
      s := s.(fatal := true).Sends(Halt);
      s := s.Shuts("runner finished");
      s := s.Sends(Fatal);
    }

    /** The handler's promise settles; its outcome is sent unless the session halted. */
    method HandlerSettles()
      requires Valid() && s.inFlight && !s.handlerDone
      modifies this`s, this`history
      ensures Valid() && s == Step(old(s), HandlerEnds)
      ensures s.log == old(s.log) + if s.Halted() then [] else [Result(|s.tables|)]
      ensures history == old(history) + [HandlerEnds]
    {
      ReachedNext(history, s, HandlerEnds);
      if !s.Halted() { UnansweredWhileRunning(history, s); }
      history := history + [HandlerEnds];
      if s.Halted() || s.settled {
        s := s.(handlerDone := true);
        return;
      }
      s := s.(handlerDone := true, settled := true, answered := s.answered + {|s.tables|});
      s := s.Sends(Result(|s.tables|));
    }

    /** Clean-up after a settled handler: its transport is shut with nothing left pending. */
    method Finish()
      requires Valid() && s.inFlight && s.handlerDone
      modifies this`s, this`history
      ensures Valid() && s == Step(old(s), CleansUp)
      ensures history == old(history) + [CleansUp]
    {
      ReachedNext(history, s, CleansUp);
      history := history + [CleansUp];
      s := s.Shuts("runner finished");
      s := s.(inFlight := false);
      s := s.Sends(Done(|s.tables|));
    }

    /** The handler of invocation `n`, running or stale, makes a host call. */
    method HandlerCalls(n: nat, fits: bool)
      requires Valid() && 1 <= n <= |s.tables|
      modifies this`s, this`history
      ensures Valid() && s == Step(old(s), HandlerAsks(n, fits))
      // Nothing goes out for a finished invocation or a halted session.
      ensures s.Halted() || n < |s.tables| || !s.inFlight ==> s.log == old(s.log)
      ensures history == old(history) + [HandlerAsks(n, fits)]
    {
      ReachedNext(history, s, HandlerAsks(n, fits));
      history := history + [HandlerAsks(n, fits)];
      OpenWhileRunning(old(history), s, n);
      var t := s.tables[n - 1];
      s := s.(tables := s.tables[n - 1 := Called(t, fits)]);
      if !(t.closed || !fits || s.Halted()) { s := s.Sends(HostCall(n, Ids.Decimal(t.nextCallId))); }
    }

    /** The handler of invocation `n`, running or stale, writes a log line or an audit record. */
    method HandlerNotes(n: nat)
      requires Valid() && 1 <= n <= |s.tables|
      modifies this`s, this`history
      ensures Valid() && s == Step(old(s), Event.HandlerNotes(n))
      ensures s.Halted() || n < |s.tables| || !s.inFlight ==> s.log == old(s.log)
      ensures history == old(history) + [Event.HandlerNotes(n)]
    {
      ReachedNext(history, s, Event.HandlerNotes(n));
      history := history + [Event.HandlerNotes(n)];
      OpenWhileRunning(old(history), s, n);
      if s.tables[n - 1].closed || s.Halted() { return; }
      s := s.Sends(Note(n));
    }

    method Begin()
      requires Valid() && !s.Halted() && !s.inFlight
      modifies this`s, this`history
      ensures Valid() && s == Started(old(s))
      ensures history == old(history) + [HostInvokes]
    {
      ReachedNext(history, s, HostInvokes);
      history := history + [HostInvokes];
      s := s.(tables := s.tables + [FRESH], inFlight := true, settled := false, handlerDone := false);
      s := s.Sends(Start(|s.tables|));
    }

    /** Starts an invocation, or fails the session if one is running. */
    method Invoked()
      requires Valid() && (s.Halted() ==> s.inFlight)
      modifies this`s, this`history
      ensures Valid() && s == Step(old(s), HostInvokes)
      ensures history == old(history) + [HostInvokes]
    {
      ghost var before := history;
      ReachedNext(history, s, HostInvokes);
      if s.inFlight {
        Fail();
      } else {
        Begin();
      }
      history := before + [HostInvokes];
    }

    /** A reply settles the pending call of the current invocation that has its id, and nothing else. */
    method Replied(callId: string, settlement: Settlement)
      requires Valid()
      modifies this`s, this`history
      ensures Valid() && s == Answered(old(s), callId, settlement)
      ensures history == old(history) + [HostReplies(callId, settlement)]
    {
      ReachedNext(history, s, HostReplies(callId, settlement));
      history := history + [HostReplies(callId, settlement)];
      var n := |s.tables| - 1;
      if s.inFlight && n >= 0 && callId in s.tables[n].pending {
        s := s.(tables := s.tables[n := Settle(s.tables[n], callId, settlement)]);
      }
    }

    method Dispatch(frame: HostFrame)
      requires Valid() && (s.Halted() ==> s.inFlight)
      modifies this`s, this`history
      ensures Valid() && s == Handled(old(s), frame) && history == old(history) + EventsOf([frame])
    {
      assert [frame][..0] == [];
      assert history + [] == history;
      match frame
      case Reply(callId, settlement) => Replied(callId, settlement);
      case Invoke => Invoked();
      case Unrecognized =>
    }

    method DispatchAll(frames: seq<HostFrame>)
      requires Valid() && !s.Halted()
      modifies this`s, this`history
      ensures Valid() && s == HandledAll(old(s), frames) && history == old(history) + EventsOf(frames)
    {
      ghost var start, before := s, history;
      assert before + [] == before;
      for i := 0 to |frames|
        invariant Valid() && s == HandledAll(start, frames[..i]) && history == before + EventsOf(frames[..i])
      {
        HandledNext(start, frames, i);
        Dispatch(frames[i]);
      }
      assert frames[..|frames|] == frames;
    }

    /** Takes in a chunk; frames may be cut anywhere. */
    method Receive(chunk: seq<Byte>)
      requires Valid()
      modifies this
      ensures Valid() && stream == old(stream) + if old(s.Halted()) then [] else chunk
      ensures s == if old(s.Halted()) then old(s) else Took(old(s), FrameCodec.Result(ScanAll(old(buffer) + chunk, parse)))
      ensures history == old(history) + if old(s.Halted()) then []
                                        else TookEvents(FrameCodec.Result(ScanAll(old(buffer) + chunk, parse)))
    {
      if s.Halted() {
        ReachedSkip(history, s);
        return;
      }
      var decoded := DecodeFrames(buffer + chunk, parse);
      FedStep(Fed(), stream, chunk, parse);
      match decoded
      case Failed(error) =>
        Fail();
        stream, failure := stream + chunk, Some(error);
      case Decoded(frames, rest) =>
        stream, buffer, dispatched := stream + chunk, rest, dispatched + frames;
        DispatchAll(frames);
    }
  }

  lemma FedStep(r: Receiver<HostFrame>, stream: seq<Byte>, chunk: seq<Byte>,
                parse: seq<Byte> -> PayloadResult<HostFrame>)
    requires (r, stream) in FaithfulFeeds(parse) && r.failed.None?
    ensures match FrameCodec.Result(ScanAll(r.buffer + chunk, parse))
            case Decoded(frames, rest) =>
              (Receiver(rest, r.delivered + frames, None), stream + chunk) in FaithfulFeeds(parse)
            case Failed(error) => (r.(failed := Some(error)), stream + chunk) in FaithfulFeeds(parse)
  {
    FeedFaithful(r, stream, chunk, parse);
  }
}
