/**
 Start, Stop and Close: the worker goroutine and the main goroutine interleave, sharing the stop and done
 channels, a context and the publisher. Every batch step of the goroutine is a step of the outbox protocol.
 */
module Lifecycle {
  import opened Wrappers
  import opened Outbox
  import opened OutboxWorker
  import P = OutboxProtocol
  import OutboxProgress
  import OutboxSingle

  datatype Runner = Selecting | Fetching | InBatch | Exited

  /** Waiting: inside Stop, after close(stop). Stopped: Stop has returned. */
  datatype Main = Serving | Waiting | Stopped | Closed

  datatype State = State(
    outbox: P.State,
    runner: Runner,
    main: Main,
    ctxDone: bool,
    stopCloses: nat,
    doneCloses: nat,
    publisherOpen: bool,
    fetched: nat,
    handled: nat)

  datatype Action =
    | Tick
    | FetchFails
    | FetchBatch(batch: seq<OutboxEvent>)
    | EventStep(a: P.Action)
    | BatchDone
    | SeeStop
    | SeeContext
    | CloseStop
    | SeeDone
    | ClosePublisher
    | CancelContext
    | StoreEvents(events: seq<OutboxEvent>)

  predicate IsEventStep(a: P.Action) {
    (a.Skip? || a.Accept? || a.Reject? || a.MarkPublished? || a.MarkFailed?) && a.p == 0
  }

  predicate CallsPublish(a: Action) {
    a.EventStep? && (a.a.Accept? || a.a.Reject?)
  }

  ghost predicate Enabled(c: P.Config, s: State, a: Action) {
    match a
    case Tick => s.runner.Selecting?
    case FetchFails => s.runner.Fetching?
    case FetchBatch(batch) => s.runner.Fetching? && P.Enabled(c, s.outbox, P.Fetch(0, batch))
    case EventStep(b) => s.runner.InBatch? && IsEventStep(b) && P.Enabled(c, s.outbox, b)
    case BatchDone => s.runner.InBatch? && P.Enabled(c, s.outbox, P.Finish(0))
    case SeeStop => s.runner.Selecting? && s.stopCloses > 0
    case SeeContext => s.runner.Selecting? && s.ctxDone
    case CloseStop => s.main.Serving?
    case SeeDone => s.main.Waiting? && s.doneCloses > 0
    case ClosePublisher => s.main.Stopped?
    case CancelContext => true
    case StoreEvents(events) => P.Enabled(c, s.outbox, P.Store(events))
  }

  ghost function Next(c: P.Config, s: State, a: Action): State
    requires Enabled(c, s, a)
  {
    match a
    case Tick => s.(runner := Fetching)
    case FetchFails => s.(runner := Selecting)
    case FetchBatch(batch) =>
      s.(runner := InBatch, outbox := P.Next(c, s.outbox, P.Fetch(0, batch)), fetched := s.fetched + |batch|)
    case EventStep(b) =>
      s.(outbox := P.Next(c, s.outbox, b), handled := s.handled + (if b.Accept? || b.Reject? then 0 else 1))
    case BatchDone => s.(runner := Selecting, outbox := P.Next(c, s.outbox, P.Finish(0)))
    case SeeStop => s.(runner := Exited, doneCloses := s.doneCloses + 1)
    case SeeContext => s.(runner := Exited, doneCloses := s.doneCloses + 1)
    case CloseStop => s.(main := Waiting, stopCloses := s.stopCloses + 1)
    case SeeDone => s.(main := Stopped)
    case ClosePublisher => s.(main := Closed, publisherOpen := false)
    case CancelContext => s.(ctxDone := true)
    case StoreEvents(events) => s.(outbox := P.Next(c, s.outbox, P.Store(events)))
  }

  ghost function Init(): State {
    State(P.Init(1), Selecting, Serving, false, 0, 0, true, 0, 0)
  }

  ghost predicate IsRun(c: P.Config, s: State, run: seq<Action>)
    decreases |run|
  {
    run == [] || (Enabled(c, s, run[0]) && IsRun(c, Next(c, s, run[0]), run[1..]))
  }

  ghost function After(c: P.Config, s: State, run: seq<Action>): State
    requires IsRun(c, s, run)
    decreases |run|
  {
    if run == [] then s else After(c, Next(c, s, run[0]), run[1..])
  }

  ghost predicate Reachable(c: P.Config, s: State) {
    exists run :: IsRun(c, Init(), run) && s == After(c, Init(), run)
  }

  function Remaining(w: P.Poller): nat {
    if w.Working? && w.at <= |w.batch| then |w.batch| - w.at else 0
  }

  ghost predicate Inv(c: P.Config, s: State) {
    && |s.outbox.pollers| == 1
    && WellKeyed(s.outbox.rows)
    && (s.runner.InBatch? <==> s.outbox.pollers[0].Working?)
    && (s.outbox.pollers[0].Working? ==>
          && s.outbox.pollers[0].at <= |s.outbox.pollers[0].batch| <= SafeLimit(c.batchSize)
          && (s.outbox.pollers[0].pc != P.Deciding ==> s.outbox.pollers[0].at < |s.outbox.pollers[0].batch|))
    && s.fetched == s.handled + Remaining(s.outbox.pollers[0])
    && s.doneCloses == (if s.runner.Exited? then 1 else 0)
    && s.stopCloses == (if s.main.Serving? then 0 else 1)
    && (s.main.Stopped? || s.main.Closed? ==> s.runner.Exited?)
    && (s.publisherOpen <==> !s.main.Closed?)
    && (s.runner.Exited? ==> s.stopCloses > 0 || s.ctxDone)
  }

  lemma EventStepInv(c: P.Config, s: State, a: Action)
    requires Inv(c, s) && Enabled(c, s, a) && a.EventStep?
    ensures Inv(c, Next(c, s, a))
  {
  }

  lemma BatchStepInv(c: P.Config, s: State, a: Action)
    requires Inv(c, s) && Enabled(c, s, a) && (a.FetchBatch? || a.BatchDone? || a.StoreEvents?)
    ensures Inv(c, Next(c, s, a))
  {
    if a.StoreEvents? { P.RowsStep(c, s.outbox, P.Store(a.events)); }
  }

  lemma StepInv(c: P.Config, s: State, a: Action)
    requires Inv(c, s) && Enabled(c, s, a)
    ensures Inv(c, Next(c, s, a))
  {
    match a
    case EventStep(_) => EventStepInv(c, s, a);
    case FetchBatch(_) => BatchStepInv(c, s, a);
    case BatchDone => BatchStepInv(c, s, a);
    case StoreEvents(_) => BatchStepInv(c, s, a);
    case _ =>
  }

  lemma {:induction false} RunInv(c: P.Config, s: State, run: seq<Action>)
    requires Inv(c, s) && IsRun(c, s, run)
    ensures Inv(c, After(c, s, run))
    decreases |run|
  {
    if run != [] {
      StepInv(c, s, run[0]);
      RunInv(c, Next(c, s, run[0]), run[1..]);
    }
  }

  lemma ReachableInv(c: P.Config, s: State)
    requires Reachable(c, s)
    ensures Inv(c, s)
  {
    var run :| IsRun(c, Init(), run) && s == After(c, Init(), run);
    RunInv(c, Init(), run);
  }

  /** Neither channel is closed twice, and done is closed exactly when the goroutine has left. */
  lemma ChannelsClosedOnce(c: P.Config, s: State)
    requires Reachable(c, s)
    ensures s.stopCloses <= 1 && s.doneCloses <= 1
    ensures s.doneCloses == 1 <==> s.runner.Exited?
    ensures s.main.Stopped? || s.main.Closed? ==> s.stopCloses == 1 && s.doneCloses == 1
  {
    ReachableInv(c, s);
  }

  /** The goroutine leaves only when told to: while stop is open and the context is not done, it keeps polling. */
  lemma LeavesOnlyWhenTold(c: P.Config, s: State)
    requires Reachable(c, s)
    ensures s.runner.Exited? ==> s.stopCloses == 1 || s.ctxDone
    ensures s.main.Serving? && !s.ctxDone ==> !s.runner.Exited? && s.doneCloses == 0
  {
    ReachableInv(c, s);
  }

  /** The publisher is open and Stop has not returned whenever Publish is called. */
  lemma PublishOnlyWhileOpen(c: P.Config, s: State, a: Action)
    requires Reachable(c, s) && Enabled(c, s, a) && CallsPublish(a)
    ensures s.publisherOpen && (s.main.Serving? || s.main.Waiting?)
  {
    ReachableInv(c, s);
  }

  /** A fetched batch is handled to its end before the goroutine looks at stop again. */
  lemma BatchRunsToItsEnd(c: P.Config, s: State)
    requires Reachable(c, s)
    ensures !s.runner.InBatch? ==> s.handled == s.fetched && s.outbox.pollers == [P.Idle]
    ensures s.main.Stopped? || s.main.Closed? ==> s.handled == s.fetched
  {
    ReachableInv(c, s);
  }

  lemma {:induction false} QuietAfterStop(c: P.Config, s: State, run: seq<Action>)
    requires Inv(c, s) && IsRun(c, s, run) && (s.main.Stopped? || s.main.Closed?)
    ensures var t := After(c, s, run); t.outbox.log == s.outbox.log && t.outbox.hist == s.outbox.hist
    decreases |run|
  {
    if run != [] {
      StepInv(c, s, run[0]);
      QuietAfterStop(c, Next(c, s, run[0]), run[1..]);
    }
  }

  /** Once Stop has returned, no continuation publishes anything or has a publish refused. */
  lemma NoPublishAfterStop(c: P.Config, s: State, run: seq<Action>)
    requires Reachable(c, s) && IsRun(c, s, run) && (s.main.Stopped? || s.main.Closed?)
    ensures After(c, s, run).outbox.log == s.outbox.log
    ensures After(c, s, run).outbox.hist.rejected == s.outbox.hist.rejected
  {
    ReachableInv(c, s);
    QuietAfterStop(c, s, run);
  }

  // ----- Stop returns -----

  /** Steps the goroutine may still take before it selects again or leaves. */
  function Work(c: P.Config, s: State): nat {
    match s.runner
    case Exited => 0
    case Selecting => 1
    case Fetching => 2 * SafeLimit(c.batchSize) + 4
    case InBatch =>
      if |s.outbox.pollers| == 1 && s.outbox.pollers[0].Working?
      then 2 + 2 * Remaining(s.outbox.pollers[0]) + (if s.outbox.pollers[0].pc.Deciding? then 1 else 0)
      else 2
  }

  predicate OfRunner(a: Action) {
    a.Tick? || a.FetchFails? || a.FetchBatch? || a.EventStep? || a.BatchDone? || a.SeeStop? || a.SeeContext?
  }

  lemma RunnerWorks(c: P.Config, s: State, a: Action)
    requires Inv(c, s) && Enabled(c, s, a) && !a.Tick?
    ensures OfRunner(a) ==> Work(c, Next(c, s, a)) < Work(c, s)
    ensures !OfRunner(a) ==> Work(c, Next(c, s, a)) == Work(c, s)
  {
  }

  /** The goroutine's own steps in a run. */
  function RunnerSteps(run: seq<Action>): nat {
    if run == [] then 0 else (if OfRunner(run[0]) then 1 else 0) + RunnerSteps(run[1..])
  }

  ghost predicate NoTick(run: seq<Action>) {
    forall i :: 0 <= i < |run| ==> !run[i].Tick?
  }

  lemma {:induction false} RunnerBounded(c: P.Config, s: State, run: seq<Action>)
    requires Inv(c, s) && IsRun(c, s, run) && NoTick(run)
    ensures RunnerSteps(run) + Work(c, After(c, s, run)) <= Work(c, s)
    decreases |run|
  {
    if run != [] {
      StepInv(c, s, run[0]);
      RunnerWorks(c, s, run[0]);
      assert forall i :: 0 <= i < |run[1..]| ==> run[1..][i] == run[i + 1];
      RunnerBounded(c, Next(c, s, run[0]), run[1..]);
    }
  }

  /** However the other goroutines interleave and the environment answers, the worker's goroutine is back at its
      select, or has left, after at most two steps per row of a batch and four more. */
  lemma SelectsAgainSoon(c: P.Config, s: State, run: seq<Action>)
    requires Reachable(c, s) && IsRun(c, s, run) && NoTick(run)
    ensures RunnerSteps(run) <= Work(c, s) <= 2 * SafeLimit(c.batchSize) + 4
    ensures RunnerSteps(run) + 1 >= Work(c, s) ==> After(c, s, run).runner.Selecting? || After(c, s, run).runner.Exited?
  {
    ReachableInv(c, s);
    RunnerBounded(c, s, run);
  }

  /** A step in which nothing fails: the fetch works, the broker accepts, every mark is applied. */
  predicate Fine(a: Action) {
    && !a.FetchFails? && !a.SeeContext? && !a.CancelContext?
    && (a.EventStep? ==> !a.a.Reject? && (a.a.MarkPublished? || a.a.MarkFailed? ==> a.a.applied))
  }

  lemma NextTowardsExit(c: P.Config, s: State) returns (a: Action)
    requires Inv(c, s) && s.main.Waiting? && !s.runner.Exited?
    ensures Enabled(c, s, a) && OfRunner(a) && !a.Tick? && Fine(a) && Next(c, s, a).main.Waiting?
  {
    match s.runner
    case Selecting => a := SeeStop;
    case Fetching =>
      var batch := OutboxProgress.OldestOf(s.outbox.rows, Unpublished(s.outbox.rows), SafeLimit(c.batchSize));
      a := FetchBatch(batch);
    case InBatch =>
      var w := s.outbox.pollers[0];
      if w.at == |w.batch| {
        a := BatchDone;
      } else if w.pc.Sent? {
        a := EventStep(P.MarkPublished(0, 0, true));
      } else if w.pc.Failed? {
        a := EventStep(P.MarkFailed(0, "", true));
      } else if Live(w.batch[w.at], c.maxRetries) {
        a := EventStep(P.Accept(0));
      } else {
        a := EventStep(P.Skip(0));
      }
  }

  ghost predicate AllFine(run: seq<Action>) {
    forall i :: 0 <= i < |run| ==> Fine(run[i])
  }

  lemma {:induction false} StopCanReturn(c: P.Config, s: State) returns (run: seq<Action>)
    requires Inv(c, s) && s.main.Waiting?
    ensures IsRun(c, s, run) && After(c, s, run).main.Stopped? && AllFine(run) && |run| <= Work(c, s) + 1
    decreases Work(c, s)
  {
    if s.runner.Exited? {
      run := [SeeDone];
      assert IsRun(c, Next(c, s, SeeDone), run[1..]);
    } else {
      var a := NextTowardsExit(c, s);
      StepInv(c, s, a);
      RunnerWorks(c, s, a);
      var rest := StopCanReturn(c, Next(c, s, a));
      run := [a] + rest;
      assert run[1..] == rest;
    }
  }

  /** From any point of any run, a Stop in progress can complete without anything failing, in a bounded number
      of steps: there is no deadlock. */
  lemma StopNeverDeadlocks(c: P.Config, s: State) returns (run: seq<Action>)
    requires Reachable(c, s) && s.main.Waiting?
    ensures IsRun(c, s, run) && After(c, s, run).main.Stopped?
    ensures AllFine(run) && |run| <= 2 * SafeLimit(c.batchSize) + 5
  {
    ReachableInv(c, s);
    run := StopCanReturn(c, s);
  }

  // ----- A tick is a poll -----

  lemma {:induction false} RunConcat(c: P.Config, s: State, r1: seq<Action>, r2: seq<Action>)
    requires IsRun(c, s, r1) && IsRun(c, After(c, s, r1), r2)
    ensures IsRun(c, s, r1 + r2) && After(c, s, r1 + r2) == After(c, After(c, s, r1), r2)
    decreases |r1|
  {
    if r1 == [] {
      assert r1 + r2 == r2;
    } else {
      ConcatHead(r1, r2);
      RunConcat(c, Next(c, s, r1[0]), r1[1..], r2);
    }
  }

  lemma OneStep(c: P.Config, s: State, a: Action)
    requires Enabled(c, s, a)
    ensures IsRun(c, s, [a]) && After(c, s, [a]) == Next(c, s, a)
  {
    assert [a][1..] == [];
    assert IsRun(c, Next(c, s, a), []);
  }

  /** The goroutine's steps for the events of a batch. */
  function Lifted(body: seq<P.Action>): seq<Action> {
    seq(|body|, i requires 0 <= i < |body| => EventStep(body[i]))
  }

  ghost predicate EventSteps(body: seq<P.Action>) {
    forall i :: 0 <= i < |body| ==> IsEventStep(body[i])
  }

  ghost predicate OnlyOutboxMoved(s: State, t: State) {
    t == s.(outbox := t.outbox, handled := t.handled)
  }

  lemma {:induction false} LiftRun(c: P.Config, s: State, body: seq<P.Action>)
    requires s.runner.InBatch? && EventSteps(body) && P.IsRun(c, s.outbox, body)
    ensures IsRun(c, s, Lifted(body))
    ensures After(c, s, Lifted(body)).outbox == P.After(c, s.outbox, body)
    ensures OnlyOutboxMoved(s, After(c, s, Lifted(body)))
    decreases |body|
  {
    if body != [] {
      var s' := Next(c, s, EventStep(body[0]));
      assert Lifted(body)[1..] == Lifted(body[1..]);
      LiftRun(c, s', body[1..]);
    }
  }

  lemma {:induction false} BatchEventSteps(batch: seq<OutboxEvent>, c: P.Config, env: Env)
    ensures EventSteps(OutboxSingle.BatchActions(0, batch, c, env))
  {
    if batch != [] { BatchEventSteps(batch[..|batch| - 1], c, env); }
  }

  ghost predicate OwnSteps(run: seq<Action>) {
    run != [] && run[0].Tick? && forall i :: 0 <= i < |run| ==> OfRunner(run[i])
  }

  /** t is s after a whole poll of the batch. */
  ghost predicate Polled(c: P.Config, s: State, batch: seq<OutboxEvent>, env: Env, t: State) {
    var w := HandleAll(World(s.outbox.rows, s.outbox.log), batch, c.maxRetries, env);
    && t.runner.Selecting? && t.main == s.main && t.publisherOpen == s.publisherOpen
    && t.outbox.rows == w.rows && t.outbox.log == w.log && t.outbox.pollers == s.outbox.pollers
  }

  lemma TickFetches(c: P.Config, s: State, batch: seq<OutboxEvent>) returns (t: State)
    requires Inv(c, s) && s.runner.Selecting? && IsFetch(s.outbox.rows, SafeLimit(c.batchSize), batch)
    ensures IsRun(c, s, [Tick] + [FetchBatch(batch)]) && t == After(c, s, [Tick] + [FetchBatch(batch)])
    ensures t.runner.InBatch? && t.main == s.main && t.publisherOpen == s.publisherOpen
    ensures t.outbox.rows == s.outbox.rows && t.outbox.log == s.outbox.log
    ensures t.outbox.pollers == [P.Working(batch, 0, P.Deciding, {}, {})] && s.outbox.pollers == [P.Idle]
  {
    OneStep(c, s, Tick);
    var s1 := Next(c, s, Tick);
    OneStep(c, s1, FetchBatch(batch));
    RunConcat(c, s, [Tick], [FetchBatch(batch)]);
    t := Next(c, s1, FetchBatch(batch));
  }

  lemma BatchPolls(c: P.Config, t: State, batch: seq<OutboxEvent>, env: Env) returns (run: seq<Action>)
    requires t.runner.InBatch? && t.outbox.pollers == [P.Working(batch, 0, P.Deciding, {}, {})]
    ensures IsRun(c, t, run) && forall i :: 0 <= i < |run| ==> OfRunner(run[i])
    ensures Polled(c, t.(outbox := t.outbox.(pollers := [P.Idle])), batch, env, After(c, t, run))
  {
    assert batch[..|batch|] == batch;
    var body := OutboxSingle.BatchActions(0, batch, c, env);
    OutboxSingle.PrefixIsRun(c, t.outbox, 0, batch, |batch|, env);
    BatchEventSteps(batch, c, env);
    LiftRun(c, t, body);
    var u := After(c, t, Lifted(body));
    OneStep(c, u, BatchDone);
    RunConcat(c, t, Lifted(body), [BatchDone]);
    run := Lifted(body) + [BatchDone];
    assert Next(c, u, BatchDone).outbox.pollers == [P.Idle];
  }

  /** A tick leads to a poll: for every legal fetch and whatever broker and database answer, the goroutine's own
      steps from a tick on do to table and broker what the poll of the code does, and end at its select again. */
  lemma TickIsPoll(c: P.Config, s: State, batch: seq<OutboxEvent>, env: Env) returns (run: seq<Action>)
    requires Reachable(c, s) && s.runner.Selecting? && IsFetch(s.outbox.rows, SafeLimit(c.batchSize), batch)
    ensures IsRun(c, s, run) && OwnSteps(run) && Polled(c, s, batch, env, After(c, s, run))
  {
    ReachableInv(c, s);
    var t := TickFetches(c, s, batch);
    var rest := BatchPolls(c, t, batch, env);
    RunConcat(c, s, [Tick] + [FetchBatch(batch)], rest);
    run := [Tick] + [FetchBatch(batch)] + rest;
  }

  /** If the fetch fails, the tick changes nothing. */
  lemma FailedTick(c: P.Config, s: State)
    requires s.runner.Selecting?
    ensures IsRun(c, s, [Tick] + [FetchFails]) && After(c, s, [Tick] + [FetchFails]) == s
  {
    OneStep(c, s, Tick);
    OneStep(c, Next(c, s, Tick), FetchFails);
    RunConcat(c, s, [Tick], [FetchFails]);
  }

  /** A tick leads nowhere else: only a fetch that worked or failed can follow in the goroutine. */
  lemma TickForces(c: P.Config, s: State, a: Action)
    requires s.runner.Selecting? && Enabled(c, Next(c, s, Tick), a) && OfRunner(a)
    ensures a.FetchFails? || a.FetchBatch?
  {
  }

  lemma StepReachable(c: P.Config, s: State, run: seq<Action>)
    requires Reachable(c, s) && IsRun(c, s, run)
    ensures Reachable(c, After(c, s, run))
  {
    var r :| IsRun(c, Init(), r) && s == After(c, Init(), r);
    RunConcat(c, Init(), r, run);
  }

  lemma StoredOne(c: P.Config) returns (s: State)
    ensures Reachable(c, s) && s.runner.Selecting? && s.main.Serving?
    ensures OutboxSingle.OneRow(s.outbox, 1, 0)
  {
    var e := OutboxEvent(0, "", "", "", "", 0, None, 0, None);
    assert IsRun(c, Init(), []) && Reachable(c, Init());
    OneStep(c, Init(), StoreEvents([e]));
    StepReachable(c, Init(), [StoreEvents([e])]);
    s := Next(c, Init(), StoreEvents([e]));
    InsertedRows([e]);
    assert [e][0] == e;
  }

  /** Publish is called while the service runs, and also while Stop waits for the batch in progress. */
  lemma PublishHappens(c: P.Config) returns (serving: State, waiting: State)
    requires c.maxRetries > 0
    ensures Reachable(c, serving) && serving.main.Serving? && Enabled(c, serving, EventStep(P.Accept(0)))
    ensures Reachable(c, waiting) && waiting.main.Waiting? && Enabled(c, waiting, EventStep(P.Accept(0)))
    ensures CallsPublish(EventStep(P.Accept(0)))
  {
    var s := StoredOne(c);
    OutboxSingle.OnlyFetch(c, s.outbox, 0);
    var batch := [s.outbox.rows[0]];
    ReachableInv(c, s);
    serving := TickFetches(c, s, batch);
    StepReachable(c, s, [Tick] + [FetchBatch(batch)]);
    OneStep(c, serving, CloseStop);
    StepReachable(c, serving, [CloseStop]);
    waiting := Next(c, serving, CloseStop);
  }

  // ----- The other ways out -----

  /** A done context ends the goroutine at its select, and a later Stop still returns. */
  lemma ContextEnds(c: P.Config, s: State) returns (run: seq<Action>)
    requires Reachable(c, s) && s.runner.Selecting?
    ensures run == [CancelContext] + [SeeContext] && IsRun(c, s, run)
    ensures After(c, s, run) == s.(ctxDone := true, runner := Exited, doneCloses := s.doneCloses + 1)
  {
    OneStep(c, s, CancelContext);
    OneStep(c, Next(c, s, CancelContext), SeeContext);
    RunConcat(c, s, [CancelContext], [SeeContext]);
    run := [CancelContext] + [SeeContext];
  }

  lemma ClosesFrom(c: P.Config, s: State) returns (run: seq<Action>)
    requires Inv(c, s) && s.main.Waiting?
    ensures IsRun(c, s, run)
    ensures var t := After(c, s, run); t.main.Closed? && !t.publisherOpen && t.runner.Exited?
  {
    var r := StopCanReturn(c, s);
    RunInv(c, s, r);
    var t := After(c, s, r);
    OneStep(c, t, ClosePublisher);
    RunConcat(c, s, r, [ClosePublisher]);
    run := r + [ClosePublisher];
  }

  /** From every state of every run, shutting down can complete: Stop, its return, and the closing of the publisher. */
  lemma ShutdownCompletes(c: P.Config, s: State) returns (run: seq<Action>)
    requires Reachable(c, s)
    ensures IsRun(c, s, run)
    ensures var t := After(c, s, run); t.main.Closed? && !t.publisherOpen && t.runner.Exited?
  {
    ReachableInv(c, s);
    match s.main
    case Serving =>
      OneStep(c, s, CloseStop);
      var t := Next(c, s, CloseStop);
      StepInv(c, s, CloseStop);
      var rest := ClosesFrom(c, t);
      RunConcat(c, s, [CloseStop], rest);
      run := [CloseStop] + rest;
    case Waiting => run := ClosesFrom(c, s);
    case Stopped =>
      OneStep(c, s, ClosePublisher);
      run := [ClosePublisher];
    case Closed =>
      run := [];
  }
}
