/**
 Consequences of the polling protocol: the code's poll is one of its runs, the retry bound is reached,
 and with one poller (how the service is deployed) the publish account becomes exact per row.
 */
module OutboxSingle {
  import opened Wrappers
  import opened Outbox
  import opened OutboxWorker
  import opened OutboxProtocol

  // ----- The poll of the code is a run of the protocol -----

  function EventActions(p: nat, e: OutboxEvent, c: Config, env: Env): seq<Action> {
    var applied := env.mark(e.id) != Rejected;
    if !Live(e, c.maxRetries) then [Skip(p)]
    else if env.publishErr(e.id).Some? then [Reject(p), MarkFailed(p, env.publishErr(e.id).value, applied)]
    else [Accept(p), MarkPublished(p, env.clock(e.id), applied)]
  }

  function BatchActions(p: nat, batch: seq<OutboxEvent>, c: Config, env: Env): seq<Action> {
    if batch == [] then []
    else var n := |batch| - 1; BatchActions(p, batch[..n], c, env) + EventActions(p, batch[n], c, env)
  }

  ghost predicate AtWorld(s: State, w: World) {
    s.rows == w.rows && s.log == w.log
  }

  /** t is s with poller p standing before event k of the batch. */
  ghost predicate Standing(s: State, t: State, p: nat, batch: seq<OutboxEvent>, k: nat) {
    && p < |s.pollers| == |t.pollers|
    && t.pollers == s.pollers[p := t.pollers[p]]
    && t.pollers[p].Working? && t.pollers[p].batch == batch && t.pollers[p].at == k && t.pollers[p].pc == Deciding
  }

  lemma EventIsRun(c: Config, s: State, p: nat, env: Env)
    requires AtEvent(s, p, Deciding)
    ensures
      var w := s.pollers[p];
      var run := EventActions(p, Current(w), c, env);
      && IsRun(c, s, run)
      && var t := After(c, s, run);
         && AtWorld(t, Handle(World(s.rows, s.log), Current(w), c.maxRetries, env))
         && Standing(s, t, p, w.batch, w.at + 1)
  {
    var run := EventActions(p, Current(s.pollers[p]), c, env);
    var s1 := Next(c, s, run[0]);
    assert IsRun(c, s1, run[1..]) by {
      if |run| == 2 { assert Enabled(c, s1, run[1]) && run[1..] == [run[1]]; }
    }
    if |run| == 2 {
      assert run[1..][1..] == [];
      assert After(c, s1, run[1..]) == Next(c, s1, run[1]);
    } else {
      assert After(c, s1, run[1..]) == s1;
    }
  }

  lemma {:induction false} PrefixIsRun(c: Config, s: State, p: nat, batch: seq<OutboxEvent>, k: nat, env: Env)
    requires p < |s.pollers| && k <= |batch|
    requires s.pollers[p] == Working(batch, 0, Deciding, {}, {})
    ensures
      var run := BatchActions(p, batch[..k], c, env);
      && IsRun(c, s, run)
      && var t := After(c, s, run);
         && AtWorld(t, HandleAll(World(s.rows, s.log), batch[..k], c.maxRetries, env))
         && Standing(s, t, p, batch, k)
  {
    if k > 0 {
      PrefixIsRun(c, s, p, batch, k - 1, env);
      var run := BatchActions(p, batch[..k - 1], c, env);
      var t := After(c, s, run);
      EventIsRun(c, t, p, env);
      RunConcat(c, s, run, EventActions(p, batch[k - 1], c, env));
      PrefixUnfold(p, batch, k, c, env, World(s.rows, s.log));
    }
  }

  lemma PrefixUnfold(p: nat, batch: seq<OutboxEvent>, k: nat, c: Config, env: Env, w: World)
    requires 0 < k <= |batch|
    ensures BatchActions(p, batch[..k], c, env) == BatchActions(p, batch[..k - 1], c, env) + EventActions(p,
        batch[k - 1], c, env)
    ensures HandleAll(w, batch[..k], c.maxRetries, env) ==
            Handle(HandleAll(w, batch[..k - 1], c.maxRetries, env), batch[k - 1], c.maxRetries, env)
  {
    assert batch[..k][..k - 1] == batch[..k - 1];
  }

  /** Whatever the environment answers, a whole poll is a run that leaves the poller idle again. */
  lemma PollIsRun(c: Config, s: State, p: nat, batch: seq<OutboxEvent>, env: Env) returns (run: seq<Action>)
    requires p < |s.pollers| && s.pollers[p].Idle?
    requires IsFetch(s.rows, SafeLimit(c.batchSize), batch)
    ensures IsRun(c, s, run)
    ensures AtWorld(After(c, s, run), HandleAll(World(s.rows, s.log), batch, c.maxRetries, env))
    ensures After(c, s, run).pollers == s.pollers
  {
    var s1 := Next(c, s, Fetch(p, batch));
    var body := BatchActions(p, batch, c, env);
    assert batch[..|batch|] == batch;
    PrefixIsRun(c, s1, p, batch, |batch|, env);
    var s2 := After(c, s1, body);
    assert Enabled(c, s2, Finish(p)) && IsRun(c, s2, [Finish(p)]);
    assert After(c, s2, [Finish(p)]) == Next(c, s2, Finish(p));
    RunConcat(c, s1, body, [Finish(p)]);
    run := [Fetch(p, batch)] + (body + [Finish(p)]);
    assert run[1..] == body + [Finish(p)];
    assert After(c, s, run).pollers == s.pollers;
  }

  // ----- The retry bound is reached -----

  ghost predicate OneRow(s: State, pollers: nat, r: nat) {
    && |s.pollers| == pollers
    && s.rows.Keys == {0} && s.rows[0].id == 0 && s.rows[0].publishedAt.None? && s.rows[0].retryCount == r
    && s.log == [] && s.hist.missedPublished == multiset{}
  }

  lemma OnlyFetch(c: Config, s: State, r: nat)
    requires OneRow(s, |s.pollers|, r)
    ensures IsFetch(s.rows, SafeLimit(c.batchSize), [s.rows[0]])
  {
    assert Unpublished(s.rows) == {0};
    assert Ids([s.rows[0]]) == {0} by { assert [s.rows[0]][0].id == 0; }
  }

  lemma FailOnce(c: Config, pollers: nat, s: State, p: nat)
    requires Reachable(c, pollers, s) && AtEvent(s, p, Deciding) && Live(Current(s.pollers[p]), c.maxRetries)
    requires 0 in s.rows && OneRow(s, pollers, s.rows[0].retryCount)
    requires Current(s.pollers[p]).id == 0
    ensures
      var t := Next(c, Next(c, s, Reject(p)), MarkFailed(p, "", true));
      && Reachable(c, pollers, t) && OneRow(t, pollers, s.rows[0].retryCount + 1)
      && t.pollers == s.pollers[p := Advance(s.pollers[p].(pc := Failed))]
  {
    ReachableStep(c, pollers, s, Reject(p));
    ReachableStep(c, pollers, Next(c, s, Reject(p)), MarkFailed(p, "", true));
  }

  lemma StoredAlone(c: Config, pollers: nat) returns (s: State)
    ensures Reachable(c, pollers, s) && OneRow(s, pollers, 0)
    ensures s.pollers == Init(pollers).pollers
  {
    var e := OutboxEvent(0, "", "", "", "", 0, None, 0, None);
    assert IsRun(c, Init(pollers), []);
    ReachableStep(c, pollers, Init(pollers), Store([e]));
    s := Next(c, Init(pollers), Store([e]));
    InsertedRows([e]);
    assert [e][0] == e;
  }

  lemma PollFails(c: Config, pollers: nat, t: State, r: nat) returns (s: State)
    requires pollers > 0 && r < c.maxRetries && Reachable(c, pollers, t) && OneRow(t, pollers, r) && t.pollers[0].Idle?
    ensures Reachable(c, pollers, s) && OneRow(s, pollers, r + 1)
    ensures s.pollers == t.pollers[0 := Idle]
  {
    OnlyFetch(c, t, r);
    ReachableStep(c, pollers, t, Fetch(0, [t.rows[0]]));
    var u := Next(c, t, Fetch(0, [t.rows[0]]));
    FailOnce(c, pollers, u, 0);
    var v := Next(c, Next(c, u, Reject(0)), MarkFailed(0, "", true));
    ReachableStep(c, pollers, v, Finish(0));
    s := Next(c, v, Finish(0));
  }

  lemma {:induction false} FailedAlone(c: Config, pollers: nat, r: nat) returns (s: State)
    requires pollers > 0 && r < c.maxRetries
    ensures Reachable(c, pollers, s) && OneRow(s, pollers, r)
    ensures forall i :: 0 <= i < pollers ==> s.pollers[i].Idle?
  {
    if r == 0 {
      s := StoredAlone(c, pollers);
    } else {
      var t := FailedAlone(c, pollers, r - 1);
      s := PollFails(c, pollers, t, r - 1);
    }
  }

  ghost predicate Ready(c: Config, s: State, p: nat) {
    && AtEvent(s, p, Deciding) && |s.pollers[p].batch| == 1
    && Current(s.pollers[p]).id == 0 && Live(Current(s.pollers[p]), c.maxRetries)
  }

  lemma {:induction false} AllFetched(c: Config, pollers: nat, k: nat) returns (s: State)
    requires pollers > 0 && c.maxRetries > 0 && k <= pollers
    ensures Reachable(c, pollers, s) && OneRow(s, pollers, c.maxRetries - 1)
    ensures forall i :: 0 <= i < k ==> Ready(c, s, i)
    ensures forall i :: k <= i < pollers ==> s.pollers[i].Idle?
  {
    if k == 0 {
      s := FailedAlone(c, pollers, c.maxRetries - 1);
    } else {
      var t := AllFetched(c, pollers, k - 1);
      OnlyFetch(c, t, c.maxRetries - 1);
      ReachableStep(c, pollers, t, Fetch(k - 1, [t.rows[0]]));
      s := Next(c, t, Fetch(k - 1, [t.rows[0]]));
      forall i | 0 <= i < k ensures Ready(c, s, i) {
        assert i < k - 1 ==> Ready(c, t, i) && s.pollers[i] == t.pollers[i];
      }
    }
  }

  lemma ReadyElsewhere(c: Config, t: State, s: State, i: nat)
    requires Ready(c, t, i) && i < |s.pollers| && s.pollers[i] == t.pollers[i]
    ensures Ready(c, s, i)
  {
  }

  lemma OneMoreFailed(c: Config, pollers: nat, t: State, p: nat, r: nat) returns (s: State)
    requires Reachable(c, pollers, t) && OneRow(t, pollers, r) && p < pollers
    requires forall i :: p <= i < pollers ==> Ready(c, t, i)
    ensures Reachable(c, pollers, s) && OneRow(s, pollers, r + 1)
    ensures forall i :: p < i < pollers ==> Ready(c, s, i)
  {
    assert Ready(c, t, p);
    FailOnce(c, pollers, t, p);
    s := Next(c, Next(c, t, Reject(p)), MarkFailed(p, "", true));
    forall i | p < i < pollers ensures Ready(c, s, i) { ReadyElsewhere(c, t, s, i); }
  }

  lemma {:induction false} SomeFailed(c: Config, pollers: nat, k: nat) returns (s: State)
    requires pollers > 0 && c.maxRetries > 0 && k <= pollers
    ensures Reachable(c, pollers, s) && OneRow(s, pollers, c.maxRetries - 1 + k)
    ensures forall i :: k <= i < pollers ==> Ready(c, s, i)
  {
    if k == 0 {
      s := AllFetched(c, pollers, pollers);
    } else {
      var t := SomeFailed(c, pollers, k - 1);
      s := OneMoreFailed(c, pollers, t, k - 1, c.maxRetries - 1 + (k - 1));
    }
  }

  /** RetryCountBounded cannot be improved: for every number of pollers some run reaches the bound. */
  lemma RetryBoundReached(c: Config, pollers: nat) returns (s: State)
    requires pollers > 0 && c.maxRetries > 0
    ensures Reachable(c, pollers, s) && 0 in s.rows && s.rows[0].retryCount == c.Cap() + pollers - 1
  {
    s := SomeFailed(c, pollers, pollers);
  }

  // ----- One poller -----

  /** The poller's snapshot is still what the table holds, for every event it has not finished. */
  ghost predicate Accurate(rows: Rows, w: Poller) {
    w.Working? ==>
      forall j :: w.at <= j < |w.batch| ==>
        w.batch[j].id in rows && rows[w.batch[j].id] == w.batch[j] && w.batch[j].publishedAt.None?
  }

  ghost predicate RowSettled(c: Config, s: State, id: EventId) {
    && s.hist.markedPublished[id] <= 1
    && (id in s.rows ==> s.rows[id].retryCount <= c.Cap())
    && (IsPublished(s, id) ==> s.rows[id].retryCount < c.Cap())
  }

  ghost predicate Single(c: Config, s: State) {
    && |s.pollers| == 1
    && Accurate(s.rows, s.pollers[0])
    && forall id :: RowSettled(c, s, id)
  }

  lemma SingleStoreStep(c: Config, s: State, a: Action)
    requires Inv(c, s) && Single(c, s) && Enabled(c, s, a) && a.Store?
    ensures Single(c, Next(c, s, a))
  {
    InsertedFresh(a.events);
    InsertedRows(a.events);
    forall id ensures RowSettled(c, Next(c, s, a), id) {
      assert RowSettled(c, s, id);
      assert id in s.rows ==> id !in Inserted(a.events);
      assert Account(s, id);
    }
  }

  lemma AccurateMarked(rows: Rows, w: Poller, row: OutboxEvent)
    requires Accurate(rows, w) && w.Working? && w.at < |w.batch| && Distinct(w.batch)
    ensures Accurate(rows[Current(w).id := row], Advance(w))
  {
    forall j | w.at < j < |w.batch| ensures w.batch[j].id != Current(w).id { }
  }

  lemma AccurateMarkStep(c: Config, s: State, a: Action)
    requires Single(c, s) && Enabled(c, s, a) && (a.MarkPublished? || a.MarkFailed?)
    requires GoodPoller(c, s.rows, s.pollers[0])
    ensures var s' := Next(c, s, a); |s'.pollers| == 1 && Accurate(s'.rows, s'.pollers[0])
  {
    var s' := Next(c, s, a);
    var id := Current(s.pollers[0]).id;
    AccurateMarked(s.rows, s.pollers[0], s'.rows[id]);
    assert s'.rows == s.rows[id := s'.rows[id]];
  }

  lemma SettledMarkStep(c: Config, s: State, a: Action, id: EventId)
    requires Single(c, s) && Enabled(c, s, a) && (a.MarkPublished? || a.MarkFailed?)
    requires GoodPoller(c, s.rows, s.pollers[0]) && Account(s, Current(s.pollers[0]).id)
    ensures RowSettled(c, Next(c, s, a), id)
  {
    var e := Current(s.pollers[0]);
    assert s.rows[e.id] == e && !IsPublished(s, e.id);
    assert RowSettled(c, s, id);
    if id != e.id {
      var s' := Next(c, s, a);
      assert s'.hist.markedPublished[id] == s.hist.markedPublished[id];
      assert id in s'.rows ==> s'.rows[id] == s.rows[id];
    }
  }

  lemma SingleMarkStep(c: Config, s: State, a: Action)
    requires Single(c, s) && Enabled(c, s, a) && (a.MarkPublished? || a.MarkFailed?)
    requires GoodPoller(c, s.rows, s.pollers[0]) && Account(s, Current(s.pollers[0]).id)
    ensures Single(c, Next(c, s, a))
  {
    var s' := Next(c, s, a);
    AccurateMarkStep(c, s, a);
    forall id ensures RowSettled(c, s', id) { SettledMarkStep(c, s, a, id); }
  }

  lemma SingleStep(c: Config, s: State, a: Action)
    requires Inv(c, s) && Single(c, s) && Enabled(c, s, a)
    ensures Single(c, Next(c, s, a))
  {
    assert GoodPoller(c, s.rows, s.pollers[0]);
    match a
    case Store(_) => SingleStoreStep(c, s, a);
    case MarkPublished(_, _, _) => assert Account(s, Current(s.pollers[0]).id); SingleMarkStep(c, s, a);
    case MarkFailed(_, _, _) => assert Account(s, Current(s.pollers[0]).id); SingleMarkStep(c, s, a);
    case _ => SingleMoveStep(c, s, a);
  }

  lemma SingleMoveStep(c: Config, s: State, a: Action)
    requires Single(c, s) && Enabled(c, s, a) && !a.Store? && !a.MarkPublished? && !a.MarkFailed?
    ensures Single(c, Next(c, s, a))
  {
    var s' := Next(c, s, a);
    assert s'.rows == s.rows && s'.hist.markedPublished == s.hist.markedPublished;
    forall id ensures RowSettled(c, s', id) { assert RowSettled(c, s, id); }
  }

  lemma {:induction false} SingleRun(c: Config, s: State, run: seq<Action>)
    requires Inv(c, s) && Single(c, s) && IsRun(c, s, run)
    ensures Inv(c, After(c, s, run)) && Single(c, After(c, s, run))
    decreases |run|
  {
    if run != [] {
      var s' := Next(c, s, run[0]);
      InvStep(c, s, run[0]);
      SingleStep(c, s, run[0]);
      SingleRun(c, s', run[1..]);
    }
  }

  lemma SingleReachable(c: Config, s: State)
    requires Reachable(c, 1, s)
    ensures Inv(c, s) && Single(c, s)
  {
    var run :| IsRun(c, Init(1), run) && s == After(c, Init(1), run);
    InitInv(c, 1);
    assert forall id :: RowSettled(c, Init(1), id);
    SingleRun(c, Init(1), run);
  }

  ghost predicate Sending(s: State, id: EventId) {
    |s.pollers| == 1 && Sat(s.pollers[0], InFlight(id, Sent))
  }

  ghost predicate Failing(s: State, id: EventId) {
    |s.pollers| == 1 && Sat(s.pollers[0], InFlight(id, Failed))
  }

  function Ind(b: bool): nat { if b then 1 else 0 }

  lemma CountOne(ps: seq<Poller>, q: Query)
    requires |ps| == 1
    ensures Count(ps, q) == Ind(Sat(ps[0], q))
  {
    assert Count(ps[1..], q) == 0;
  }

  /** Copies in the broker and refused publishes of each row, exactly. */
  lemma SinglePollerAccount(c: Config, s: State, id: EventId)
    requires Reachable(c, 1, s)
    ensures Copies(s, id) == Ind(IsPublished(s, id)) + s.hist.missedPublished[id] + Ind(Sending(s, id))
    ensures s.hist.rejected[id] == Retries(s, id) + s.hist.missedFailed[id] + Ind(Failing(s, id))
    ensures Sending(s, id) ==> !IsPublished(s, id)
    ensures Retries(s, id) <= c.Cap()
    ensures IsPublished(s, id) || Sending(s, id) || Failing(s, id) ==> Retries(s, id) < c.Cap()
  {
    SingleReachable(c, s);
    assert Account(s, id) && RowSettled(c, s, id);
    assert GoodPoller(c, s.rows, s.pollers[0]);
    CountOne(s.pollers, InFlight(id, Sent));
    CountOne(s.pollers, InFlight(id, Failed));
  }

  /** With no mark missed, the broker holds at most one copy of each event. */
  lemma CopiesBounded(c: Config, s: State, id: EventId)
    requires Reachable(c, 1, s)
    ensures Copies(s, id) <= 1 + s.hist.missedPublished[id]
    ensures IsPublished(s, id) ==> Copies(s, id) >= 1
  {
    SinglePollerAccount(c, s, id);
  }
}
