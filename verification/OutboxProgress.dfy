/**
 Whole sequences of polls by one worker: what a fault-free drain sends, how many publish calls a failing
 broker can cost, when every row ends published or exhausted, and exactly when live rows starve.
 */
module OutboxProgress {
  import opened Wrappers
  import opened Outbox
  import opened OutboxWorker
  import opened OutboxProtocol

  ghost predicate NoDbFault(env: Env) {
    forall id :: env.mark(id) != Rejected
  }

  ghost predicate Faultless(env: Env) {
    NoDbFault(env) && forall id :: env.publishErr(id).None?
  }

  function Messages(batch: seq<OutboxEvent>): seq<Message> {
    seq(|batch|, i requires 0 <= i < |batch| => ToMessage(batch[i]))
  }

  // ----- Sequences of polls -----

  datatype Poll = Poll(batch: seq<OutboxEvent>, env: Env)

  ghost function Polled(c: Config, w: World, polls: seq<Poll>): World {
    if polls == [] then w
    else
      var n := |polls| - 1;
      HandleAll(Polled(c, w, polls[..n]), polls[n].batch, c.maxRetries, polls[n].env)
  }

  ghost predicate ArePolls(c: Config, w: World, polls: seq<Poll>) {
    polls == [] ||
    var n := |polls| - 1;
    ArePolls(c, w, polls[..n]) && IsFetch(Polled(c, w, polls[..n]).rows, SafeLimit(c.batchSize), polls[n].batch)
  }

  lemma {:induction false} HandleAllFrame(w: World, batch: seq<OutboxEvent>, maxRetries: int, env: Env)
    requires WellKeyed(w.rows)
    ensures var w' := HandleAll(w, batch, maxRetries, env);
            && WellKeyed(w'.rows) && w'.rows.Keys == w.rows.Keys
            && forall id :: id in w.rows && id !in Ids(batch) ==> w'.rows[id] == w.rows[id]
  {
    if batch != [] {
      var n := |batch| - 1;
      HandleAllFrame(w, batch[..n], maxRetries, env);
      IdsAppend(batch[..n], batch[n]);
      assert batch[..n] + [batch[n]] == batch;
    }
  }

  ghost predicate Accepts(e: OutboxEvent, maxRetries: int, env: Env) {
    e.retryCount < maxRetries && env.publishErr(e.id).None?
  }

  ghost predicate Refuses(e: OutboxEvent, maxRetries: int, env: Env) {
    e.retryCount < maxRetries && env.publishErr(e.id).Some?
  }

  ghost predicate HandledRow(row: OutboxEvent, e: OutboxEvent, maxRetries: int, env: Env) {
    var applied := env.mark(e.id) != Rejected;
    && CarriesContent(row, e)
    && row.publishedAt == (if applied && Accepts(e, maxRetries, env) then Some(env.clock(e.id)) else e.publishedAt)
    && row.retryCount == e.retryCount + (if applied && Refuses(e, maxRetries, env) then 1 else 0)
    && row.lastError == (if applied && Refuses(e, maxRetries, env) then env.publishErr(e.id) else e.lastError)
  }

  lemma HandledOne(w: World, e: OutboxEvent, maxRetries: int, env: Env)
    requires e.id in w.rows && w.rows[e.id] == e
    ensures e.id in Handle(w, e, maxRetries, env).rows
    ensures HandledRow(Handle(w, e, maxRetries, env).rows[e.id], e, maxRetries, env)
  {
  }

  lemma HandledElsewhere(w: World, e: OutboxEvent, maxRetries: int, env: Env, id: EventId)
    requires id != e.id && id in w.rows
    ensures id in Handle(w, e, maxRetries, env).rows && Handle(w, e, maxRetries, env).rows[id] == w.rows[id]
  {
  }

  /** What one poll does to the row of each of its events: published at the time of the mark if the broker accepted
      it, one more retry and the broker's error if it refused, and in either case only if the mark was applied. */
  lemma {:induction false} HandledExactly(w: World, batch: seq<OutboxEvent>, maxRetries: int, env: Env, i: nat)
    requires WellKeyed(w.rows) && Distinct(batch) && i < |batch|
    requires batch[i].id in w.rows && batch[i] == w.rows[batch[i].id]
    ensures
      var rows' := HandleAll(w, batch, maxRetries, env).rows;
      batch[i].id in rows' && HandledRow(rows'[batch[i].id], batch[i], maxRetries, env)
  {
    var n := |batch| - 1;
    var mid := HandleAll(w, batch[..n], maxRetries, env);
    if i == n {
      HandleAllFrame(w, batch[..n], maxRetries, env);
      assert batch[n].id !in Ids(batch[..n]);
      HandledOne(mid, batch[n], maxRetries, env);
    } else {
      HandledExactly(w, batch[..n], maxRetries, env, i);
      HandledElsewhere(mid, batch[n], maxRetries, env, batch[i].id);
    }
  }

  ghost function Sent(batch: seq<OutboxEvent>, maxRetries: int, env: Env): seq<OutboxEvent> {
    if batch == [] then []
    else
      var n := |batch| - 1;
      Sent(batch[..n], maxRetries, env) + (if Accepts(batch[n], maxRetries, env) then [batch[n]] else [])
  }

  /** What one poll adds to the broker: the events it tried and the broker accepted, in order. */
  lemma {:induction false} PollSends(w: World, batch: seq<OutboxEvent>, maxRetries: int, env: Env)
    ensures HandleAll(w, batch, maxRetries, env).log == w.log + Messages(Sent(batch, maxRetries, env))
  {
    if batch != [] {
      var n := |batch| - 1;
      PollSends(w, batch[..n], maxRetries, env);
      var sent := Sent(batch[..n], maxRetries, env);
      assert Messages(sent + [batch[n]]) == Messages(sent) + [ToMessage(batch[n])];
    }
  }

  lemma {:induction false} PolledFrame(c: Config, w: World, polls: seq<Poll>)
    requires WellKeyed(w.rows)
    ensures WellKeyed(Polled(c, w, polls).rows) && Polled(c, w, polls).rows.Keys == w.rows.Keys
  {
    if polls != [] {
      var n := |polls| - 1;
      PolledFrame(c, w, polls[..n]);
      HandleAllFrame(Polled(c, w, polls[..n]), polls[n].batch, c.maxRetries, polls[n].env);
    }
  }

  // ----- Fault-free drain -----

  lemma FaultlessEvent(w: World, e: OutboxEvent, maxRetries: int, env: Env)
    requires Faultless(env) && e.id in w.rows && Live(e, maxRetries)
    ensures Handle(w, e, maxRetries, env).log == w.log + [ToMessage(e)]
    ensures Unpublished(Handle(w, e, maxRetries, env).rows) == Unpublished(w.rows) - {e.id}
  {
    assert env.publishErr(e.id).None? && env.mark(e.id) != Rejected;
  }

  lemma {:induction false} FaultlessBatch(w: World, batch: seq<OutboxEvent>, maxRetries: int, env: Env)
    requires WellKeyed(w.rows) && Faultless(env)
    requires forall i :: 0 <= i < |batch| ==> batch[i].id in w.rows && Live(batch[i], maxRetries)
    ensures HandleAll(w, batch, maxRetries, env).log == w.log + Messages(batch)
    ensures Unpublished(HandleAll(w, batch, maxRetries, env).rows) == Unpublished(w.rows) - Ids(batch)
  {
    if batch == [] {
      assert Ids(batch) == {};
    } else {
      var n := |batch| - 1;
      assert forall i :: 0 <= i < n ==> batch[..n][i] == batch[i];
      FaultlessBatch(w, batch[..n], maxRetries, env);
      HandleAllFrame(w, batch[..n], maxRetries, env);
      var mid := HandleAll(w, batch[..n], maxRetries, env);
      FaultlessLast(w, mid, batch[..n], batch[n], batch, maxRetries, env);
    }
  }

  lemma FaultlessLast(w: World, mid: World, init: seq<OutboxEvent>, e: OutboxEvent, batch: seq<OutboxEvent>,
      maxRetries: int, env: Env)
    requires Faultless(env) && e.id in mid.rows && Live(e, maxRetries) && batch == init + [e]
    requires mid.log == w.log + Messages(init) && Unpublished(mid.rows) == Unpublished(w.rows) - Ids(init)
    ensures Handle(mid, e, maxRetries, env).log == w.log + Messages(batch)
    ensures Unpublished(Handle(mid, e, maxRetries, env).rows) == Unpublished(w.rows) - Ids(batch)
  {
    FaultlessEvent(mid, e, maxRetries, env);
    BatchUnfold(init, e);
  }

  lemma BatchUnfold(init: seq<OutboxEvent>, e: OutboxEvent)
    ensures Messages(init + [e]) == Messages(init) + [ToMessage(e)]
    ensures Ids(init + [e]) == Ids(init) + {e.id}
  {
    IdsAppend(init, e);
  }

  /** The oldest rows followed by the oldest of the rest are the oldest rows of the whole. */
  lemma OldestConcat(rows: Rows, rows': Rows, s: set<EventId>, a: seq<OutboxEvent>, b: seq<OutboxEvent>, m: nat, n: nat)
    requires s <= rows.Keys && IsOldest(rows, s, m, a)
    requires s - Ids(a) <= rows'.Keys && IsOldest(rows', s - Ids(a), n, b)
    requires forall id :: id in s - Ids(a) ==> rows'[id] == rows[id]
    ensures IsOldest(rows, s, m + n, a + b)
    ensures Ids(a + b) == Ids(a) + Ids(b)
  {
    IdsConcat(a, b);
    ConcatSize(rows, rows', s, a, b, m, n);
    ConcatOrdered(rows, rows', s, a, b, m, n);
    ConcatRest(rows, rows', s, a, b, m, n);
  }

  lemma ConcatSize(rows: Rows, rows': Rows, s: set<EventId>, a: seq<OutboxEvent>, b: seq<OutboxEvent>, m: nat, n: nat)
    requires s <= rows.Keys && IsOldest(rows, s, m, a)
    requires s - Ids(a) <= rows'.Keys && IsOldest(rows', s - Ids(a), n, b)
    ensures |a + b| == Min(m + n, |s|)
  {
    IdsCount(a);
    assert Ids(a) <= s;
    assert |s - Ids(a)| == |s| - |a|;
  }

  lemma ConcatOrdered(rows: Rows, rows': Rows, s: set<EventId>, a: seq<OutboxEvent>, b: seq<OutboxEvent>, m: nat,
      n: nat)
    requires s <= rows.Keys && IsOldest(rows, s, m, a)
    requires s - Ids(a) <= rows'.Keys && IsOldest(rows', s - Ids(a), n, b)
    requires forall id :: id in s - Ids(a) ==> rows'[id] == rows[id]
    ensures Distinct(a + b) && SortedByAge(a + b)
  {
    var ab := a + b;
    forall i, j | 0 <= i < j < |ab| ensures ab[i].id != ab[j].id && ab[i].createdAt <= ab[j].createdAt {
      if i < |a| <= j {
        BeforeAfter(rows, rows', s, a, b, m, n, i, j - |a|);
      } else if |a| <= i {
        assert ab[i] == b[i - |a|] && ab[j] == b[j - |a|];
      }
    }
  }

  lemma ConcatRest(rows: Rows, rows': Rows, s: set<EventId>, a: seq<OutboxEvent>, b: seq<OutboxEvent>, m: nat, n: nat)
    requires s <= rows.Keys && IsOldest(rows, s, m, a)
    requires s - Ids(a) <= rows'.Keys && IsOldest(rows', s - Ids(a), n, b)
    requires forall id :: id in s - Ids(a) ==> rows'[id] == rows[id]
    ensures forall i :: 0 <= i < |a + b| ==> (a + b)[i].id in s && (a + b)[i] == rows[(a + b)[i].id]
    ensures NoneOlder(rows, s - Ids(a) - Ids(b), a + b)
  {
    var ab := a + b;
    forall i | 0 <= i < |ab| ensures ab[i].id in s && ab[i] == rows[ab[i].id] {
      if i >= |a| { assert ab[i] == b[i - |a|]; }
    }
    forall id, i | id in s - Ids(a) - Ids(b) && 0 <= i < |ab| ensures ab[i].createdAt <= rows[id].createdAt {
      if i >= |a| { assert ab[i] == b[i - |a|]; }
    }
  }

  lemma BeforeAfter(rows: Rows, rows': Rows, s: set<EventId>, a: seq<OutboxEvent>, b: seq<OutboxEvent>, m: nat,
      n: nat, i: nat, j: nat)
    requires s <= rows.Keys && IsOldest(rows, s, m, a)
    requires s - Ids(a) <= rows'.Keys && IsOldest(rows', s - Ids(a), n, b)
    requires forall id :: id in s - Ids(a) ==> rows'[id] == rows[id]
    requires i < |a| && j < |b|
    ensures a[i].id != b[j].id && a[i].createdAt <= b[j].createdAt
  {
    assert a[i].id in Ids(a);
    assert b[j].id in s - Ids(a);
  }

  lemma IdsConcat(a: seq<OutboxEvent>, b: seq<OutboxEvent>)
    ensures Ids(a + b) == Ids(a) + Ids(b)
  {
    forall id | id in Ids(a) ensures id in Ids(a + b) {
      var i :| 0 <= i < |a| && a[i].id == id;
      assert (a + b)[i].id == id;
    }
    forall id | id in Ids(b) ensures id in Ids(a + b) {
      var i :| 0 <= i < |b| && b[i].id == id;
      assert (a + b)[|a| + i].id == id;
    }
  }

  function Batches(polls: seq<Poll>): seq<OutboxEvent> {
    if polls == [] then [] else var n := |polls| - 1; Batches(polls[..n]) + polls[n].batch
  }

  ghost predicate AllLive(rows: Rows, maxRetries: int) {
    forall id :: id in Unpublished(rows) ==> Live(rows[id], maxRetries)
  }

  /** w is what is left of w0 after sending `sent`. */
  ghost predicate DrainedTo(w0: World, w: World, sent: seq<OutboxEvent>) {
    && w.log == w0.log + Messages(sent)
    && WellKeyed(w.rows) && w.rows.Keys == w0.rows.Keys
    && Unpublished(w.rows) == Unpublished(w0.rows) - Ids(sent)
    && forall id :: id in Unpublished(w.rows) ==> w.rows[id] == w0.rows[id]
  }

  lemma DrainPoll(w0: World, w: World, sent: seq<OutboxEvent>, batch: seq<OutboxEvent>, limit: nat, maxRetries: int,
      env: Env)
    requires AllLive(w0.rows, maxRetries) && Faultless(env)
    requires DrainedTo(w0, w, sent) && IsFetch(w.rows, limit, batch)
    ensures DrainedTo(w0, HandleAll(w, batch, maxRetries, env), sent + batch)
  {
    forall i | 0 <= i < |batch| ensures batch[i].id in w.rows && Live(batch[i], maxRetries) {
      assert batch[i].id in Unpublished(w.rows);
    }
    FaultlessBatch(w, batch, maxRetries, env);
    HandleAllFrame(w, batch, maxRetries, env);
    MessagesConcat(w0.log, sent, batch);
    IdsConcat(sent, batch);
  }

  lemma MessagesConcat(log: seq<Message>, a: seq<OutboxEvent>, b: seq<OutboxEvent>)
    ensures log + Messages(a + b) == log + Messages(a) + Messages(b)
  {
    assert Messages(a + b) == Messages(a) + Messages(b);
  }

  function Room(k: nat, limit: nat): nat {
    if k == 0 then 0 else Room(k - 1, limit) + limit
  }

  lemma {:induction false} RoomIs(k: nat, limit: nat)
    ensures Room(k, limit) == k * limit
  {
    if k > 0 { RoomIs(k - 1, limit); }
  }

  lemma {:induction false} DrainSteps(c: Config, w: World, polls: seq<Poll>)
    requires WellKeyed(w.rows) && AllLive(w.rows, c.maxRetries)
    requires ArePolls(c, w, polls) && forall k :: 0 <= k < |polls| ==> Faultless(polls[k].env)
    ensures DrainedTo(w, Polled(c, w, polls), Batches(polls))
  {
    if polls == [] {
      assert Ids([]) == {};
    } else {
      var n := |polls| - 1;
      assert forall k :: 0 <= k < n ==> polls[..n][k] == polls[k];
      DrainSteps(c, w, polls[..n]);
      DrainPoll(w, Polled(c, w, polls[..n]), Batches(polls[..n]), polls[n].batch, SafeLimit(c.batchSize),
          c.maxRetries, polls[n].env);
    }
  }

  lemma FetchExtends(w0: World, w: World, sent: seq<OutboxEvent>, batch: seq<OutboxEvent>, m: nat, limit: nat,
      both: seq<OutboxEvent>, total: nat)
    requires DrainedTo(w0, w, sent) && IsFetch(w0.rows, m, sent) && IsFetch(w.rows, limit, batch)
    requires both == sent + batch && total == m + limit
    ensures IsFetch(w0.rows, total, both)
  {
    OldestConcat(w0.rows, w.rows, Unpublished(w0.rows), sent, batch, m, limit);
  }

  lemma EmptyFetch(rows: Rows)
    ensures IsFetch(rows, 0, [])
  {
  }

  lemma LastPoll(c: Config, w: World, polls: seq<Poll>)
    requires polls != [] && ArePolls(c, w, polls)
    ensures
      var n := |polls| - 1;
      && ArePolls(c, w, polls[..n])
      && IsFetch(Polled(c, w, polls[..n]).rows, SafeLimit(c.batchSize), polls[n].batch)
      && Batches(polls) == Batches(polls[..n]) + polls[n].batch
  {
  }

  ghost predicate FetchedSoFar(c: Config, w: World, polls: seq<Poll>) {
    IsFetch(w.rows, Room(|polls|, SafeLimit(c.batchSize)), Batches(polls))
  }

  lemma FetchStep(c: Config, w: World, polls: seq<Poll>)
    requires polls != [] && ArePolls(c, w, polls) && FetchedSoFar(c, w, polls[..|polls| - 1])
    requires DrainedTo(w, Polled(c, w, polls[..|polls| - 1]), Batches(polls[..|polls| - 1]))
    ensures FetchedSoFar(c, w, polls)
  {
    var n := |polls| - 1;
    var limit := SafeLimit(c.batchSize);
    LastPoll(c, w, polls);
    assert |polls[..n]| == n;
    FetchExtends(w, Polled(c, w, polls[..n]), Batches(polls[..n]), polls[n].batch, Room(n, limit), limit,
        Batches(polls), Room(|polls|, limit));
  }

  ghost predicate AllFaultless(polls: seq<Poll>) {
    forall k :: 0 <= k < |polls| ==> Faultless(polls[k].env)
  }

  lemma FaultlessPrefix(polls: seq<Poll>, n: nat)
    requires AllFaultless(polls) && n <= |polls|
    ensures AllFaultless(polls[..n])
  {
  }

  lemma {:induction false} DrainFetches(c: Config, w: World, polls: seq<Poll>)
    requires WellKeyed(w.rows) && AllLive(w.rows, c.maxRetries) && ArePolls(c, w, polls) && AllFaultless(polls)
    ensures FetchedSoFar(c, w, polls)
  {
    if polls == [] {
      EmptyFetch(w.rows);
    } else {
      var n := |polls| - 1;
      FaultlessPrefix(polls, n);
      LastPoll(c, w, polls);
      DrainFetches(c, w, polls[..n]);
      DrainSteps(c, w, polls[..n]);
      FetchStep(c, w, polls);
    }
  }

  /** k fault-free polls send, in order, exactly what one fetch of the k * limit oldest rows lists. */
  lemma DrainIsSortedFetch(c: Config, w: World, polls: seq<Poll>)
    requires WellKeyed(w.rows) && AllLive(w.rows, c.maxRetries)
    requires ArePolls(c, w, polls) && forall k :: 0 <= k < |polls| ==> Faultless(polls[k].env)
    ensures IsFetch(w.rows, |polls| * SafeLimit(c.batchSize), Batches(polls))
    ensures DrainedTo(w, Polled(c, w, polls), Batches(polls))
  {
    DrainSteps(c, w, polls);
    DrainFetches(c, w, polls);
    RoomIs(|polls|, SafeLimit(c.batchSize));
  }

  /** The log ends with what the rows say. */
  ghost predicate LogAnnounces(log: seq<Message>, before: nat, rows: Rows, sent: seq<OutboxEvent>) {
    && |log| == before + |sent|
    && forall k :: 0 <= k < |sent| ==> sent[k].id in rows && Announces(log[before + k], rows[sent[k].id])
  }

  lemma SentAnnounced(w: World, limit: nat, sent: seq<OutboxEvent>, log: seq<Message>)
    requires IsFetch(w.rows, limit, sent) && log == w.log + Messages(sent)
    ensures LogAnnounces(log, |w.log|, w.rows, sent)
  {
    forall k | 0 <= k < |sent| ensures sent[k].id in w.rows && Announces(log[|w.log| + k], w.rows[sent[k].id]) {
      assert log[|w.log| + k] == Messages(sent)[k];
    }
  }

  lemma NothingLeft(rows: Rows, limit: nat, sent: seq<OutboxEvent>)
    requires IsFetch(rows, limit, sent) && limit >= |Unpublished(rows)|
    ensures Ids(sent) == Unpublished(rows)
  {
    IdsCount(sent);
    assert Ids(sent) <= Unpublished(rows);
    SameSize(Ids(sent), Unpublished(rows));
  }

  /** After ceil(n / limit) polls every row was sent, once, oldest first and as it says, and none is left. */
  lemma Drained(c: Config, w: World, polls: seq<Poll>)
    requires WellKeyed(w.rows) && AllLive(w.rows, c.maxRetries)
    requires ArePolls(c, w, polls) && forall k :: 0 <= k < |polls| ==> Faultless(polls[k].env)
    requires |polls| >= (|Unpublished(w.rows)| + SafeLimit(c.batchSize) - 1) / SafeLimit(c.batchSize)
    ensures Unpublished(Polled(c, w, polls).rows) == {}
    ensures Ids(Batches(polls)) == Unpublished(w.rows) && Distinct(Batches(polls)) && SortedByAge(Batches(polls))
    ensures Polled(c, w, polls).log == w.log + Messages(Batches(polls))
    ensures LogAnnounces(Polled(c, w, polls).log, |w.log|, w.rows, Batches(polls))
  {
    DrainIsSortedFetch(c, w, polls);
    var limit := SafeLimit(c.batchSize);
    CeilCovers(|Unpublished(w.rows)|, limit, |polls|);
    NothingLeft(w.rows, |polls| * limit, Batches(polls));
    SentAnnounced(w, |polls| * limit, Batches(polls), Polled(c, w, polls).log);
  }

  lemma CeilCovers(n: nat, b: nat, k: nat)
    requires b > 0 && k >= (n + b - 1) / b
    ensures k * b >= n
  {
    var q := (n + b - 1) / b;
    assert q * b + (n + b - 1) % b == n + b - 1;
    assert (k - q) * b >= 0;
    assert k * b == q * b + (k - q) * b;
  }

  lemma SameSize(a: set<EventId>, b: set<EventId>)
    requires a <= b && |a| >= |b|
    ensures a == b
  {
    assert |b - a| == |b| - |a|;
    assert b - a == {};
  }

  // ----- Publish calls under a failing broker -----

  /** Attempts a row may still cause. */
  ghost function Weight(rows: Rows, maxRetries: int): EventId -> nat {
    id => if id in rows && rows[id].publishedAt.None? && Live(rows[id],
        maxRetries) then maxRetries - rows[id].retryCount else 0
  }

  ghost function Measure(rows: Rows, maxRetries: int): nat {
    SumOver(rows.Keys, Weight(rows, maxRetries))
  }

  /** The Publish calls of the polls, as ProcessOutbox counts them. */
  function Attempts(polls: seq<Poll>, maxRetries: int): nat {
    if polls == [] then 0
    else var n := |polls| - 1; Attempts(polls[..n], maxRetries) + LiveCount(polls[n].batch, maxRetries)
  }

  lemma WeightDrops(rows: Rows, rows': Rows, maxRetries: int, id: EventId)
    requires id in rows && rows'.Keys == rows.Keys && forall x :: x in rows && x != id ==> rows'[x] == rows[x]
    requires Weight(rows', maxRetries)(id) + 1 <= Weight(rows, maxRetries)(id)
    ensures Measure(rows', maxRetries) + 1 <= Measure(rows, maxRetries)
  {
    SumDrops(rows.Keys, Weight(rows, maxRetries), Weight(rows', maxRetries), id);
  }

  lemma HandleMeasure(w: World, e: OutboxEvent, maxRetries: int, env: Env)
    requires WellKeyed(w.rows) && NoDbFault(env)
    requires e.id in w.rows && w.rows[e.id] == e && e.publishedAt.None?
    ensures Measure(Handle(w, e, maxRetries, env).rows, maxRetries) + (if Live(e, maxRetries) then 1 else 0)
            <= Measure(w.rows, maxRetries)
  {
    if Live(e, maxRetries) {
      assert env.mark(e.id) != Rejected;
      WeightDrops(w.rows, Handle(w, e, maxRetries, env).rows, maxRetries, e.id);
    }
  }

  lemma {:induction false} BatchMeasure(w: World, batch: seq<OutboxEvent>, maxRetries: int, env: Env)
    requires WellKeyed(w.rows) && NoDbFault(env) && Distinct(batch)
    requires forall i :: 0 <= i < |batch| ==> batch[i].id in Unpublished(w.rows) && batch[i] == w.rows[batch[i].id]
    ensures Measure(HandleAll(w, batch, maxRetries, env).rows, maxRetries) + LiveCount(batch,
        maxRetries) <= Measure(w.rows, maxRetries)
  {
    if batch != [] {
      var n := |batch| - 1;
      assert forall i :: 0 <= i < n ==> batch[..n][i] == batch[i];
      BatchMeasure(w, batch[..n], maxRetries, env);
      HandleAllFrame(w, batch[..n], maxRetries, env);
      assert batch[n].id !in Ids(batch[..n]);
      HandleMeasure(HandleAll(w, batch[..n], maxRetries, env), batch[n], maxRetries, env);
    }
  }

  lemma {:induction false} PollsMeasure(c: Config, w: World, polls: seq<Poll>)
    requires WellKeyed(w.rows)
    requires ArePolls(c, w, polls) && forall k :: 0 <= k < |polls| ==> NoDbFault(polls[k].env)
    ensures Measure(Polled(c, w, polls).rows, c.maxRetries) + Attempts(polls, c.maxRetries) <= Measure(w.rows,
        c.maxRetries)
  {
    if polls != [] {
      var n := |polls| - 1;
      assert forall k :: 0 <= k < n ==> polls[..n][k] == polls[k];
      PollsMeasure(c, w, polls[..n]);
      PolledFrame(c, w, polls[..n]);
      BatchMeasure(Polled(c, w, polls[..n]), polls[n].batch, c.maxRetries, polls[n].env);
    }
  }

  lemma MeasureBounded(c: Config, rows: Rows)
    ensures Measure(rows, c.maxRetries) <= |rows| * c.Cap()
  {
    SumBounded(rows.Keys, Weight(rows, c.maxRetries), c.Cap());
    assert |rows.Keys| == |rows|;
  }

  /** However the broker fails, N rows cause at most N * maxRetries publish calls. */
  lemma AttemptsBounded(c: Config, w: World, polls: seq<Poll>)
    requires WellKeyed(w.rows)
    requires ArePolls(c, w, polls) && forall k :: 0 <= k < |polls| ==> NoDbFault(polls[k].env)
    ensures Attempts(polls, c.maxRetries) <= |w.rows| * c.Cap()
  {
    PollsMeasure(c, w, polls);
    MeasureBounded(c, w.rows);
  }

  // ----- Every row ends published or exhausted -----

  ghost function Exhausted(rows: Rows, maxRetries: int): set<EventId> {
    set id | id in Unpublished(rows) && !Live(rows[id], maxRetries)
  }

  ghost predicate Settled(rows: Rows, maxRetries: int) {
    Unpublished(rows) == Exhausted(rows, maxRetries)
  }

  lemma ExhaustedKept(w: World, e: OutboxEvent, maxRetries: int, env: Env, x: EventId)
    requires WellKeyed(w.rows) && x in Exhausted(w.rows, maxRetries)
    requires x == e.id ==> !Live(e, maxRetries)
    ensures x in Exhausted(Handle(w, e, maxRetries, env).rows, maxRetries)
  {
  }

  lemma {:induction false} ExhaustedStays(w: World, batch: seq<OutboxEvent>, maxRetries: int, env: Env)
    requires WellKeyed(w.rows)
    requires forall i :: 0 <= i < |batch| ==> batch[i].id in w.rows && batch[i] == w.rows[batch[i].id]
    ensures Exhausted(w.rows, maxRetries) <= Exhausted(HandleAll(w, batch, maxRetries, env).rows, maxRetries)
  {
    if batch != [] {
      var n := |batch| - 1;
      assert forall i :: 0 <= i < n ==> batch[..n][i] == batch[i];
      ExhaustedStays(w, batch[..n], maxRetries, env);
      HandleAllFrame(w, batch[..n], maxRetries, env);
      forall x | x in Exhausted(w.rows, maxRetries)
        ensures x in Exhausted(HandleAll(w, batch, maxRetries, env).rows, maxRetries)
      {
        ExhaustedKept(HandleAll(w, batch[..n], maxRetries, env), batch[n], maxRetries, env, x);
      }
    }
  }

  lemma {:induction false} NoneLive(batch: seq<OutboxEvent>, maxRetries: int)
    requires LiveCount(batch, maxRetries) == 0
    ensures forall i :: 0 <= i < |batch| ==> !Live(batch[i], maxRetries)
  {
    if batch != [] {
      var n := |batch| - 1;
      NoneLive(batch[..n], maxRetries);
      assert forall i :: 0 <= i < n ==> batch[..n][i] == batch[i];
    }
  }

  lemma {:induction false} NothingHandled(w: World, batch: seq<OutboxEvent>, maxRetries: int, env: Env)
    requires forall i :: 0 <= i < |batch| ==> !Live(batch[i], maxRetries)
    ensures HandleAll(w, batch, maxRetries, env) == w
  {
    if batch != [] {
      var n := |batch| - 1;
      assert forall i :: 0 <= i < n ==> batch[..n][i] == batch[i];
      NothingHandled(w, batch[..n], maxRetries, env);
    }
  }

  /** With room in the batch beside the exhausted rows, a poll attempts something while a live row is left. */
  lemma PollAttempts(rows: Rows, limit: nat, batch: seq<OutboxEvent>, maxRetries: int)
    requires IsFetch(rows, limit, batch) && |Exhausted(rows, maxRetries)| < limit && !Settled(rows, maxRetries)
    ensures LiveCount(batch, maxRetries) > 0
  {
    if LiveCount(batch, maxRetries) == 0 {
      NoneLive(batch, maxRetries);
      IdsCount(batch);
      assert Ids(batch) <= Exhausted(rows, maxRetries);
      CardSubset(Ids(batch), Exhausted(rows, maxRetries));
      SameSize(Ids(batch), Unpublished(rows));
      assert false;
    }
  }

  lemma {:induction false} SettlingMeasure(c: Config, w: World, polls: seq<Poll>)
    requires WellKeyed(w.rows)
    requires ArePolls(c, w, polls) && forall k :: 0 <= k < |polls| ==> NoDbFault(polls[k].env)
    requires |Exhausted(Polled(c, w, polls).rows, c.maxRetries)| < SafeLimit(c.batchSize)
    ensures Settled(Polled(c, w, polls).rows, c.maxRetries)
            || Measure(Polled(c, w, polls).rows, c.maxRetries) + |polls| <= Measure(w.rows, c.maxRetries)
  {
    if polls != [] {
      var n := |polls| - 1;
      assert forall k :: 0 <= k < n ==> polls[..n][k] == polls[k];
      PolledFrame(c, w, polls[..n]);
      var mid := Polled(c, w, polls[..n]);
      var batch := polls[n].batch;
      ExhaustedStays(mid, batch, c.maxRetries, polls[n].env);
      CardSubset(Exhausted(mid.rows, c.maxRetries), Exhausted(Polled(c, w, polls).rows, c.maxRetries));
      SettlingMeasure(c, w, polls[..n]);
      if Settled(mid.rows, c.maxRetries) {
        forall i | 0 <= i < |batch| ensures !Live(batch[i], c.maxRetries) {
          assert batch[i].id in Exhausted(mid.rows, c.maxRetries);
        }
        NothingHandled(mid, batch, c.maxRetries, polls[n].env);
      } else {
        PollAttempts(mid.rows, SafeLimit(c.batchSize), batch, c.maxRetries);
        BatchMeasure(mid, batch, c.maxRetries, polls[n].env);
      }
    }
  }

  /** With fewer exhausted rows than a batch holds, N * maxRetries polls leave every row published or exhausted. */
  lemma PollsSettle(c: Config, w: World, polls: seq<Poll>)
    requires WellKeyed(w.rows)
    requires ArePolls(c, w, polls) && forall k :: 0 <= k < |polls| ==> NoDbFault(polls[k].env)
    requires |Exhausted(Polled(c, w, polls).rows, c.maxRetries)| < SafeLimit(c.batchSize)
    requires |polls| >= |w.rows| * c.Cap()
    ensures Settled(Polled(c, w, polls).rows, c.maxRetries)
  {
    SettlingMeasure(c, w, polls);
    MeasureBounded(c, w.rows);
    var rows := Polled(c, w, polls).rows;
    if !Settled(rows, c.maxRetries) {
      var id :| id in Unpublished(rows) && id !in Exhausted(rows, c.maxRetries);
      SumSplit(rows.Keys, Weight(rows, c.maxRetries), id);
    }
  }

  // ----- Starvation -----

  ghost function Older(rows: Rows, s: set<EventId>, x: EventId): set<EventId>
    requires s <= rows.Keys && x in rows
  {
    set y | y in s && rows[y].createdAt < rows[x].createdAt
  }

  ghost function OlderExhausted(rows: Rows, maxRetries: int, x: EventId): set<EventId>
    requires x in rows
  {
    Older(rows, Exhausted(rows, maxRetries), x)
  }

  /** A full batch of exhausted rows is older than every live row. */
  ghost predicate Starved(rows: Rows, maxRetries: int, limit: nat) {
    forall x :: x in Unpublished(rows) && Live(rows[x], maxRetries) ==> |OlderExhausted(rows, maxRetries, x)| >= limit
  }

  lemma StarvedFetchesNoneLive(rows: Rows, maxRetries: int, limit: nat, batch: seq<OutboxEvent>, i: nat)
    requires Starved(rows, maxRetries, limit) && IsFetch(rows, limit, batch) && i < |batch|
    ensures !Live(batch[i], maxRetries)
  {
    if Live(batch[i], maxRetries) {
      var x := batch[i].id;
      var older := OlderExhausted(rows, maxRetries, x);
      assert x in Ids(batch) && older <= Ids(batch);
      IdsCount(batch);
      CardSubset(older + {x}, Ids(batch));
      assert false;
    }
  }

  /** Some legal fetch contains x if fewer than limit rows are strictly older. */
  lemma {:induction false} FetchWith(rows: Rows, s: set<EventId>, limit: nat, x: EventId)
      returns (batch: seq<OutboxEvent>)
    requires WellKeyed(rows) && s <= rows.Keys && x in s
    requires |Older(rows, s, x)| < limit
    ensures IsOldest(rows, s, limit, batch) && x in Ids(batch)
    decreases limit
  {
    var m := OldestExists(rows, s);
    if rows[x].createdAt == rows[m].createdAt {
      var rest := OldestOf(rows, s - {x}, limit - 1);
      HeadOldest(rows, s, limit, x, rest);
      batch := [rows[x]] + rest;
    } else {
      assert Older(rows, s - {m}, x) == Older(rows, s, x) - {m};
      var rest := FetchWith(rows, s - {m}, limit - 1, x);
      HeadOldest(rows, s, limit, m, rest);
      batch := [rows[m]] + rest;
    }
  }

  lemma {:induction false} OldestOf(rows: Rows, s: set<EventId>, limit: nat) returns (batch: seq<OutboxEvent>)
    requires WellKeyed(rows) && s <= rows.Keys
    ensures IsOldest(rows, s, limit, batch)
    decreases limit
  {
    if limit == 0 || s == {} {
      batch := [];
    } else {
      var m := OldestExists(rows, s);
      var rest := OldestOf(rows, s - {m}, limit - 1);
      HeadOldest(rows, s, limit, m, rest);
      batch := [rows[m]] + rest;
    }
  }

  lemma HeadOldest(rows: Rows, s: set<EventId>, limit: nat, m: EventId, rest: seq<OutboxEvent>)
    requires WellKeyed(rows) && s <= rows.Keys && m in s && limit > 0
    requires forall id :: id in s ==> rows[m].createdAt <= rows[id].createdAt
    requires IsOldest(rows, s - {m}, limit - 1, rest)
    ensures IsOldest(rows, s, limit, [rows[m]] + rest)
    ensures Ids([rows[m]] + rest) == {m} + Ids(rest)
  {
    assert Ids([rows[m]]) == {m} by { assert [rows[m]][0].id == m; }
    assert IsOldest(rows, s, 1, [rows[m]]) by { CardSubset({m}, s); }
    OldestConcat(rows, rows, s, [rows[m]], rest, 1, limit - 1);
  }

  lemma OldestLive(rows: Rows, maxRetries: int, x: EventId) returns (x0: EventId)
    requires x in Unpublished(rows) && Live(rows[x], maxRetries)
    ensures x0 in Unpublished(rows) && Live(rows[x0], maxRetries) && rows[x0].createdAt <= rows[x].createdAt
    ensures Older(rows, Unpublished(rows), x0) <= OlderExhausted(rows, maxRetries, x)
  {
    var live := Unpublished(rows) - Exhausted(rows, maxRetries);
    assert x in live;
    x0 := OldestExists(rows, live);
  }

  /** Exactly when no poll can attempt anything: a batch-full of exhausted rows is older than every live row. */
  lemma StarvedExactly(rows: Rows, maxRetries: int, limit: nat)
    requires WellKeyed(rows)
    ensures Starved(rows, maxRetries, limit) <==>
            (forall batch, i :: IsFetch(rows, limit, batch) && 0 <= i < |batch| ==> !Live(batch[i], maxRetries))
  {
    if Starved(rows, maxRetries, limit) {
      forall batch, i | IsFetch(rows, limit, batch) && 0 <= i < |batch| ensures !Live(batch[i], maxRetries) {
        StarvedFetchesNoneLive(rows, maxRetries, limit, batch, i);
      }
    } else {
      var x :| x in Unpublished(rows) && Live(rows[x], maxRetries) && |OlderExhausted(rows, maxRetries, x)| < limit;
      var x0 := OldestLive(rows, maxRetries, x);
      CardSubset(Older(rows, Unpublished(rows), x0), OlderExhausted(rows, maxRetries, x));
      var batch := FetchWith(rows, Unpublished(rows), limit, x0);
      var i :| 0 <= i < |batch| && batch[i].id == x0;
      assert IsFetch(rows, limit, batch) && Live(batch[i], maxRetries);
    }
  }

  /** Starvation is permanent: no number of polls, with any answers, changes anything. */
  lemma {:induction false} StarvedForever(c: Config, w: World, polls: seq<Poll>)
    requires Starved(w.rows, c.maxRetries, SafeLimit(c.batchSize)) && ArePolls(c, w, polls)
    ensures Polled(c, w, polls) == w
  {
    if polls != [] {
      var n := |polls| - 1;
      StarvedForever(c, w, polls[..n]);
      forall i | 0 <= i < |polls[n].batch| ensures !Live(polls[n].batch[i], c.maxRetries) {
        StarvedFetchesNoneLive(w.rows, c.maxRetries, SafeLimit(c.batchSize), polls[n].batch, i);
      }
      NothingHandled(w, polls[n].batch, c.maxRetries, polls[n].env);
    }
  }

  /** So a live row behind one exhausted row is never tried when batches hold one row. */
  lemma StarvationHappens() returns (c: Config, rows: Rows)
    ensures WellKeyed(rows) && Starved(rows, c.maxRetries, SafeLimit(c.batchSize)) && !Settled(rows, c.maxRetries)
  {
    c := Config(1, 1);
    var dead := OutboxEvent(0, "user", "1", "user.created", "", 10, None, 1, None);
    var live := OutboxEvent(1, "user", "2", "user.created", "", 20, None, 0, None);
    rows := map[0 := dead, 1 := live];
    assert Exhausted(rows, 1) == {0} && 1 in Unpublished(rows);
    assert OlderExhausted(rows, 1, 1) == {0};
  }
}
