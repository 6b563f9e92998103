/**
 Exactly which tables a single worker is certain to settle, however the broker answers: those in which
 every live row has fewer than a batch-full of unpublished rows that may be fetched before it.
 */
module OutboxSettling {
  import opened Wrappers
  import opened Outbox
  import opened OutboxWorker
  import opened OutboxProtocol
  import opened OutboxProgress

  ghost function Ahead(rows: Rows, x: EventId): set<EventId>
    requires x in rows
  {
    set y | y in Unpublished(rows) && y != x && rows[y].createdAt <= rows[x].createdAt
  }

  ghost predicate AllInReach(rows: Rows, maxRetries: int, limit: nat) {
    forall x :: x in Unpublished(rows) && Live(rows[x], maxRetries) ==> |Ahead(rows, x)| < limit
  }

  ghost predicate NoDbFaults(polls: seq<Poll>) {
    forall k :: 0 <= k < |polls| ==> NoDbFault(polls[k].env)
  }

  // ----- In reach: every poll attempts the row -----

  lemma FetchedIfInReach(rows: Rows, limit: nat, batch: seq<OutboxEvent>, x: EventId)
    requires IsFetch(rows, limit, batch) && x in Unpublished(rows) && |Ahead(rows, x)| < limit
    ensures x in Ids(batch)
  {
    if x !in Ids(batch) {
      IdsCount(batch);
      assert Ids(batch) <= Ahead(rows, x);
      CardSubset(Ids(batch), Ahead(rows, x));
      CardSubset(Ids(batch) + {x}, Unpublished(rows));
      assert false;
    }
  }

  /** What polls never take back; no row is added meanwhile. */
  ghost predicate Onward(rows: Rows, rows': Rows) {
    && rows'.Keys == rows.Keys
    && forall id :: id in rows ==>
         && rows'[id].createdAt == rows[id].createdAt
         && rows[id].retryCount <= rows'[id].retryCount
         && (rows[id].publishedAt.Some? ==> rows'[id].publishedAt.Some?)
  }

  lemma {:induction false} HandleAllOnward(w: World, batch: seq<OutboxEvent>, maxRetries: int, env: Env)
    ensures Onward(w.rows, HandleAll(w, batch, maxRetries, env).rows)
  {
    if batch != [] {
      HandleAllOnward(w, batch[..|batch| - 1], maxRetries, env);
    }
  }

  lemma AheadShrinks(rows: Rows, rows': Rows, x: EventId)
    requires Onward(rows, rows') && x in rows
    ensures |Ahead(rows', x)| <= |Ahead(rows, x)|
  {
    CardSubset(Ahead(rows', x), Ahead(rows, x));
  }

  /** A live event of the batch ends published or one retry further. */
  lemma {:induction false} Attempted(w: World, batch: seq<OutboxEvent>, maxRetries: int, env: Env, i: nat)
    requires WellKeyed(w.rows) && NoDbFault(env) && Distinct(batch) && i < |batch|
    requires batch[i].id in w.rows && batch[i] == w.rows[batch[i].id]
    ensures
      var rows' := HandleAll(w, batch, maxRetries, env).rows;
      && batch[i].id in rows'
      && (rows'[batch[i].id].publishedAt.Some? || rows'[batch[i].id].retryCount >= Min(maxRetries,
          batch[i].retryCount + 1))
  {
    var n := |batch| - 1;
    HandleAllFrame(w, batch[..n], maxRetries, env);
    if i == n {
      assert batch[n].id !in Ids(batch[..n]);
      assert env.mark(batch[n].id) != Rejected;
    } else {
      Attempted(w, batch[..n], maxRetries, env, i);
    }
  }

  lemma PollAdvances(c: Config, w: World, mid: World, p: Poll, n: nat, x: EventId)
    requires WellKeyed(mid.rows) && Onward(w.rows, mid.rows) && NoDbFault(p.env)
    requires AllInReach(w.rows, c.maxRetries, SafeLimit(c.batchSize)) &&
        IsFetch(mid.rows, SafeLimit(c.batchSize), p.batch)
    requires x in Unpublished(mid.rows) && mid.rows[x].retryCount >= Min(c.maxRetries, n)
    ensures
      var rows' := HandleAll(mid, p.batch, c.maxRetries, p.env).rows;
      x in Unpublished(rows') ==> rows'[x].retryCount >= Min(c.maxRetries, n + 1)
  {
    HandleAllOnward(mid, p.batch, c.maxRetries, p.env);
    if Live(mid.rows[x], c.maxRetries) {
      AheadShrinks(w.rows, mid.rows, x);
      FetchedIfInReach(mid.rows, SafeLimit(c.batchSize), p.batch, x);
      var i :| 0 <= i < |p.batch| && p.batch[i].id == x;
      Attempted(mid, p.batch, c.maxRetries, p.env, i);
    }
  }

  lemma {:induction false} PollsAdvance(c: Config, w: World, polls: seq<Poll>)
    requires WellKeyed(w.rows) && AllInReach(w.rows, c.maxRetries, SafeLimit(c.batchSize))
    requires ArePolls(c, w, polls) && NoDbFaults(polls)
    ensures Onward(w.rows, Polled(c, w, polls).rows)
    ensures forall x :: x in Unpublished(Polled(c, w, polls).rows) ==>
      Polled(c, w, polls).rows[x].retryCount >= Min(c.maxRetries, |polls|)
  {
    if polls != [] {
      var n := |polls| - 1;
      assert forall k :: 0 <= k < n ==> polls[..n][k] == polls[k];
      PollsAdvance(c, w, polls[..n]);
      PolledFrame(c, w, polls[..n]);
      var mid := Polled(c, w, polls[..n]);
      HandleAllOnward(mid, polls[n].batch, c.maxRetries, polls[n].env);
      forall x | x in Unpublished(Polled(c, w, polls).rows)
        ensures Polled(c, w, polls).rows[x].retryCount >= Min(c.maxRetries, n + 1)
      {
        PollAdvances(c, w, mid, polls[n], n, x);
      }
    }
  }

  // ----- Out of reach: some polls never attempt the row -----

  const REFUSING: Env := Env(_ => Some("refused"), _ => Applied, _ => 0)

  /** Some legal fetch leaves x out. */
  lemma FetchWithout(rows: Rows, limit: nat, x: EventId) returns (batch: seq<OutboxEvent>)
    requires WellKeyed(rows) && x in Unpublished(rows) && |Ahead(rows, x)| >= limit
    ensures IsFetch(rows, limit, batch) && x !in Ids(batch)
  {
    var others := Unpublished(rows) - {x};
    batch := OldestOf(rows, others, limit);
    IdsCount(batch);
    CardSubset(Ahead(rows, x), others);
    forall i | 0 <= i < |batch| ensures batch[i].createdAt <= rows[x].createdAt {
      if batch[i].createdAt > rows[x].createdAt {
        assert Ahead(rows, x) <= Ids(batch);
        assert batch[i].id in Ids(batch) - Ahead(rows, x);
        CardSubset(Ahead(rows, x) + {batch[i].id}, Ids(batch));
        assert false;
      }
    }
  }

  function Reread(rows: Rows, batch: seq<OutboxEvent>): (r: seq<OutboxEvent>)
    requires forall i :: 0 <= i < |batch| ==> batch[i].id in rows
    ensures |r| == |batch| && forall i :: 0 <= i < |r| ==> r[i] == rows[batch[i].id]
  {
    seq(|batch|, i requires 0 <= i < |batch| => rows[batch[i].id])
  }

  lemma SameIds(a: seq<OutboxEvent>, b: seq<OutboxEvent>)
    requires |a| == |b| && forall i :: 0 <= i < |a| ==> a[i].id == b[i].id
    ensures Ids(a) == Ids(b)
  {
    forall id | id in Ids(a) ensures id in Ids(b) {
      var i :| 0 <= i < |a| && a[i].id == id;
      assert b[i].id == id;
    }
  }

  /** While rows neither come nor go nor change age, the same ids can be fetched again. */
  lemma FetchedAgain(rows: Rows, rows': Rows, limit: nat, batch: seq<OutboxEvent>)
    requires WellKeyed(rows') && IsFetch(rows, limit, batch)
    requires Onward(rows, rows') && Unpublished(rows') == Unpublished(rows)
    ensures IsFetch(rows', limit, Reread(rows', batch))
    ensures Ids(Reread(rows', batch)) == Ids(batch)
  {
    var again := Reread(rows', batch);
    assert forall i :: 0 <= i < |batch| ==> again[i].id == batch[i].id && again[i].createdAt == batch[i].createdAt;
    assert Ids(again) == Ids(batch) by { SameIds(batch, again); }
    assert Distinct(again) && SortedByAge(again);
  }

  lemma {:induction false} RefusedPoll(w: World, batch: seq<OutboxEvent>, maxRetries: int)
    ensures Unpublished(HandleAll(w, batch, maxRetries, REFUSING).rows) == Unpublished(w.rows)
  {
    if batch != [] {
      RefusedPoll(w, batch[..|batch| - 1], maxRetries);
    }
  }

  /** The table is as before for everything that decides what is fetched, and for row x altogether. */
  ghost predicate LeavesOut(rows: Rows, rows': Rows, x: EventId) {
    Onward(rows, rows') && Unpublished(rows') == Unpublished(rows) && x in rows && rows'[x] == rows[x]
  }

  lemma LeavesOutTransitive(a: Rows, b: Rows, c: Rows, x: EventId)
    requires LeavesOut(a, b, x) && LeavesOut(b, c, x)
    ensures LeavesOut(a, c, x)
  {
  }

  lemma PollWithout(w: World, batch: seq<OutboxEvent>, maxRetries: int, x: EventId)
    requires WellKeyed(w.rows) && x in w.rows && x !in Ids(batch)
    ensures LeavesOut(w.rows, HandleAll(w, batch, maxRetries, REFUSING).rows, x)
  {
    RefusedPoll(w, batch, maxRetries);
    HandleAllOnward(w, batch, maxRetries, REFUSING);
    HandleAllFrame(w, batch, maxRetries, REFUSING);
  }

  lemma AppendPoll(c: Config, w: World, init: seq<Poll>, p: Poll)
    requires ArePolls(c, w, init) && NoDbFaults(init) && NoDbFault(p.env)
    requires IsFetch(Polled(c, w, init).rows, SafeLimit(c.batchSize), p.batch)
    ensures ArePolls(c, w, init + [p]) && NoDbFaults(init + [p])
    ensures Polled(c, w, init + [p]) == HandleAll(Polled(c, w, init), p.batch, c.maxRetries, p.env)
  {
    assert (init + [p])[..|init|] == init;
  }

  lemma {:induction false} PollsWithout(c: Config, w: World, batch: seq<OutboxEvent>, x: EventId, n: nat)
      returns (polls: seq<Poll>)
    requires WellKeyed(w.rows) && IsFetch(w.rows, SafeLimit(c.batchSize), batch) && x in w.rows && x !in Ids(batch)
    ensures |polls| == n && ArePolls(c, w, polls) && NoDbFaults(polls)
    ensures LeavesOut(w.rows, Polled(c, w, polls).rows, x)
  {
    if n == 0 {
      polls := [];
    } else {
      var init := PollsWithout(c, w, batch, x, n - 1);
      var mid := Polled(c, w, init);
      PolledFrame(c, w, init);
      FetchedAgain(w.rows, mid.rows, SafeLimit(c.batchSize), batch);
      var again := Reread(mid.rows, batch);
      polls := init + [Poll(again, REFUSING)];
      AppendPoll(c, w, init, Poll(again, REFUSING));
      PollWithout(mid, again, c.maxRetries, x);
      LeavesOutTransitive(w.rows, mid.rows, Polled(c, w, polls).rows, x);
    }
  }

  // ----- The condition -----

  /** Some n polls leave a live row behind. */
  ghost predicate LeftBehind(c: Config, w: World, n: nat) {
    exists polls :: |polls| == n && ArePolls(c, w, polls) && NoDbFaults(polls)
                    && !Settled(Polled(c, w, polls).rows, c.maxRetries)
  }

  lemma OutOfReachLeftBehind(c: Config, w: World, n: nat)
    requires WellKeyed(w.rows) && !AllInReach(w.rows, c.maxRetries, SafeLimit(c.batchSize))
    ensures LeftBehind(c, w, n)
  {
    var x :| x in Unpublished(w.rows) && Live(w.rows[x], c.maxRetries) && |Ahead(w.rows, x)| >= SafeLimit(c.batchSize);
    var batch := FetchWithout(w.rows, SafeLimit(c.batchSize), x);
    var polls := PollsWithout(c, w, batch, x, n);
    assert x in Unpublished(Polled(c, w, polls).rows);
    assert !Settled(Polled(c, w, polls).rows, c.maxRetries);
  }

  /** If each live row is in reach, every row ends published or exhausted within maxRetries polls, whatever the
      broker answers; if not, no number of polls is enough to be certain of it. */
  lemma SettlesExactly(c: Config, w: World)
    requires WellKeyed(w.rows)
    ensures AllInReach(w.rows, c.maxRetries, SafeLimit(c.batchSize)) <==>
            forall n: nat :: n >= c.Cap() ==> !LeftBehind(c, w, n)
    ensures !AllInReach(w.rows, c.maxRetries, SafeLimit(c.batchSize)) <==> forall n: nat :: LeftBehind(c, w, n)
  {
    if AllInReach(w.rows, c.maxRetries, SafeLimit(c.batchSize)) {
      forall n: nat | n >= c.Cap() ensures !LeftBehind(c, w, n) {
        forall polls | |polls| == n && ArePolls(c, w, polls) && NoDbFaults(polls)
          ensures Settled(Polled(c, w, polls).rows, c.maxRetries)
        {
          PollsAdvance(c, w, polls);
        }
      }
      assert !LeftBehind(c, w, c.Cap());
    } else {
      forall n: nat ensures LeftBehind(c, w, n) { OutOfReachLeftBehind(c, w, n); }
      assert LeftBehind(c, w, c.Cap());
    }
  }

  /** In particular a table with at most a batch-full of unpublished rows always settles. */
  lemma SmallTablesSettle(c: Config, w: World, polls: seq<Poll>)
    requires WellKeyed(w.rows) && |Unpublished(w.rows)| <= SafeLimit(c.batchSize)
    requires ArePolls(c, w, polls) && NoDbFaults(polls) && |polls| >= c.Cap()
    ensures Settled(Polled(c, w, polls).rows, c.maxRetries)
  {
    forall x | x in Unpublished(w.rows) ensures |Ahead(w.rows, x)| < SafeLimit(c.batchSize) {
      CardSubset(Ahead(w.rows, x) + {x}, Unpublished(w.rows));
    }
    SettlesExactly(c, w);
    assert !LeftBehind(c, w, |polls|);
  }
}
