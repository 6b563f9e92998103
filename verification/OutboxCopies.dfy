/**
 How many copies of an event any number of pollers can put into the broker, and what each copy carries.
 A stale snapshot lets every poller mark a row published once more, but its content never goes stale.
 */
module OutboxCopies {
  import opened Wrappers
  import opened Outbox
  import opened OutboxWorker
  import opened OutboxProtocol
  import opened OutboxSingle

  // ----- Marks -----

  /** Once a row is published, only the pollers that hold an older snapshot can mark it again. */
  ghost predicate MarkBound(c: Config, s: State, id: EventId) {
    IsPublished(s, id) ==> s.hist.markedPublished[id] + Holders(c, s, id) <= |s.pollers|
  }

  lemma MarkStoreStep(c: Config, s: State, a: Action, id: EventId)
    requires MarkBound(c, s, id) && Enabled(c, s, a) && a.Store?
    ensures MarkBound(c, Next(c, s, a), id)
  {
    InsertedFresh(a.events);
  }

  lemma MarkOnce(c: Config, s: State, a: Action, id: EventId)
    requires Shape(c, s) && Account(s, id) && MarkBound(c, s, id) && Enabled(c, s, a) && a.MarkPublished?
    requires id == Current(s.pollers[a.p]).id
    ensures MarkBound(c, Next(c, s, a), id)
  {
    HoldingEnds(c, s, a);
    CountBound(s.pollers, Holding(id, c.maxRetries));
  }

  lemma MarkStep(c: Config, s: State, a: Action, id: EventId)
    requires Shape(c, s) && Account(s, id) && MarkBound(c, s, id) && Enabled(c, s, a)
    ensures MarkBound(c, Next(c, s, a), id)
  {
    if a.Store? {
      MarkStoreStep(c, s, a, id);
    } else if a.Fetch? {
      HoldingStarts(c, s, a, id);
    } else if a.MarkPublished? && id == Current(s.pollers[a.p]).id {
      MarkOnce(c, s, a, id);
    } else {
      HoldingShrinks(c, s, a, id);
    }
  }

  // ----- Content -----

  /** Snapshots may be stale, but not in what is published. */
  ghost predicate ContentCurrent(rows: Rows, w: Poller) {
    w.Working? ==>
      forall i :: 0 <= i < |w.batch| ==>
        w.batch[i].id in rows && ToMessage(rows[w.batch[i].id]) == ToMessage(w.batch[i])
  }

  ghost predicate SameContent(s: State) {
    forall p :: 0 <= p < |s.pollers| ==> ContentCurrent(s.rows, s.pollers[p])
  }

  lemma ContentGrows(s: State, s': State, w: Poller)
    requires Later(s, s') && ContentCurrent(s.rows, w)
    ensures ContentCurrent(s'.rows, w)
  {
    if w.Working? {
      forall i | 0 <= i < |w.batch|
        ensures w.batch[i].id in s'.rows && ToMessage(s'.rows[w.batch[i].id]) == ToMessage(w.batch[i])
      {
        assert SameEvent(s.rows[w.batch[i].id], s'.rows[w.batch[i].id]);
      }
    }
  }

  lemma ContentStep(c: Config, s: State, a: Action)
    requires SameContent(s) && Enabled(c, s, a)
    ensures SameContent(Next(c, s, a))
  {
    var s' := Next(c, s, a);
    LaterStep(c, s, a);
    forall p | 0 <= p < |s'.pollers| ensures ContentCurrent(s'.rows, s'.pollers[p]) {
      if !a.Store? && p == a.p {
        MovedContent(c, s, a);
        ContentGrows(s, s', s'.pollers[p]);
      } else {
        ContentGrows(s, s', s.pollers[p]);
      }
    }
  }

  lemma MovedContent(c: Config, s: State, a: Action)
    requires SameContent(s) && Enabled(c, s, a) && !a.Store?
    ensures |Next(c, s, a).pollers| == |s.pollers| && ContentCurrent(s.rows, Next(c, s, a).pollers[a.p])
  {
    assert ContentCurrent(s.rows, s.pollers[a.p]);
  }

  // ----- Runs -----

  ghost predicate CopyInv(c: Config, s: State) {
    Inv(c, s) && SameContent(s) && forall id :: MarkBound(c, s, id)
  }

  lemma CopyStep(c: Config, s: State, a: Action)
    requires CopyInv(c, s) && Enabled(c, s, a)
    ensures CopyInv(c, Next(c, s, a)) && |Next(c, s, a).pollers| == |s.pollers|
  {
    InvStep(c, s, a);
    ContentStep(c, s, a);
    forall id ensures MarkBound(c, Next(c, s, a), id) {
      assert Account(s, id) && MarkBound(c, s, id);
      MarkStep(c, s, a, id);
    }
  }

  lemma {:induction false} CopyRun(c: Config, s: State, run: seq<Action>)
    requires CopyInv(c, s) && IsRun(c, s, run)
    ensures CopyInv(c, After(c, s, run)) && |After(c, s, run).pollers| == |s.pollers|
    decreases |run|
  {
    if run != [] {
      CopyStep(c, s, run[0]);
      CopyRun(c, Next(c, s, run[0]), run[1..]);
    }
  }

  lemma CopyReachable(c: Config, pollers: nat, s: State)
    requires Reachable(c, pollers, s) && pollers > 0
    ensures CopyInv(c, s) && |s.pollers| == pollers
  {
    var run :| IsRun(c, Init(pollers), run) && s == After(c, Init(pollers), run);
    InitInv(c, pollers);
    CopyRun(c, Init(pollers), run);
  }

  // ----- The bound -----

  /** Whoever stands between publish and mark still holds the row. */
  lemma {:induction false} InFlightHolds(c: Config, rows: Rows, ps: seq<Poller>, id: EventId)
    requires forall p :: 0 <= p < |ps| ==> GoodPoller(c, rows, ps[p])
    ensures Count(ps, InFlight(id, Sent)) + Count(ps, InFlight(id, Failed)) <= Count(ps, Holding(id, c.maxRetries))
  {
    if ps != [] {
      var w := ps[0];
      assert forall p :: 0 <= p < |ps[1..]| ==> ps[1..][p] == ps[p + 1];
      InFlightHolds(c, rows, ps[1..], id);
      assert GoodPoller(c, rows, w);
      if Sat(w, InFlight(id, Sent)) || Sat(w, InFlight(id, Failed)) {
        assert MayMark(w, w.at, id, c.maxRetries);
      }
    }
  }

  /** Each poller marks a row published at most once. */
  lemma MarksBounded(c: Config, pollers: nat, s: State, id: EventId)
    requires Reachable(c, pollers, s) && pollers > 0
    ensures s.hist.markedPublished[id] + Count(s.pollers, InFlight(id, Sent)) <= pollers
  {
    CopyReachable(c, pollers, s);
    assert Account(s, id) && MarkBound(c, s, id);
    InFlightHolds(c, s.rows, s.pollers, id);
    CountBound(s.pollers, InFlight(id, Sent));
  }

  /** With W pollers the broker holds at most W copies of an event, plus one for every mark that was missed. */
  lemma CopiesBoundedByPollers(c: Config, pollers: nat, s: State, id: EventId)
    requires Reachable(c, pollers, s) && pollers > 0
    ensures Copies(s, id) <= pollers + s.hist.missedPublished[id]
    ensures IsPublished(s, id) ==> Copies(s, id) >= 1
  {
    MarksBounded(c, pollers, s, id);
    CopyReachable(c, pollers, s);
    assert Account(s, id);
  }

  // ----- Publish calls -----

  function PublishCalls(s: State): multiset<EventId> {
    multiset(MessageIds(s.log)) + s.hist.rejected
  }

  function Missed(s: State): multiset<EventId> {
    s.hist.missedPublished + s.hist.missedFailed
  }

  /** With W pollers a row causes at most maxRetries + W - 1 publish calls, accepted and refused ones together, plus
      one call for every mark the table missed. */
  lemma RowCalls(c: Config, pollers: nat, s: State, id: EventId)
    requires Reachable(c, pollers, s) && pollers > 0
    ensures PublishCalls(s)[id] <= c.Cap() + pollers - 1 + Missed(s)[id]
    ensures Missed(s)[id] <= PublishCalls(s)[id]
    ensures id !in s.rows ==> PublishCalls(s)[id] == Missed(s)[id]
  {
    ReachableInv(c, pollers, s);
    assert Account(s, id) && WithinBudget(c, s, id);
    InFlightHolds(c, s.rows, s.pollers, id);
    if id !in s.rows { NeverHeld(c, s, id); }
  }

  lemma NeverHeld(c: Config, s: State, id: EventId)
    requires Shape(c, s) && id !in s.rows
    ensures Holders(c, s, id) == 0
  {
    forall p | 0 <= p < |s.pollers| ensures !Sat(s.pollers[p], Holding(id, c.maxRetries)) {
      assert GoodPoller(c, s.rows, s.pollers[p]);
    }
    CountBound(s.pollers, Holding(id, c.maxRetries));
  }

  lemma BagDifference(calls: multiset<EventId>, missed: multiset<EventId>, ids: set<EventId>, most: nat)
    requires forall id :: missed[id] <= calls[id] && calls[id] <= most + missed[id]
    requires forall id :: id !in ids ==> calls[id] == missed[id]
    ensures |calls| <= |ids| * most + |missed|
  {
    var rest := calls - missed;
    forall id ensures rest[id] <= most && (id in rest ==> id in ids) {
      assert missed[id] <= calls[id];
    }
    BagBounded(rest, ids, most);
    assert calls == rest + missed;
  }

  /** N rows cost at most N * (maxRetries + W - 1) publish calls, plus one call for every mark the table missed. */
  lemma PublishCallsBounded(c: Config, pollers: nat, s: State)
    requires Reachable(c, pollers, s) && pollers > 0
    ensures |s.log| + |s.hist.rejected| <=
            |s.rows| * (c.Cap() + pollers - 1) + |s.hist.missedPublished| + |s.hist.missedFailed|
  {
    forall id
      ensures Missed(s)[id] <= PublishCalls(s)[id] <= c.Cap() + pollers - 1 + Missed(s)[id]
      ensures id !in s.rows.Keys ==> PublishCalls(s)[id] == Missed(s)[id]
    {
      RowCalls(c, pollers, s, id);
    }
    BagDifference(PublishCalls(s), Missed(s), s.rows.Keys, c.Cap() + pollers - 1);
    assert |MessageIds(s.log)| == |s.log|;
    assert |s.rows.Keys| == |s.rows|;
  }

  // ----- The bound is reached -----

  ghost predicate Sendable(c: Config, s: State, pollers: nat, k: nat) {
    && |s.pollers| == pollers
    && (forall i :: k <= i < pollers ==> Ready(c, s, i))
    && Copies(s, 0) == k && s.hist.missedPublished[0] == 0
  }

  lemma {:induction false} SomeSent(c: Config, pollers: nat, k: nat) returns (s: State)
    requires pollers > 0 && c.maxRetries > 0 && k <= pollers
    ensures Reachable(c, pollers, s) && Sendable(c, s, pollers, k)
  {
    if k == 0 {
      s := AllFetched(c, pollers, pollers);
      assert MessageIds([]) == [];
    } else {
      var t := SomeSent(c, pollers, k - 1);
      assert Ready(c, t, k - 1);
      ReachableStep(c, pollers, t, Accept(k - 1));
      var u := Next(c, t, Accept(k - 1));
      ReachableStep(c, pollers, u, MarkPublished(k - 1, 0, true));
      s := Next(c, u, MarkPublished(k - 1, 0, true));
      CopiesAppend(t, u, ToMessage(Current(t.pollers[k - 1])), 0);
      forall i | k <= i < pollers ensures Ready(c, s, i) {
        assert Ready(c, t, i) && s.pollers[i] == t.pollers[i];
      }
    }
  }

  /** CopiesBoundedByPollers cannot be improved: with no mark missed, some run puts W copies into the broker. */
  lemma CopiesBoundReached(c: Config, pollers: nat) returns (s: State)
    requires pollers > 0 && c.maxRetries > 0
    ensures Reachable(c, pollers, s) && Copies(s, 0) == pollers && s.hist.missedPublished[0] == 0
  {
    s := SomeSent(c, pollers, pollers);
  }

  // ----- Marks that the table never saw -----

  /** One poller at rest; the row was sent k times, each time without the mark, by a crash or by an error. */
  ghost predicate SentUnmarked(s: State, k: nat) {
    && s.pollers == [Idle]
    && s.rows.Keys == {0} && s.rows[0].id == 0 && s.rows[0].publishedAt.None? && s.rows[0].retryCount == 0
    && Copies(s, 0) == k && s.hist.missedPublished[0] == k
  }

  lemma SendUnmarked(c: Config, t: State, k: nat, crash: bool) returns (s: State)
    requires c.maxRetries > 0 && Reachable(c, 1, t) && SentUnmarked(t, k)
    ensures Reachable(c, 1, s) && SentUnmarked(s, k + 1)
  {
    assert Unpublished(t.rows) == {0};
    assert Ids([t.rows[0]]) == {0} by { assert [t.rows[0]][0].id == 0; }
    ReachableStep(c, 1, t, Fetch(0, [t.rows[0]]));
    var u := Next(c, t, Fetch(0, [t.rows[0]]));
    ReachableStep(c, 1, u, Accept(0));
    var v := Next(c, u, Accept(0));
    CopiesAppend(u, v, ToMessage(t.rows[0]), 0);
    s := LeaveUnmarked(c, v, crash);
  }

  lemma LeaveUnmarked(c: Config, v: State, crash: bool) returns (s: State)
    requires Reachable(c, 1, v) && AtEvent(v, 0, Sent) && |v.pollers| == 1
    requires |v.pollers[0].batch| == 1 && Current(v.pollers[0]).id == 0
    ensures Reachable(c, 1, s) && s.pollers == [Idle] && s.rows == v.rows && s.log == v.log
    ensures s.hist.missedPublished[0] == v.hist.missedPublished[0] + 1
  {
    if crash {
      ReachableStep(c, 1, v, Crash(0));
      s := Next(c, v, Crash(0));
    } else {
      ReachableStep(c, 1, v, MarkPublished(0, 0, false));
      var x := Next(c, v, MarkPublished(0, 0, false));
      ReachableStep(c, 1, x, Finish(0));
      s := Next(c, x, Finish(0));
    }
  }

  /** The account's duplicates are real: one poller can send an unpublished row any number of times, one copy for
      each crash before the mark, or for each mark that failed. */
  lemma {:induction false} MissedMarksDuplicate(c: Config, k: nat, crash: bool) returns (s: State)
    requires c.maxRetries > 0
    ensures Reachable(c, 1, s) && SentUnmarked(s, k)
  {
    if k == 0 {
      s := StoredAlone(c, 1);
      assert s.pollers == [Idle] && MessageIds([]) == [];
    } else {
      var t := MissedMarksDuplicate(c, k - 1, crash);
      s := SendUnmarked(c, t, k - 1, crash);
    }
  }
}
