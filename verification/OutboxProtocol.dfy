/**
 Any number of pollers over one outbox table, one database statement or publish at a time.
 A poller holds a snapshot that nothing locks; every statement may fail and every poller may crash anywhere.
 */
module OutboxProtocol {
  import opened Wrappers
  import opened Outbox
  import opened OutboxWorker

  datatype Config = Config(batchSize: nat, maxRetries: int) {
    function Cap(): nat { Max(maxRetries, 0) }
  }

  /** Deciding: nothing done for the current event; Sent / Failed: publish answered, mark still to come. */
  datatype Pc = Deciding | Sent | Failed

  datatype Poller =
    | Idle
    | Working(batch: seq<OutboxEvent>, at: nat, pc: Pc, skipped: set<EventId>, sent: set<EventId>)

  /** What happened so far, per event id: missed marks are those the table never saw (error or crash). */
  datatype History = History(
    rejected: multiset<EventId>,
    markedPublished: multiset<EventId>,
    missedPublished: multiset<EventId>,
    missedFailed: multiset<EventId>)

  datatype State = State(rows: Rows, log: seq<Message>, pollers: seq<Poller>, hist: History)

  datatype Action =
    | Store(events: seq<OutboxEvent>)
    | Fetch(p: nat, batch: seq<OutboxEvent>)
    | Skip(p: nat)
    | Accept(p: nat)
    | Reject(p: nat)
    | MarkPublished(p: nat, now: Time, applied: bool)
    | MarkFailed(p: nat, err: string, applied: bool)
    | Finish(p: nat)
    | Crash(p: nat)

  ghost predicate AtEvent(s: State, p: nat, pc: Pc) {
    && p < |s.pollers| && s.pollers[p].Working?
    && s.pollers[p].at < |s.pollers[p].batch| && s.pollers[p].pc == pc
  }

  function Current(w: Poller): OutboxEvent
    requires w.Working? && w.at < |w.batch|
  {
    w.batch[w.at]
  }

  ghost predicate Enabled(c: Config, s: State, a: Action) {
    match a
    case Store(events) => Insertable(s.rows, events)
    case Fetch(p, batch) => p < |s.pollers| && s.pollers[p].Idle? && IsFetch(s.rows, SafeLimit(c.batchSize), batch)
    case Skip(p) => AtEvent(s, p, Deciding) && !Live(Current(s.pollers[p]), c.maxRetries)
    case Accept(p) => AtEvent(s, p, Deciding) && Live(Current(s.pollers[p]), c.maxRetries)
    case Reject(p) => AtEvent(s, p, Deciding) && Live(Current(s.pollers[p]), c.maxRetries)
    case MarkPublished(p, _, _) => AtEvent(s, p, Sent)
    case MarkFailed(p, _, _) => AtEvent(s, p, Failed)
    case Finish(p) => p < |s.pollers| && s.pollers[p].Working? && s.pollers[p].at == |s.pollers[p].batch|
    case Crash(p) => p < |s.pollers|
  }

  function Advance(w: Poller): Poller
    requires w.Working?
  {
    w.(at := w.at + 1, pc := Deciding)
  }

  function One(b: bool, id: EventId): multiset<EventId> {
    if b then multiset{id} else multiset{}
  }

  ghost function Next(c: Config, s: State, a: Action): State
    requires Enabled(c, s, a)
  {
    match a
    case Store(events) => s.(rows := s.rows + Inserted(events))
    case Fetch(p, batch) => s.(pollers := s.pollers[p := Working(batch, 0, Deciding, {}, {})])
    case Skip(p) =>
      var w := s.pollers[p];
      s.(pollers := s.pollers[p := Advance(w).(skipped := w.skipped + {Current(w).id})])
    case Accept(p) =>
      var w := s.pollers[p];
      s.(log := s.log + [ToMessage(Current(w))],
         pollers := s.pollers[p := w.(pc := Sent, sent := w.sent + {Current(w).id})])
    case Reject(p) =>
      var w := s.pollers[p];
      s.(pollers := s.pollers[p := w.(pc := Failed)],
         hist := s.hist.(rejected := s.hist.rejected + multiset{Current(w).id}))
    case MarkPublished(p, now, applied) =>
      var w := s.pollers[p];
      var id := Current(w).id;
      s.(rows := if applied then SetPublished(s.rows, id, now) else s.rows,
         pollers := s.pollers[p := Advance(w)],
         hist := s.hist.(markedPublished := s.hist.markedPublished + One(applied, id),
                         missedPublished := s.hist.missedPublished + One(!applied, id)))
    case MarkFailed(p, err, applied) =>
      var w := s.pollers[p];
      var id := Current(w).id;
      s.(rows := if applied then SetFailed(s.rows, id, err) else s.rows,
         pollers := s.pollers[p := Advance(w)],
         hist := s.hist.(missedFailed := s.hist.missedFailed + One(!applied, id)))
    case Finish(p) => s.(pollers := s.pollers[p := Idle])
    case Crash(p) =>
      var w := s.pollers[p];
      var lost := w.Working? && w.at < |w.batch|;
      var id := if lost then Current(w).id else 0;
      s.(pollers := s.pollers[p := Idle],
         hist := s.hist.(missedPublished := s.hist.missedPublished + One(lost && w.pc == Sent, id),
                         missedFailed := s.hist.missedFailed + One(lost && w.pc == Failed, id)))
  }

  // ----- Runs -----

  ghost predicate IsRun(c: Config, s: State, run: seq<Action>)
    decreases |run|
  {
    run == [] || (Enabled(c, s, run[0]) && IsRun(c, Next(c, s, run[0]), run[1..]))
  }

  ghost function After(c: Config, s: State, run: seq<Action>): State
    requires IsRun(c, s, run)
    decreases |run|
  {
    if run == [] then s else After(c, Next(c, s, run[0]), run[1..])
  }

  lemma {:induction false} RunConcat(c: Config, s: State, r1: seq<Action>, r2: seq<Action>)
    requires IsRun(c, s, r1) && IsRun(c, After(c, s, r1), r2)
    ensures IsRun(c, s, r1 + r2) && After(c, s, r1 + r2) == After(c, After(c, s, r1), r2)
    decreases |r1|
  {
    if r1 == [] {
      assert r1 + r2 == r2;
    } else {
      ConcatHead(r1, r2);
      RunConcat(c, Next(c, s, r1[0]), r1[1..], r2);
    }
  }

  ghost function Init(pollers: nat): State {
    State(map[], [], seq(pollers, _ => Idle), History(multiset{}, multiset{}, multiset{}, multiset{}))
  }

  ghost predicate Reachable(c: Config, pollers: nat, s: State) {
    exists run :: IsRun(c, Init(pollers), run) && s == After(c, Init(pollers), run)
  }

  lemma ReachableStep(c: Config, pollers: nat, s: State, a: Action)
    requires Reachable(c, pollers, s) && Enabled(c, s, a)
    ensures Reachable(c, pollers, Next(c, s, a))
  {
    var run :| IsRun(c, Init(pollers), run) && s == After(c, Init(pollers), run);
    assert IsRun(c, s, [a]);
    RunConcat(c, Init(pollers), run, [a]);
  }

  // ----- Counting pollers -----

  /** Holding: may still mark the row. InFlight: stands between publish and mark for it. */
  datatype Query = Holding(id: EventId, maxRetries: int) | InFlight(id: EventId, pc: Pc)

  ghost predicate MayMark(w: Poller, j: nat, id: EventId, maxRetries: int)
    requires w.Working? && j < |w.batch|
  {
    w.at <= j && w.batch[j].id == id && Live(w.batch[j], maxRetries)
  }

  ghost predicate Sat(w: Poller, q: Query) {
    && w.Working?
    && match q
       case Holding(id, maxRetries) => exists j: nat :: j < |w.batch| && MayMark(w, j, id, maxRetries)
       case InFlight(id, pc) => w.at < |w.batch| && w.batch[w.at].id == id && w.pc == pc
  }

  ghost function Count(ps: seq<Poller>, q: Query): nat {
    if ps == [] then 0 else (if Sat(ps[0], q) then 1 else 0) + Count(ps[1..], q)
  }

  lemma {:induction false} CountUpdate(ps: seq<Poller>, p: nat, w: Poller, q: Query)
    requires p < |ps|
    ensures Count(ps[p := w], q) + (if Sat(ps[p], q) then 1 else 0) == Count(ps, q) + (if Sat(w, q) then 1 else 0)
  {
    if p == 0 {
      assert ps[p := w][1..] == ps[1..];
    } else {
      assert ps[p := w][1..] == ps[1..][p - 1 := w];
      CountUpdate(ps[1..], p - 1, w, q);
    }
  }

  lemma {:induction false} CountBound(ps: seq<Poller>, q: Query)
    ensures Count(ps, q) <= |ps|
    ensures (forall i :: 0 <= i < |ps| ==> !Sat(ps[i], q)) ==> Count(ps, q) == 0
    ensures (exists i :: 0 <= i < |ps| && !Sat(ps[i], q)) ==> Count(ps, q) < |ps|
  {
    if ps != [] {
      CountBound(ps[1..], q);
      if i :| 0 <= i < |ps| && !Sat(ps[i], q) {
        if i > 0 { assert !Sat(ps[1..][i - 1], q); }
      } else {
        assert forall i :: 0 <= i < |ps[1..]| ==> ps[1..][i] == ps[i + 1];
      }
    }
  }

  // ----- Shape of reachable states -----

  ghost predicate GoodPoller(c: Config, rows: Rows, w: Poller) {
    w.Working? ==>
      && w.at <= |w.batch|
      && Distinct(w.batch)
      && (forall i :: 0 <= i < |w.batch| ==> w.batch[i].id in rows)
      && (w.pc != Deciding ==> w.at < |w.batch| && Live(w.batch[w.at], c.maxRetries))
      && (forall id :: id in w.skipped ==>
            exists i :: 0 <= i < |w.batch| && w.batch[i].id == id && !Live(w.batch[i], c.maxRetries))
      && (forall id :: id in w.sent ==>
            exists i :: 0 <= i < |w.batch| && w.batch[i].id == id && Live(w.batch[i], c.maxRetries))
      && (forall i :: 0 <= i < w.at && !Live(w.batch[i], c.maxRetries) ==> w.batch[i].id in w.skipped)
      && (w.pc == Sent ==> w.batch[w.at].id in w.sent)
  }

  ghost predicate Shape(c: Config, s: State) {
    && WellKeyed(s.rows)
    && (forall p :: 0 <= p < |s.pollers| ==> GoodPoller(c, s.rows, s.pollers[p]))
  }

  lemma GoodPollerGrows(c: Config, rows: Rows, rows': Rows, w: Poller)
    requires GoodPoller(c, rows, w) && rows.Keys <= rows'.Keys
    ensures GoodPoller(c, rows', w)
  {
  }

  lemma RowsStep(c: Config, s: State, a: Action)
    requires WellKeyed(s.rows) && Enabled(c, s, a)
    ensures WellKeyed(Next(c, s, a).rows) && s.rows.Keys <= Next(c, s, a).rows.Keys
  {
    if a.Store? { InsertedFresh(a.events); }
  }

  lemma MovedPoller(c: Config, s: State, a: Action)
    requires Shape(c, s) && Enabled(c, s, a) && !a.Store?
    ensures |Next(c, s, a).pollers| == |s.pollers| && GoodPoller(c, s.rows, Next(c, s, a).pollers[a.p])
  {
    assert GoodPoller(c, s.rows, s.pollers[a.p]);
  }

  lemma ShapeStep(c: Config, s: State, a: Action)
    requires Shape(c, s) && Enabled(c, s, a)
    ensures Shape(c, Next(c, s, a))
  {
    var s' := Next(c, s, a);
    RowsStep(c, s, a);
    if !a.Store? { MovedPoller(c, s, a); }
    forall p | 0 <= p < |s'.pollers| ensures GoodPoller(c, s'.rows, s'.pollers[p]) {
      GoodPollerGrows(c, s.rows, s'.rows, s'.pollers[p]);
    }
  }

  // ----- Accounts -----

  ghost function Copies(s: State, id: EventId): nat {
    multiset(MessageIds(s.log))[id]
  }

  ghost function Retries(s: State, id: EventId): nat {
    if id in s.rows then s.rows[id].retryCount else 0
  }

  ghost predicate IsPublished(s: State, id: EventId) {
    id in s.rows && s.rows[id].publishedAt.Some?
  }

  /** Every publish is accounted for: marked, missed, or still between publish and mark. */
  ghost predicate Account(s: State, id: EventId) {
    && Copies(s, id) == s.hist.markedPublished[id] + s.hist.missedPublished[id] + Count(s.pollers, InFlight(id, Sent))
    && s.hist.rejected[id] == Retries(s, id) + s.hist.missedFailed[id] + Count(s.pollers, InFlight(id, Failed))
    && (IsPublished(s, id) <==> s.hist.markedPublished[id] > 0)
  }

  lemma AccountStoreStep(c: Config, s: State, a: Action, id: EventId)
    requires Account(s, id) && Enabled(c, s, a) && a.Store?
    ensures Account(Next(c, s, a), id)
  {
    InsertedFresh(a.events);
    InsertedRows(a.events);
    assert id in s.rows ==> id !in Inserted(a.events);
  }

  lemma AccountAcceptStep(c: Config, s: State, a: Action, id: EventId)
    requires Account(s, id) && Enabled(c, s, a) && a.Accept?
    ensures Account(Next(c, s, a), id)
  {
    var s' := Next(c, s, a);
    CountUpdate(s.pollers, a.p, s'.pollers[a.p], InFlight(id, Sent));
    CountUpdate(s.pollers, a.p, s'.pollers[a.p], InFlight(id, Failed));
    CopiesAppend(s, s', ToMessage(Current(s.pollers[a.p])), id);
  }

  lemma CopiesAppend(s: State, s': State, m: Message, id: EventId)
    requires s'.log == s.log + [m]
    ensures Copies(s', id) == Copies(s, id) + (if m.messageId == id then 1 else 0)
  {
    MessageIdsAppend(s.log, m);
  }

  lemma AccountRejectStep(c: Config, s: State, a: Action, id: EventId)
    requires Account(s, id) && Enabled(c, s, a) && a.Reject?
    ensures Account(Next(c, s, a), id)
  {
    CountUpdate(s.pollers, a.p, Next(c, s, a).pollers[a.p], InFlight(id, Sent));
    CountUpdate(s.pollers, a.p, Next(c, s, a).pollers[a.p], InFlight(id, Failed));
  }

  lemma CurrentStored(c: Config, s: State, p: nat)
    requires Shape(c, s) && p < |s.pollers| && s.pollers[p].Working? && s.pollers[p].at < |s.pollers[p].batch|
    ensures Current(s.pollers[p]).id in s.rows
  {
    assert GoodPoller(c, s.rows, s.pollers[p]);
  }

  lemma FlightMoves(c: Config, s: State, a: Action, id: EventId, pc: Pc)
    requires Enabled(c, s, a) && !a.Store?
    ensures
      var w, w' := s.pollers[a.p], Next(c, s, a).pollers[a.p];
      Count(Next(c, s, a).pollers, InFlight(id, pc)) + (if Sat(w, InFlight(id, pc)) then 1 else 0) ==
      Count(s.pollers, InFlight(id, pc)) + (if Sat(w', InFlight(id, pc)) then 1 else 0)
  {
    CountUpdate(s.pollers, a.p, Next(c, s, a).pollers[a.p], InFlight(id, pc));
  }

  lemma AccountPublishedStep(c: Config, s: State, a: Action, id: EventId)
    requires Account(s, id) && Enabled(c, s, a) && a.MarkPublished? && Current(s.pollers[a.p]).id in s.rows
    ensures Account(Next(c, s, a), id)
  {
    FlightMoves(c, s, a, id, Sent);
    FlightMoves(c, s, a, id, Failed);
  }

  lemma AccountFailedStep(c: Config, s: State, a: Action, id: EventId)
    requires Account(s, id) && Enabled(c, s, a) && a.MarkFailed? && Current(s.pollers[a.p]).id in s.rows
    ensures Account(Next(c, s, a), id)
  {
    FlightMoves(c, s, a, id, Sent);
    FlightMoves(c, s, a, id, Failed);
  }

  lemma AccountMoveStep(c: Config, s: State, a: Action, id: EventId)
    requires Account(s, id) && Enabled(c, s, a) && (a.Fetch? || a.Skip? || a.Finish? || a.Crash?)
    ensures Account(Next(c, s, a), id)
  {
    CountUpdate(s.pollers, a.p, Next(c, s, a).pollers[a.p], InFlight(id, Sent));
    CountUpdate(s.pollers, a.p, Next(c, s, a).pollers[a.p], InFlight(id, Failed));
  }

  lemma AccountStep(c: Config, s: State, a: Action, id: EventId)
    requires Shape(c, s) && Account(s, id) && Enabled(c, s, a)
    ensures Account(Next(c, s, a), id)
  {
    if a.MarkPublished? || a.MarkFailed? { CurrentStored(c, s, a.p); }
    match a
    case Store(_) => AccountStoreStep(c, s, a, id);
    case Accept(_) => AccountAcceptStep(c, s, a, id);
    case Reject(_) => AccountRejectStep(c, s, a, id);
    case MarkPublished(_, _, _) => AccountPublishedStep(c, s, a, id);
    case MarkFailed(_, _, _) => AccountFailedStep(c, s, a, id);
    case _ => AccountMoveStep(c, s, a, id);
  }

  // ----- Marks -----

  ghost function Holders(c: Config, s: State, id: EventId): nat {
    Count(s.pollers, Holding(id, c.maxRetries))
  }

  /** Marks done and marks that pollers with an older snapshot may still do. One poller's mark can be the last that
      the limit allows; each of the others can then add at most the one it holds. */
  ghost predicate WithinBudget(c: Config, s: State, id: EventId) {
    Retries(s, id) + s.hist.markedPublished[id] + Holders(c, s, id) <= c.Cap() + |s.pollers| - 1
  }

  lemma HoldingShrinks(c: Config, s: State, a: Action, id: EventId)
    requires Enabled(c, s, a) && !a.Store? && !a.Fetch?
    ensures Holders(c, Next(c, s, a), id) <= Holders(c, s, id)
  {
    var w, w' := s.pollers[a.p], Next(c, s, a).pollers[a.p];
    var q := Holding(id, c.maxRetries);
    CountUpdate(s.pollers, a.p, w', q);
    if Sat(w', q) {
      var j: nat :| j < |w'.batch| && MayMark(w', j, id, c.maxRetries);
      assert MayMark(w, j, id, c.maxRetries);
    }
  }

  /** A poller marks each row of its snapshot at most once. */
  lemma HoldingEnds(c: Config, s: State, a: Action)
    requires Shape(c, s) && Enabled(c, s, a) && (a.MarkPublished? || a.MarkFailed?)
    ensures
      var id := Current(s.pollers[a.p]).id;
      Holders(c, Next(c, s, a), id) == Holders(c, s, id) - 1
  {
    var w, w' := s.pollers[a.p], Next(c, s, a).pollers[a.p];
    var q := Holding(Current(w).id, c.maxRetries);
    assert GoodPoller(c, s.rows, w);
    assert MayMark(w, w.at, Current(w).id, c.maxRetries);
    assert Sat(w, q) && !Sat(w', q);
    CountUpdate(s.pollers, a.p, w', q);
  }

  /** A new snapshot holds only rows that are neither published nor exhausted. */
  lemma HoldingStarts(c: Config, s: State, a: Action, id: EventId)
    requires Enabled(c, s, a) && a.Fetch?
    ensures
      || Holders(c, Next(c, s, a), id) <= Holders(c, s, id)
      || (id in s.rows && s.rows[id].publishedAt.None? && Live(s.rows[id], c.maxRetries))
  {
    CountUpdate(s.pollers, a.p, Next(c, s, a).pollers[a.p], Holding(id, c.maxRetries));
  }

  lemma BudgetStoreStep(c: Config, s: State, a: Action, id: EventId)
    requires WithinBudget(c, s, id) && Enabled(c, s, a) && a.Store?
    ensures WithinBudget(c, Next(c, s, a), id)
  {
    InsertedFresh(a.events);
    InsertedRows(a.events);
  }

  lemma BudgetFetchStep(c: Config, s: State, a: Action, id: EventId)
    requires WithinBudget(c, s, id) && Account(s, id) && Enabled(c, s, a) && a.Fetch?
    ensures WithinBudget(c, Next(c, s, a), id)
  {
    HoldingStarts(c, s, a, id);
    CountBound(Next(c, s, a).pollers, Holding(id, c.maxRetries));
  }

  lemma BudgetMarkStep(c: Config, s: State, a: Action, id: EventId)
    requires Shape(c, s) && WithinBudget(c, s, id) && Enabled(c, s, a) && (a.MarkPublished? || a.MarkFailed?)
    ensures WithinBudget(c, Next(c, s, a), id)
  {
    HoldingShrinks(c, s, a, id);
    HoldingEnds(c, s, a);
  }

  lemma BudgetStep(c: Config, s: State, a: Action, id: EventId)
    requires Shape(c, s) && WithinBudget(c, s, id) && Account(s, id) && Enabled(c, s, a)
    ensures WithinBudget(c, Next(c, s, a), id)
  {
    match a
    case Store(_) => BudgetStoreStep(c, s, a, id);
    case Fetch(_, _) => BudgetFetchStep(c, s, a, id);
    case MarkPublished(_, _, _) => BudgetMarkStep(c, s, a, id);
    case MarkFailed(_, _, _) => BudgetMarkStep(c, s, a, id);
    case _ => HoldingShrinks(c, s, a, id);
  }

  // ----- What every run keeps -----

  ghost predicate Inv(c: Config, s: State) {
    && Shape(c, s)
    && forall id :: Account(s, id) && WithinBudget(c, s, id)
  }

  lemma InitInv(c: Config, pollers: nat)
    requires pollers > 0
    ensures Inv(c, Init(pollers))
  {
    var s := Init(pollers);
    forall id ensures Account(s, id) && WithinBudget(c, s, id) {
      CountBound(s.pollers, Holding(id, c.maxRetries));
      CountBound(s.pollers, InFlight(id, Sent));
      CountBound(s.pollers, InFlight(id, Failed));
      assert MessageIds([]) == [];
    }
  }

  lemma InvStep(c: Config, s: State, a: Action)
    requires Inv(c, s) && Enabled(c, s, a)
    ensures Inv(c, Next(c, s, a)) && |Next(c, s, a).pollers| == |s.pollers|
  {
    ShapeStep(c, s, a);
    forall id ensures Account(Next(c, s, a), id) && WithinBudget(c, Next(c, s, a), id) {
      AccountStep(c, s, a, id);
      BudgetStep(c, s, a, id);
    }
  }

  lemma {:induction false} RunInv(c: Config, s: State, run: seq<Action>)
    requires Inv(c, s) && IsRun(c, s, run)
    ensures Inv(c, After(c, s, run)) && |After(c, s, run).pollers| == |s.pollers|
    decreases |run|
  {
    if run != [] {
      InvStep(c, s, run[0]);
      RunInv(c, Next(c, s, run[0]), run[1..]);
    }
  }

  lemma ReachableInv(c: Config, pollers: nat, s: State)
    requires Reachable(c, pollers, s) && pollers > 0
    ensures Inv(c, s) && |s.pollers| == pollers
  {
    var run :| IsRun(c, Init(pollers), run) && s == After(c, Init(pollers), run);
    InitInv(c, pollers);
    RunInv(c, Init(pollers), run);
  }

  /** retry_count overshoots the maximum by at most one per further poller. */
  lemma RetryCountBounded(c: Config, pollers: nat, s: State, id: EventId)
    requires Reachable(c, pollers, s) && pollers > 0 && id in s.rows
    ensures s.rows[id].retryCount <= c.Cap() + pollers - 1
  {
    ReachableInv(c, pollers, s);
    assert WithinBudget(c, s, id);
  }

  /** Exact account for any number of pollers, crashes and failed statements. */
  lemma PublishAccount(c: Config, pollers: nat, s: State, id: EventId)
    requires Reachable(c, pollers, s) && pollers > 0
    ensures Copies(s, id) == s.hist.markedPublished[id] + s.hist.missedPublished[id] + Count(s.pollers,
        InFlight(id, Sent))
    ensures s.hist.rejected[id] == Retries(s, id) + s.hist.missedFailed[id] + Count(s.pollers, InFlight(id, Failed))
  {
    ReachableInv(c, pollers, s);
    assert Account(s, id);
  }

  /** A row is marked only after the broker took it. */
  lemma PublishedWasSent(c: Config, pollers: nat, s: State, id: EventId)
    requires Reachable(c, pollers, s) && pollers > 0 && IsPublished(s, id)
    ensures id in MessageIds(s.log)
  {
    ReachableInv(c, pollers, s);
    assert Account(s, id);
  }

  /** No snapshot leads both to skipping an event and to publishing it. */
  lemma SkippedNotSent(c: Config, pollers: nat, s: State, p: nat)
    requires Reachable(c, pollers, s) && pollers > 0
    requires p < |s.pollers| && s.pollers[p].Working?
    ensures s.pollers[p].skipped !! s.pollers[p].sent
  {
    ReachableInv(c, pollers, s);
    var w := s.pollers[p];
    assert GoodPoller(c, s.rows, w);
    forall id | id in w.skipped ensures id !in w.sent {
      var i :| 0 <= i < |w.batch| && w.batch[i].id == id && !Live(w.batch[i], c.maxRetries);
      assert forall j :: 0 <= j < |w.batch| && w.batch[j].id == id ==> j == i;
    }
  }

  /** What a poller has behind it is exact: of the events it is done with it skipped just those whose snapshot was
      exhausted, and an event it has sent is among those it sent. */
  lemma SkippedExactly(c: Config, pollers: nat, s: State, p: nat, i: nat)
    requires Reachable(c, pollers, s) && pollers > 0
    requires p < |s.pollers| && s.pollers[p].Working? && i < |s.pollers[p].batch|
    ensures
      var w := s.pollers[p];
      && w.at <= |w.batch|
      && (i < w.at ==> (w.batch[i].id in w.skipped <==> w.batch[i].retryCount >= c.maxRetries))
      && (i == w.at && w.pc == Sent ==> w.batch[i].id in w.sent && w.batch[i].id !in w.skipped)
  {
    ReachableInv(c, pollers, s);
    SkippedNotSent(c, pollers, s, p);
    assert GoodPoller(c, s.rows, s.pollers[p]);
  }

  /** A poller may crash at any point: table and broker stay, it is idle, and just the mark it owed is missed. */
  lemma PollerCrash(c: Config, s: State, p: nat)
    requires p < |s.pollers|
    ensures Enabled(c, s, Crash(p))
    ensures
      var t := Next(c, s, Crash(p));
      && t.rows == s.rows && t.log == s.log && t.pollers == s.pollers[p := Idle]
      && (!AtEvent(s, p, Sent) && !AtEvent(s, p, Failed) ==> t.hist == s.hist)
      && (AtEvent(s, p, Sent) ==>
            t.hist == s.hist.(missedPublished := s.hist.missedPublished + multiset{Current(s.pollers[p]).id}))
      && (AtEvent(s, p, Failed) ==>
            t.hist == s.hist.(missedFailed := s.hist.missedFailed + multiset{Current(s.pollers[p]).id}))
  {
  }

  // ----- What a run never takes back -----

  ghost predicate SameEvent(e: OutboxEvent, e': OutboxEvent) {
    e' == e.(publishedAt := e'.publishedAt, retryCount := e'.retryCount, lastError := e'.lastError)
  }

  ghost predicate Later(s: State, s': State) {
    && s.log <= s'.log
    && (forall id :: id in s.rows ==>
          && id in s'.rows
          && SameEvent(s.rows[id], s'.rows[id])
          && s.rows[id].retryCount <= s'.rows[id].retryCount
          && (s.rows[id].publishedAt.Some? ==> s'.rows[id].publishedAt.Some?))
  }

  lemma LaterStep(c: Config, s: State, a: Action)
    requires Enabled(c, s, a)
    ensures Later(s, Next(c, s, a))
  {
    if a.Store? { InsertedRows(a.events); }
  }

  /** Rows stay, their content stays, published rows stay published, retry counts and the broker log only grow. */
  lemma {:induction false} RunLater(c: Config, s: State, run: seq<Action>)
    requires IsRun(c, s, run)
    ensures Later(s, After(c, s, run))
    decreases |run|
  {
    if run != [] {
      LaterStep(c, s, run[0]);
      RunLater(c, Next(c, s, run[0]), run[1..]);
    }
  }
}
