/**
 End to end: any number of outbox pollers, a durable broker queue, and the subscriber goroutine that receives a message,
 hands it to the consumer and then acknowledges it. Crashes and failed acks put unacknowledged messages back.
 */
module Delivery {
  import opened Wrappers
  import opened Outbox
  import opened OutboxWorker
  import P = OutboxProtocol
  import opened OutboxSingle
  import opened OutboxCopies

  /** Received: blocked sending on the events channel. Handed: the consumer has it, the ack is still to come. */
  datatype Loop = Receiving | Received(m: Message) | Handed(m: Message) | Stopped

  datatype State = State(
    outbox: P.State,
    ready: seq<Message>,
    prefetched: seq<Message>,
    loop: Loop,
    out: seq<Message>,
    acked: multiset<EventId>,
    missedAcks: multiset<EventId>)

  datatype Action =
    | OutboxStep(a: P.Action)
    | Push
    | Receive
    | HandOver
    | Ack
    | AckFails
    | Stop
    | Crash

  ghost predicate Enabled(c: P.Config, s: State, a: Action) {
    match a
    case OutboxStep(b) => P.Enabled(c, s.outbox, b)
    case Push => s.ready != []
    case Receive => s.loop.Receiving? && s.prefetched != []
    case HandOver => s.loop.Received?
    case Ack => s.loop.Handed?
    case AckFails => s.loop.Handed?
    case Stop => s.loop.Receiving?
    case Crash => true
  }

  function Held(l: Loop): seq<Message> {
    if l.Received? || l.Handed? then [l.m] else []
  }

  ghost function Next(c: P.Config, s: State, a: Action): State
    requires Enabled(c, s, a)
  {
    match a
    case OutboxStep(b) =>
      var outbox := P.Next(c, s.outbox, b);
      s.(outbox := outbox,
         ready := if b.Accept? then s.ready + [ToMessage(P.Current(s.outbox.pollers[b.p]))] else s.ready)
    case Push => s.(ready := s.ready[1..], prefetched := s.prefetched + [s.ready[0]])
    case Receive => s.(prefetched := s.prefetched[1..], loop := Received(s.prefetched[0]))
    case HandOver => s.(loop := Handed(s.loop.m), out := s.out + [s.loop.m])
    case Ack => s.(loop := Receiving, acked := s.acked + multiset{s.loop.m.messageId})
    case AckFails =>
      s.(loop := Receiving, ready := s.ready + [s.loop.m], missedAcks := s.missedAcks + multiset{s.loop.m.messageId})
    case Stop => s.(loop := Stopped)
    case Crash =>
      s.(loop := Receiving, prefetched := [], ready := Held(s.loop) + s.prefetched + s.ready,
         missedAcks := s.missedAcks + if s.loop.Handed? then multiset{s.loop.m.messageId} else multiset{})
  }

  ghost function Init(pollers: nat): State {
    State(P.Init(pollers), [], [], Receiving, [], multiset{}, multiset{})
  }

  ghost predicate IsRun(c: P.Config, s: State, run: seq<Action>)
    decreases |run|
  {
    run == [] || (Enabled(c, s, run[0]) && IsRun(c, Next(c, s, run[0]), run[1..]))
  }

  ghost function After(c: P.Config, s: State, run: seq<Action>): State
    requires IsRun(c, s, run)
    decreases |run|
  {
    if run == [] then s else After(c, Next(c, s, run[0]), run[1..])
  }

  ghost predicate Reachable(c: P.Config, pollers: nat, s: State) {
    exists run :: IsRun(c, Init(pollers), run) && s == After(c, Init(pollers), run)
  }

  // ----- Where each message is -----

  function Waiting(s: State): seq<Message> {
    Held(s.loop) + s.prefetched + s.ready
  }

  /** How often the event's message occurs. */
  function Num(log: seq<Message>, id: EventId): nat {
    if log == [] then 0
    else var n := |log| - 1; Num(log[..n], id) + (if log[n].messageId == id then 1 else 0)
  }

  lemma {:induction false} NumConcat(a: seq<Message>, b: seq<Message>, id: EventId)
    ensures Num(a + b, id) == Num(a, id) + Num(b, id)
    decreases |b|
  {
    if b == [] {
      assert a + b == a;
    } else {
      var n := |b| - 1;
      assert (a + b)[..|a| + n] == a + b[..n];
      NumConcat(a, b[..n], id);
    }
  }

  lemma NumAppend(a: seq<Message>, m: Message, id: EventId)
    ensures Num(a + [m], id) == Num(a, id) + (if m.messageId == id then 1 else 0)
  {
    assert (a + [m])[..|a|] == a;
  }

  lemma NumTail(a: seq<Message>, id: EventId)
    requires a != []
    ensures Num(a, id) == (if a[0].messageId == id then 1 else 0) + Num(a[1..], id)
  {
    NumConcat([a[0]], a[1..], id);
    assert [a[0]] + a[1..] == a && [a[0]][..0] == [];
  }

  lemma {:induction false} NumIsCount(log: seq<Message>, id: EventId)
    ensures Num(log, id) == multiset(MessageIds(log))[id]
    decreases |log|
  {
    if log == [] {
      assert MessageIds(log) == [];
    } else {
      var n := |log| - 1;
      NumIsCount(log[..n], id);
      MessageIdsAppend(log[..n], log[n]);
      assert log[..n] + [log[n]] == log;
    }
  }

  predicate InProgress(s: State, id: EventId) {
    s.loop.Handed? && s.loop.m.messageId == id
  }

  predicate Holds(s: State, id: EventId) {
    (s.loop.Received? || s.loop.Handed?) && s.loop.m.messageId == id
  }

  /** The loop's own message counts as waiting until it is acknowledged. */
  ghost predicate Conserved(s: State, id: EventId) {
    && Num(s.outbox.log, id) == Ind(Holds(s, id)) + Num(s.prefetched, id) + Num(s.ready, id) + s.acked[id]
    && Num(s.out, id) == s.acked[id] + s.missedAcks[id] + Ind(InProgress(s, id))
  }

  ghost predicate Genuine(rows: Rows, log: seq<Message>) {
    forall i :: 0 <= i < |log| ==> log[i].messageId in rows && log[i] == ToMessage(rows[log[i].messageId])
  }

  ghost predicate Inv(c: P.Config, pollers: nat, s: State) {
    && pollers > 0 && P.Reachable(c, pollers, s.outbox)
    && (forall id :: Conserved(s, id))
    && |s.out| == |s.acked| + |s.missedAcks| + Ind(s.loop.Handed?)
    && AllGenuine(s)
  }

  lemma ConservedOutboxStep(c: P.Config, s: State, b: P.Action, id: EventId)
    requires Conserved(s, id) && P.Enabled(c, s.outbox, b)
    ensures Conserved(Next(c, s, OutboxStep(b)), id)
  {
    if b.Accept? {
      var m := ToMessage(P.Current(s.outbox.pollers[b.p]));
      NumAppend(s.outbox.log, m, id);
      NumAppend(s.ready, m, id);
    } else {
      assert P.Next(c, s.outbox, b).log == s.outbox.log;
    }
  }

  lemma ConservedQueueStep(c: P.Config, s: State, a: Action, id: EventId)
    requires Conserved(s, id) && Enabled(c, s, a) && (a.Push? || a.Receive?)
    ensures Conserved(Next(c, s, a), id)
  {
    if a.Push? {
      NumTail(s.ready, id);
      NumAppend(s.prefetched, s.ready[0], id);
    } else {
      NumTail(s.prefetched, id);
    }
  }

  lemma ConservedHandOver(c: P.Config, s: State, id: EventId)
    requires Conserved(s, id) && s.loop.Received?
    ensures Conserved(Next(c, s, HandOver), id)
  {
    NumAppend(s.out, s.loop.m, id);
  }

  lemma ConservedAck(c: P.Config, s: State, id: EventId)
    requires Conserved(s, id) && s.loop.Handed?
    ensures Conserved(Next(c, s, Ack), id)
  {
  }

  lemma ConservedAckFails(c: P.Config, s: State, id: EventId)
    requires Conserved(s, id) && s.loop.Handed?
    ensures Conserved(Next(c, s, AckFails), id)
  {
    var t := Next(c, s, AckFails);
    NumAppend(s.ready, s.loop.m, id);
    assert t.ready == s.ready + [s.loop.m] && t.loop.Receiving?;
    assert t.missedAcks[id] == s.missedAcks[id] + Ind(s.loop.m.messageId == id);
  }

  lemma HeldNum(s: State, id: EventId)
    ensures Num(Held(s.loop), id) == Ind(Holds(s, id))
  {
    if s.loop.Received? || s.loop.Handed? { assert [s.loop.m][..0] == []; }
  }

  lemma ConservedCrash(c: P.Config, s: State, id: EventId)
    requires Conserved(s, id)
    ensures Conserved(Next(c, s, Crash), id)
  {
    NumConcat(Held(s.loop) + s.prefetched, s.ready, id);
    NumConcat(Held(s.loop), s.prefetched, id);
    HeldNum(s, id);
  }

  lemma ConservedStep(c: P.Config, s: State, a: Action, id: EventId)
    requires Conserved(s, id) && Enabled(c, s, a)
    ensures Conserved(Next(c, s, a), id)
  {
    match a
    case OutboxStep(b) => ConservedOutboxStep(c, s, b, id);
    case Push => ConservedQueueStep(c, s, a, id);
    case Receive => ConservedQueueStep(c, s, a, id);
    case HandOver => ConservedHandOver(c, s, id);
    case Ack => ConservedAck(c, s, id);
    case AckFails => ConservedAckFails(c, s, id);
    case Stop =>
    case Crash => ConservedCrash(c, s, id);
  }

  lemma TotalsStep(c: P.Config, s: State, a: Action)
    requires Enabled(c, s, a) && |s.out| == |s.acked| + |s.missedAcks| + Ind(s.loop.Handed?)
    ensures var t := Next(c, s, a); |t.out| == |t.acked| + |t.missedAcks| + Ind(t.loop.Handed?)
  {
  }

  ghost predicate AllGenuine(s: State) {
    && Genuine(s.outbox.rows, Held(s.loop)) && Genuine(s.outbox.rows, s.prefetched)
    && Genuine(s.outbox.rows, s.ready) && Genuine(s.outbox.rows, s.out)
  }

  lemma GenuineStays(outbox: P.State, outbox': P.State, log: seq<Message>)
    requires P.Later(outbox, outbox') && Genuine(outbox.rows, log)
    ensures Genuine(outbox'.rows, log)
  {
    forall i | 0 <= i < |log| ensures log[i].messageId in outbox'.rows &&
        log[i] == ToMessage(outbox'.rows[log[i].messageId]) {
      assert P.SameEvent(outbox.rows[log[i].messageId], outbox'.rows[log[i].messageId]);
    }
  }

  lemma GenuineOutboxStep(c: P.Config, pollers: nat, s: State, b: P.Action)
    requires Inv(c, pollers, s) && P.Enabled(c, s.outbox, b)
    ensures AllGenuine(Next(c, s, OutboxStep(b)))
  {
    var outbox' := P.Next(c, s.outbox, b);
    P.LaterStep(c, s.outbox, b);
    GenuineStays(s.outbox, outbox', Held(s.loop));
    GenuineStays(s.outbox, outbox', s.prefetched);
    GenuineStays(s.outbox, outbox', s.ready);
    GenuineStays(s.outbox, outbox', s.out);
    if b.Accept? {
      CopyReachable(c, pollers, s.outbox);
      assert ContentCurrent(s.outbox.rows, s.outbox.pollers[b.p]);
      assert Genuine(outbox'.rows, [ToMessage(P.Current(s.outbox.pollers[b.p]))]);
    }
  }

  lemma GenuineConcat(rows: Rows, a: seq<Message>, b: seq<Message>)
    ensures Genuine(rows, a + b) <==> Genuine(rows, a) && Genuine(rows, b)
  {
    assert forall i :: 0 <= i < |a| ==> (a + b)[i] == a[i];
    assert forall i :: 0 <= i < |b| ==> (a + b)[|a| + i] == b[i];
  }

  lemma GenuineTail(rows: Rows, a: seq<Message>)
    requires a != [] && Genuine(rows, a)
    ensures Genuine(rows, [a[0]]) && Genuine(rows, a[1..])
  {
    assert [a[0]] + a[1..] == a;
    GenuineConcat(rows, [a[0]], a[1..]);
  }

  lemma GenuineStep(c: P.Config, pollers: nat, s: State, a: Action)
    requires Inv(c, pollers, s) && Enabled(c, s, a)
    ensures AllGenuine(Next(c, s, a))
  {
    var rows := s.outbox.rows;
    match a
    case OutboxStep(b) => GenuineOutboxStep(c, pollers, s, b);
    case Push => GenuineTail(rows, s.ready); GenuineConcat(rows, s.prefetched, [s.ready[0]]);
    case Receive => GenuineTail(rows, s.prefetched);
    case HandOver => GenuineConcat(rows, s.out, [s.loop.m]);
    case Ack =>
    case AckFails => GenuineConcat(rows, s.ready, [s.loop.m]);
    case Stop =>
    case Crash =>
      GenuineConcat(rows, Held(s.loop) + s.prefetched, s.ready);
      GenuineConcat(rows, Held(s.loop), s.prefetched);
  }

  lemma {:induction false} RunInv(c: P.Config, pollers: nat, s: State, run: seq<Action>)
    requires Inv(c, pollers, s) && IsRun(c, s, run)
    ensures Inv(c, pollers, After(c, s, run))
    decreases |run|
  {
    if run != [] {
      if run[0].OutboxStep? { P.ReachableStep(c, pollers, s.outbox, run[0].a); }
      forall id ensures Conserved(Next(c, s, run[0]), id) { ConservedStep(c, s, run[0], id); }
      TotalsStep(c, s, run[0]);
      GenuineStep(c, pollers, s, run[0]);
      RunInv(c, pollers, Next(c, s, run[0]), run[1..]);
    }
  }

  lemma ReachableInv(c: P.Config, pollers: nat, s: State)
    requires Reachable(c, pollers, s) && pollers > 0
    ensures Inv(c, pollers, s)
  {
    var run :| IsRun(c, Init(pollers), run) && s == After(c, Init(pollers), run);
    assert P.IsRun(c, P.Init(pollers), []);
    RunInv(c, pollers, Init(pollers), run);
  }

  // ----- The duplicate account -----

  /** Copies sent plus redeliveries after a lost ack are handed over or still waiting, exactly. */
  lemma DeliveryAccount(c: P.Config, pollers: nat, s: State, id: EventId)
    requires Reachable(c, pollers, s) && pollers > 0
    ensures Num(s.out, id) + Num(Waiting(s), id) == P.Copies(s.outbox, id) + s.missedAcks[id] + Ind(InProgress(s, id))
    ensures Num(s.out, id) == s.acked[id] + s.missedAcks[id] + Ind(InProgress(s, id))
  {
    ReachableInv(c, pollers, s);
    assert Conserved(s, id);
    NumConcat(Held(s.loop) + s.prefetched, s.ready, id);
    NumConcat(Held(s.loop), s.prefetched, id);
    HeldNum(s, id);
    NumIsCount(s.outbox.log, id);
  }

  /** An event reaches the consumer at most once per poller, plus once per lost mark and once per lost ack. */
  lemma HandOversBounded(c: P.Config, pollers: nat, s: State, id: EventId)
    requires Reachable(c, pollers, s) && pollers > 0
    ensures Num(s.out, id) <= pollers + s.outbox.hist.missedPublished[id] + s.missedAcks[id]
  {
    ReachableInv(c, pollers, s);
    assert Conserved(s, id);
    NumIsCount(s.outbox.log, id);
    CopiesBoundedByPollers(c, pollers, s.outbox, id);
  }

  /** A published event is never lost: it waits in the queue or has been handed over. */
  lemma PublishedNotLost(c: P.Config, pollers: nat, s: State, id: EventId)
    requires Reachable(c, pollers, s) && pollers > 0 && P.IsPublished(s.outbox, id)
    ensures Num(s.out, id) + Num(Waiting(s), id) > 0
  {
    ReachableInv(c, pollers, s);
    DeliveryAccount(c, pollers, s, id);
    CopiesBoundedByPollers(c, pollers, s.outbox, id);
  }

  /** Acks follow hand-overs, and at most one handed-over message lacks its ack's outcome. */
  lemma AckedWasHandedOver(c: P.Config, pollers: nat, s: State, id: EventId)
    requires Reachable(c, pollers, s) && pollers > 0
    ensures s.acked[id] <= Num(s.out, id)
    ensures |s.acked| + |s.missedAcks| <= |s.out| <= |s.acked| + |s.missedAcks| + 1
  {
    ReachableInv(c, pollers, s);
    assert Conserved(s, id);
  }

  /** What the consumer gets is the stored event's own id, type and payload. */
  lemma HandedOverIsStored(c: P.Config, pollers: nat, s: State, i: nat)
    requires Reachable(c, pollers, s) && pollers > 0 && i < |s.out|
    ensures s.out[i].messageId in s.outbox.rows
    ensures
      var row := s.outbox.rows[s.out[i].messageId];
      && s.out[i] == ToMessage(row)
      && s.out[i].messageId == row.id && s.out[i].body == row.payload
      && s.out[i].routingKey == row.eventType && s.out[i].msgType == row.eventType
  {
    ReachableInv(c, pollers, s);
    P.ReachableInv(c, pollers, s.outbox);
  }

  // ----- From Store to the consumer -----

  /** The events that the outbox steps of a run stored. */
  ghost function Stored(run: seq<Action>): set<OutboxEvent> {
    if run == [] then {}
    else
      (if run[0].OutboxStep? && run[0].a.Store? then (set e | e in run[0].a.events) else {}) + Stored(run[1..])
  }

  /** Every row has the content of one of the events. */
  ghost predicate Origins(rows: Rows, events: set<OutboxEvent>) {
    forall id :: id in rows ==> exists e :: e in events && CarriesContent(rows[id], e)
  }

  lemma OriginStore(rows: Rows, events: set<OutboxEvent>, batch: seq<OutboxEvent>)
    requires Origins(rows, events) && Insertable(rows, batch)
    ensures Origins(rows + Inserted(batch), events + (set e | e in batch))
  {
    InsertedRows(batch);
    var rows', events' := rows + Inserted(batch), events + (set e | e in batch);
    forall id | id in rows' ensures exists e :: e in events' && CarriesContent(rows'[id], e) {
      if id in Inserted(batch) {
        var i :| 0 <= i < |batch| && batch[i].id == id;
        InsertedContent(batch, i);
        assert batch[i] in events' && CarriesContent(rows'[id], batch[i]);
      } else {
        var e :| e in events && CarriesContent(rows[id], e);
        assert e in events';
      }
    }
  }

  lemma OriginKeep(c: P.Config, outbox: P.State, a: P.Action, events: set<OutboxEvent>)
    requires Origins(outbox.rows, events) && P.Enabled(c, outbox, a) && !a.Store?
    ensures Origins(P.Next(c, outbox, a).rows, events)
  {
    P.LaterStep(c, outbox, a);
    var rows, rows' := outbox.rows, P.Next(c, outbox, a).rows;
    assert rows'.Keys == rows.Keys;
    forall id | id in rows' ensures exists e :: e in events && CarriesContent(rows'[id], e) {
      assert P.SameEvent(rows[id], rows'[id]);
      var e :| e in events && CarriesContent(rows[id], e);
      assert CarriesContent(rows'[id], e);
    }
  }

  lemma OriginGrows(rows: Rows, events: set<OutboxEvent>, more: set<OutboxEvent>)
    requires Origins(rows, events) && events <= more
    ensures Origins(rows, more)
  {
  }

  lemma OriginStep(c: P.Config, s: State, a: Action, events: set<OutboxEvent>)
    requires Origins(s.outbox.rows, events) && Enabled(c, s, a)
    ensures Origins(Next(c, s, a).outbox.rows, events + Stored([a]))
  {
    assert [a][1..] == [] && Stored([]) == {};
    if a.OutboxStep? {
      if a.a.Store? {
        OriginStore(s.outbox.rows, events, a.a.events);
        assert Stored([a]) == (set e | e in a.a.events);
      } else {
        OriginKeep(c, s.outbox, a.a, events);
        OriginGrows(Next(c, s, a).outbox.rows, events, events + Stored([a]));
      }
    } else {
      OriginGrows(s.outbox.rows, events, events + Stored([a]));
    }
  }

  lemma {:induction false} OriginRun(c: P.Config, s: State, run: seq<Action>, events: set<OutboxEvent>)
    requires Origins(s.outbox.rows, events) && IsRun(c, s, run)
    ensures Origins(After(c, s, run).outbox.rows, events + Stored(run))
    decreases |run|
  {
    if run == [] {
      assert events + Stored([]) == events;
    } else {
      OriginStep(c, s, run[0], events);
      OriginRun(c, Next(c, s, run[0]), run[1..], events + Stored([run[0]]));
      assert [run[0]][1..] == [];
      assert events + Stored([run[0]]) + Stored(run[1..]) == events + Stored(run);
    }
  }

  /** End to end: whatever the consumer gets has the id, type and payload of an event that a Store of the run stored. */
  lemma DeliveredWasStored(c: P.Config, pollers: nat, run: seq<Action>, i: nat)
    requires IsRun(c, Init(pollers), run) && pollers > 0 && i < |After(c, Init(pollers), run).out|
    ensures
      var m := After(c, Init(pollers), run).out[i];
      exists e :: e in Stored(run) && e.id == m.messageId && e.eventType == m.msgType && e.payload == m.body
  {
    var s := After(c, Init(pollers), run);
    assert Reachable(c, pollers, s);
    HandedOverIsStored(c, pollers, s, i);
    OriginRun(c, Init(pollers), run, {});
    assert {} + Stored(run) == Stored(run);
    var e :| e in Stored(run) && CarriesContent(s.outbox.rows[s.out[i].messageId], e);
    assert e.id == s.out[i].messageId && e.eventType == s.out[i].msgType && e.payload == s.out[i].body;
  }

  /** The subscriber may crash at any point: what it had received and not acknowledged waits again, in its old order,
      before what was still queued; nothing is lost and nothing more is handed over. */
  lemma CrashKeepsMessages(c: P.Config, s: State)
    ensures Enabled(c, s, Crash)
    ensures
      var t := Next(c, s, Crash);
      && t.ready == Waiting(s) && Waiting(t) == Waiting(s) && t.prefetched == [] && t.loop.Receiving?
      && t.out == s.out && t.acked == s.acked && t.outbox == s.outbox
  {
  }

  // ----- Order, and duplicates that do happen -----

  ghost predicate Undisturbed(run: seq<Action>) {
    forall i :: 0 <= i < |run| ==> !run[i].AckFails? && !run[i].Crash?
  }

  /** The messages in the order in which the consumer gets them: those handed over, then those on their way. */
  function InOrder(s: State): seq<Message> {
    s.out + (if s.loop.Received? then [s.loop.m] else []) + s.prefetched + s.ready
  }

  lemma OrderAppended(out: seq<Message>, held: seq<Message>, prefetched: seq<Message>, ready: seq<Message>, m: Message)
    ensures out + held + prefetched + (ready + [m]) == out + held + prefetched + ready + [m]
  {
  }

  lemma OrderPushed(out: seq<Message>, held: seq<Message>, prefetched: seq<Message>, ready: seq<Message>)
    requires ready != []
    ensures out + held + (prefetched + [ready[0]]) + ready[1..] == out + held + prefetched + ready
  {
    assert ready == [ready[0]] + ready[1..];
  }

  lemma OrderReceived(out: seq<Message>, prefetched: seq<Message>, ready: seq<Message>)
    requires prefetched != []
    ensures out + [prefetched[0]] + prefetched[1..] + ready == out + [] + prefetched + ready
  {
    assert prefetched == [prefetched[0]] + prefetched[1..];
  }

  lemma OrderHandedOver(out: seq<Message>, m: Message, prefetched: seq<Message>, ready: seq<Message>)
    ensures (out + [m]) + [] + prefetched + ready == out + [m] + prefetched + ready
  {
  }

  lemma OrderStep(c: P.Config, s: State, a: Action)
    requires Enabled(c, s, a) && !a.AckFails? && !a.Crash? && InOrder(s) == s.outbox.log
    ensures InOrder(Next(c, s, a)) == Next(c, s, a).outbox.log
  {
    var held := if s.loop.Received? then [s.loop.m] else [];
    match a
    case OutboxStep(b) =>
      if b.Accept? {
        OrderAppended(s.out, held, s.prefetched, s.ready, ToMessage(P.Current(s.outbox.pollers[b.p])));
      }
    case Push => OrderPushed(s.out, held, s.prefetched, s.ready);
    case Receive => OrderReceived(s.out, s.prefetched, s.ready);
    case HandOver => OrderHandedOver(s.out, s.loop.m, s.prefetched, s.ready);
    case _ =>
  }

  lemma {:induction false} OrderRun(c: P.Config, s: State, run: seq<Action>)
    requires IsRun(c, s, run) && Undisturbed(run) && InOrder(s) == s.outbox.log
    ensures InOrder(After(c, s, run)) == After(c, s, run).outbox.log
    decreases |run|
  {
    if run != [] {
      OrderStep(c, s, run[0]);
      assert forall i :: 0 <= i < |run[1..]| ==> run[1..][i] == run[i + 1];
      OrderRun(c, Next(c, s, run[0]), run[1..]);
    }
  }

  /** Without a crash of the subscriber or a failed ack, the consumer gets exactly what was published, in the order
      of publishing: what was handed over is a prefix of the broker's log. */
  lemma HandedOverInOrder(c: P.Config, pollers: nat, run: seq<Action>)
    requires IsRun(c, Init(pollers), run) && Undisturbed(run)
    ensures
      var s := After(c, Init(pollers), run);
      InOrder(s) == s.outbox.log && s.out <= s.outbox.log
  {
    OrderRun(c, Init(pollers), run);
  }

  /** One message was sent once; it waits in the queue after k hand-overs whose acks were lost. */
  ghost predicate Redelivering(s: State, k: nat) {
    && s.loop.Receiving? && s.prefetched == [] && |s.ready| == 1 && s.ready[0].messageId == 0
    && Num(s.out, 0) == k && s.missedAcks[0] == k
    && s.outbox.hist.missedPublished[0] == 0
  }

  lemma RunStep(c: P.Config, pollers: nat, s: State, a: Action)
    requires Reachable(c, pollers, s) && Enabled(c, s, a)
    ensures Reachable(c, pollers, Next(c, s, a))
  {
    var run :| IsRun(c, Init(pollers), run) && s == After(c, Init(pollers), run);
    assert [a][1..] == [];
    assert IsRun(c, s, [a]);
    RunConcat(c, Init(pollers), run, [a]);
  }

  /** The first poll has fetched the one stored row. */
  lemma FetchedOnce(c: P.Config) returns (s: State)
    ensures Reachable(c, 1, s) && s == Init(1).(outbox := s.outbox)
    ensures P.AtEvent(s.outbox, 0, P.Deciding) && |s.outbox.pollers| == 1 && s.outbox.log == []
    ensures P.Current(s.outbox.pollers[0]).id == 0 && P.Current(s.outbox.pollers[0]).retryCount == 0
    ensures s.outbox.hist.missedPublished == multiset{}
  {
    var e := OutboxEvent(0, "", "", "", "", 0, None, 0, None);
    var s0 := Init(1);
    assert IsRun(c, s0, []) && After(c, s0, []) == s0;
    RunStep(c, 1, s0, OutboxStep(P.Store([e])));
    var s1 := Next(c, s0, OutboxStep(P.Store([e])));
    InsertedRows([e]);
    assert [e][0] == e;
    OnlyFetch(c, s1.outbox, 0);
    RunStep(c, 1, s1, OutboxStep(P.Fetch(0, [s1.outbox.rows[0]])));
    s := Next(c, s1, OutboxStep(P.Fetch(0, [s1.outbox.rows[0]])));
  }

  lemma SentOnce(c: P.Config) returns (s: State)
    requires c.maxRetries > 0
    ensures Reachable(c, 1, s) && Redelivering(s, 0)
  {
    var t := FetchedOnce(c);
    var m := ToMessage(P.Current(t.outbox.pollers[0]));
    RunStep(c, 1, t, OutboxStep(P.Accept(0)));
    s := Next(c, t, OutboxStep(P.Accept(0)));
    assert s.ready == [] + [m];
  }

  lemma HandOverUnacked(c: P.Config, t: State, k: nat, crash: bool) returns (s: State)
    requires Reachable(c, 1, t) && Redelivering(t, k)
    ensures Reachable(c, 1, s) && Redelivering(s, k + 1)
  {
    RunStep(c, 1, t, Push);
    var u := Next(c, t, Push);
    RunStep(c, 1, u, Receive);
    var v := Next(c, u, Receive);
    RunStep(c, 1, v, HandOver);
    var w := Next(c, v, HandOver);
    NumAppend(t.out, t.ready[0], 0);
    var a := if crash then Crash else AckFails;
    RunStep(c, 1, w, a);
    s := Next(c, w, a);
  }

  /** The bound on hand-overs counts what can happen: an event sent once is handed over any number of times, once
      more for each crash before the ack or each ack that failed. */
  lemma {:induction false} LostAcksRedeliver(c: P.Config, k: nat, crash: bool) returns (s: State)
    requires c.maxRetries > 0
    ensures Reachable(c, 1, s) && Redelivering(s, k)
  {
    if k == 0 {
      s := SentOnce(c);
    } else {
      var t := LostAcksRedeliver(c, k - 1, crash);
      s := HandOverUnacked(c, t, k - 1, crash);
    }
  }

  // ----- The goroutine itself -----

  /** What the consumer receives. */
  datatype Event = Event(id: EventId, eventType: string, payload: string)

  datatype Effect = Sent(event: Event) | Acked(m: Message)

  /** The effects of n rounds over msgs: each message is handed over and then acknowledged. */
  ghost predicate Rounds(effects: seq<Effect>, msgs: seq<Message>, n: nat)
    requires n <= |msgs|
  {
    |effects| == 2 * n &&
    forall k :: 0 <= k < n ==>
      && effects[2 * k] == Sent(Event(msgs[k].messageId, msgs[k].msgType, msgs[k].body))
      && effects[2 * k + 1] == Acked(msgs[k])
  }

  /** The loop over a stream of deliveries; the context is found done before delivery number `until`. */
  method Subscribe(msgs: seq<Message>, until: nat) returns (effects: seq<Effect>)
    ensures Rounds(effects, msgs, if until < |msgs| then until else |msgs|)
  {
    effects := [];
    var i := 0;
    while true
      invariant i <= |msgs| && i <= until
      invariant Rounds(effects, msgs, i)
      decreases |msgs| - i
    {
      if i == until || i == |msgs| {
        return;
      }
      effects := effects + [Sent(Event(msgs[i].messageId, msgs[i].msgType, msgs[i].body))];
      effects := effects + [Acked(msgs[i])];
      i := i + 1;
    }
  }

  /** The protocol steps behind an effect: a message is received before it is handed over. */
  function Steps(e: Effect): seq<Action> {
    match e
    case Sent(_) => [Receive, HandOver]
    case Acked(_) => [Ack]
  }

  function AllSteps(effects: seq<Effect>): seq<Action> {
    if effects == [] then [] else var n := |effects| - 1; AllSteps(effects[..n]) + Steps(effects[n])
  }

  lemma RoundSteps(effects: seq<Effect>, msgs: seq<Message>, n: nat)
    requires 0 < n <= |msgs| && Rounds(effects, msgs, n)
    ensures Rounds(effects[..2 * n - 2], msgs, n - 1)
    ensures AllSteps(effects) == AllSteps(effects[..2 * n - 2]) + [Receive, HandOver, Ack]
  {
    assert effects[2 * (n - 1)].Sent? && effects[2 * (n - 1) + 1] == Acked(msgs[n - 1]);
    assert effects[..2 * n - 1][..2 * n - 2] == effects[..2 * n - 2];
    assert [Receive, HandOver] + [Ack] == [Receive, HandOver, Ack];
  }

  lemma {:induction false} RunConcat(c: P.Config, s: State, r1: seq<Action>, r2: seq<Action>)
    requires IsRun(c, s, r1) && IsRun(c, After(c, s, r1), r2)
    ensures IsRun(c, s, r1 + r2) && After(c, s, r1 + r2) == After(c, After(c, s, r1), r2)
    decreases |r1|
  {
    if r1 == [] {
      assert r1 + r2 == r2;
    } else {
      ConcatHead(r1, r2);
      RunConcat(c, Next(c, s, r1[0]), r1[1..], r2);
    }
  }

  lemma OneMessage(c: P.Config, s: State)
    requires s.loop.Receiving? && s.prefetched != []
    ensures
      var m := s.prefetched[0];
      var run := [Receive, HandOver, Ack];
      && IsRun(c, s, run)
      && After(c, s, run) == s.(prefetched := s.prefetched[1..], out := s.out + [m],
          acked := s.acked + multiset{m.messageId})
  {
    var s1 := Next(c, s, Receive);
    var s2 := Next(c, s1, HandOver);
    assert [Receive, HandOver, Ack][1..] == [HandOver, Ack] && [HandOver, Ack][1..] == [Ack] && [Ack][1..] == [];
    assert IsRun(c, s2, [Ack]) && IsRun(c, s1, [HandOver, Ack]);
    assert After(c, s2, [Ack]) == Next(c, s2, Ack);
  }

  /** The state after n undisturbed rounds. */
  function AfterRounds(s: State, n: nat): State
    requires n <= |s.prefetched|
  {
    s.(prefetched := s.prefetched[n..], out := s.out + s.prefetched[..n],
       acked := s.acked + multiset(MessageIds(s.prefetched[..n])))
  }

  lemma RoundsNext(s: State, n: nat)
    requires 0 < n <= |s.prefetched|
    ensures
      var t := AfterRounds(s, n - 1);
      var m := s.prefetched[n - 1];
      && t.prefetched != [] && t.prefetched[0] == m
      && AfterRounds(s, n) == t.(prefetched := t.prefetched[1..], out := t.out + [m],
          acked := t.acked + multiset{m.messageId})
  {
    var m := s.prefetched[n - 1];
    assert s.prefetched[..n] == s.prefetched[..n - 1] + [m];
    MessageIdsAppend(s.prefetched[..n - 1], m);
    assert s.prefetched[n - 1..][1..] == s.prefetched[n..];
    assert s.out + s.prefetched[..n - 1] + [m] == s.out + s.prefetched[..n];
  }

  /** The effects of the code's loop are a run: it hands over the first n deliveries, in order, and
      acknowledges them; what came after the end of the context stays unacknowledged. */
  lemma {:induction false} SubscribeIsRun(c: P.Config, s: State, effects: seq<Effect>, n: nat)
    requires s.loop.Receiving? && n <= |s.prefetched| && Rounds(effects, s.prefetched, n)
    ensures IsRun(c, s, AllSteps(effects))
    ensures After(c, s, AllSteps(effects)) == AfterRounds(s, n)
    decreases n
  {
    if n == 0 {
      assert s.prefetched[..0] == [] && MessageIds([]) == [] && s.out + [] == s.out;
      assert AfterRounds(s, 0) == s;
    } else {
      var init := effects[..2 * n - 2];
      RoundSteps(effects, s.prefetched, n);
      SubscribeIsRun(c, s, init, n - 1);
      RoundsNext(s, n);
      OneMessage(c, AfterRounds(s, n - 1));
      RunConcat(c, s, AllSteps(init), [Receive, HandOver, Ack]);
    }
  }

  /** Leaving the loop, by a done context or a closed stream, adds one Stop and nothing else. */
  lemma SubscribeStops(c: P.Config, s: State, effects: seq<Effect>, n: nat)
    requires s.loop.Receiving? && n <= |s.prefetched| && Rounds(effects, s.prefetched, n)
    ensures IsRun(c, s, AllSteps(effects) + [Stop])
    ensures After(c, s, AllSteps(effects) + [Stop]) == AfterRounds(s, n).(loop := Stopped)
  {
    SubscribeIsRun(c, s, effects, n);
    assert [Stop][1..] == [];
    assert IsRun(c, AfterRounds(s, n), [Stop]);
    RunConcat(c, s, AllSteps(effects), [Stop]);
  }
}
