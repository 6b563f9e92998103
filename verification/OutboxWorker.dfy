/**
 One poll of the outbox worker: fetch a snapshot, then publish and mark its events one by one.
 Poll results are given by a function of the snapshot and of what the environment answers.
 */
module OutboxWorker {
  import opened Wrappers
  import opened Outbox

  /** What reaches the broker: the message id is the event id, the event's type is both routing key and type. */
  datatype Message = Message(messageId: EventId, routingKey: string, msgType: string, body: string)

  function ToMessage(e: OutboxEvent): Message {
    Message(e.id, e.eventType, e.eventType, e.payload)
  }

  /** The message says what the event says. */
  predicate Announces(m: Message, e: OutboxEvent) {
    && m.messageId == e.id && m.body == e.payload
    && m.routingKey == e.eventType && m.msgType == e.eventType
  }

  function MessageIds(log: seq<Message>): seq<EventId> {
    seq(|log|, i requires 0 <= i < |log| => log[i].messageId)
  }

  lemma MessageIdsAppend(log: seq<Message>, m: Message)
    ensures MessageIds(log + [m]) == MessageIds(log) + [m.messageId]
  {
  }

  /** The answers of broker, database and clock during one poll (an event occurs at most once in it). */
  datatype Env = Env(publishErr: EventId -> Option<string>, mark: EventId -> Exec, clock: EventId -> Time)

  datatype World = World(rows: Rows, log: seq<Message>)

  /** The event's snapshot says that retries are left. */
  predicate Live(e: OutboxEvent, maxRetries: int) {
    e.retryCount < maxRetries
  }

  function Handle(w: World, e: OutboxEvent, maxRetries: int, env: Env): World {
    if !Live(e, maxRetries) then
      w
    else if env.publishErr(e.id).Some? then
      w.(rows := if env.mark(e.id) == Rejected then w.rows else SetFailed(w.rows, e.id, env.publishErr(e.id).value))
    else
      World(if env.mark(e.id) == Rejected then w.rows else SetPublished(w.rows, e.id, env.clock(e.id)),
            w.log + [ToMessage(e)])
  }

  function HandleAll(w: World, batch: seq<OutboxEvent>, maxRetries: int, env: Env): World {
    if batch == [] then w
    else var n := |batch| - 1; Handle(HandleAll(w, batch[..n], maxRetries, env), batch[n], maxRetries, env)
  }

  /** The events of a batch for which Publish is called. */
  function LiveCount(batch: seq<OutboxEvent>, maxRetries: int): nat {
    if batch == [] then 0
    else var n := |batch| - 1; LiveCount(batch[..n], maxRetries) + (if Live(batch[n], maxRetries) then 1 else 0)
  }

  lemma HandleNext(w: World, batch: seq<OutboxEvent>, i: nat, maxRetries: int, env: Env)
    requires i < |batch|
    ensures HandleAll(w, batch[..i + 1], maxRetries, env) ==
        Handle(HandleAll(w, batch[..i], maxRetries, env), batch[i], maxRetries, env)
    ensures LiveCount(batch[..i + 1], maxRetries) == LiveCount(batch[..i],
        maxRetries) + (if Live(batch[i], maxRetries) then 1 else 0)
  {
    assert batch[..i + 1][..i] == batch[..i];
  }

  class Publisher {
    var log: seq<Message>
    var calls: nat

    constructor ()
      ensures log == [] && calls == 0
    {
      log := [];
      calls := 0;
    }

    method Publish(e: OutboxEvent, refused: Option<string>) returns (err: Option<string>)
      modifies this
      ensures err == refused && calls == old(calls) + 1
      ensures log == if refused.None? then old(log) + [ToMessage(e)] else old(log)
      ensures refused.None? ==>
        && |log| == |old(log)| + 1
        && log[|old(log)|].messageId == e.id && log[|old(log)|].body == e.payload
        && log[|old(log)|].routingKey == e.eventType && log[|old(log)|].msgType == e.eventType
    {
      if refused.None? {
        log := log + [ToMessage(e)];
      }
      calls := calls + 1;
      err := refused;
    }
  }

  class Worker {
    const outboxRepo: OutboxRepo
    const publisher: Publisher
    const batchSize: int
    const maxRetries: int

    constructor (outboxRepo: OutboxRepo, publisher: Publisher, batchSize: int, maxRetries: int)
      ensures this.outboxRepo == outboxRepo && this.publisher == publisher
      ensures this.batchSize == batchSize && this.maxRetries == maxRetries
    {
      this.outboxRepo := outboxRepo;
      this.publisher := publisher;
      this.batchSize := batchSize;
      this.maxRetries := maxRetries;
    }

    ghost function Current(): World
      reads outboxRepo, publisher
    {
      World(outboxRepo.rows, publisher.log)
    }

    method ProcessOutbox(fetchOk: bool, env: Env) returns (failed: bool, ghost batch: seq<OutboxEvent>)
      requires WellKeyed(outboxRepo.rows)
      requires 0 <= batchSize
      modifies outboxRepo, publisher
      ensures failed <==> !fetchOk
      ensures failed ==> Current() == old(Current())
      ensures !failed ==> IsFetch(old(outboxRepo.rows), SafeLimit(batchSize), batch)
      ensures !failed ==> Current() == HandleAll(old(Current()), batch, maxRetries, env)
      ensures publisher.calls == old(publisher.calls) + (if failed then 0 else LiveCount(batch, maxRetries))
    {
      var fetched := outboxRepo.FetchUnpublished(batchSize, fetchOk);
      if fetched.None? {
        batch := [];
        return true, batch;
      }
      var events := fetched.value;
      batch := events;
      for i := 0 to |events|
        invariant Current() == HandleAll(old(Current()), events[..i], maxRetries, env)
        invariant publisher.calls == old(publisher.calls) + LiveCount(events[..i], maxRetries)
      {
        var e := events[i];
        HandleNext(old(Current()), events, i, maxRetries, env);
        if e.retryCount >= maxRetries {
          continue;
        }
        var err := publisher.Publish(e, env.publishErr(e.id));
        if err.Some? {
          var _ := outboxRepo.MarkFailed(e.id, err.value, env.mark(e.id));
          continue;
        }
        var _ := outboxRepo.MarkPublished(e.id, env.clock(e.id), env.mark(e.id));
      }
      assert events[..|events|] == events;
      failed := false;
    }
  }
}
