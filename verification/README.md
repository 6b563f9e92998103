# Verified models of the service's event, logging and RPC machinery

The service template has four places where the behaviour of the code is not visible from any one
function: the transactional outbox and its subscriber, the lock-free log sampler, the RabbitMQ RPC
pattern, and the log redactor. This project models each of them in Dafny and proves what holds over
all runs, all interleavings and all inputs. `dafny verify dfyconfig.toml` checks everything.

## What is modelled

**Outbox** (`Outbox`, `OutboxWorker`). The `outbox_events` table is a map from id to row, held by a
class whose methods are the repository's four statements. `ORDER BY created_at ASC LIMIT n` is any list
of the n oldest unpublished rows, ties broken either way. One poll is a method over that table and over
the publisher's log; a function of the snapshot and of the environment's answers specifies it.

**Outbox over runs** (`OutboxProtocol`, `OutboxCopies`, `OutboxSingle`, `OutboxProgress`, `OutboxSettling`). No
transaction spans fetch, publish and mark, so `OutboxProtocol` is a step relation over any number of
pollers, in which every statement may fail, may be applied without the poller learning it, and every
poller may crash anywhere; `OutboxCopies` bounds the copies it can send. The other three follow the
deployed worker over whole sequences of polls.

**Delivery** (`Delivery`) composes the pollers with a durable queue and the subscriber goroutine: deliver,
hand over, acknowledge, with crashes and failed acknowledgements. **Lifecycle** interleaves the worker
goroutine with the main goroutine's Stop and Close.

**Sampler** (`Sampler`, `SamplerRace`, `SamplerCalls`, `SamplerWindows`). First as a class called by one goroutine at a
time, with the loggers that share it; then with each atomic operation a step of its own, any number of
threads and a clock that may go backwards; then that every such call is counted and answered once, and the
exact count for any stretch of a run.

**RPC** (`Rpc`, `RpcProtocol`, `RpcCompletion`). Server dispatch, client decoding and the client's call map; then
callers, clients sharing reply exchanges, their delivery goroutines and the server as one transition
system in which the reply's lookup, the two writes and the close are separate steps. `RpcCompletion` says
which calls can still return.

**Redaction** (`Regex`, `CardPass`, `EmailPass`, `EmailFinal`, `Redact`, `RedactFinal`). A backtracking, leftmost-first reference
matcher for the two patterns, executable scanners with loops proved equal to it, and statements about
what the output still contains and what it cannot contain.

## Where the code does less than it seems to

- `NewSampler` is documented as allowing up to `rate` entries per interval. Within a single
  interval-long span the code allows up to twice that, even sequentially, and the bound is reached;
  `Sampler.SpanAcceptsTwiceRate` says exactly when `rate` is kept. Under contention, a single window can also
  exceed `rate` (`SamplerRace.WindowCanAcceptMoreThanRate`). `SamplerWindows.KeepsRateExactly` says exactly when
  it does not; a window whose winner resets the counter before any call is counted is always within `rate`
  (`SamplerWindows.UnovertakenWinner`).
- A call is not certain to return even if nothing is slow: `RemoteCall` publishes before it registers the
  call, so a reply looked up in between is dropped (`RpcCompletion.EarlyReplyIsLost`), and a reconnecting server
  loses what it has not begun to serve (`RpcCompletion.ReconnectLosesCalls`). `RpcCompletion.ReturnsExactly` says
  for every reachable state which calls can still return; the others can only be aborted. The only steps that
  lose an open call are four (`RpcCompletion.LosesExactly`).
- Exhausted rows are fetched again by every poll. A batch-full of them in front starves newer rows
  (`OutboxProgress.StarvedExactly`); `OutboxSettling.SettlesExactly` says for which tables a row can be
  left behind for good.
- With W workers, a row can be tried W - 1 times more often than the configured maximum
  (`OutboxProtocol.RetryCountBounded`, `OutboxSingle.RetryBoundReached`) and sent W times without any failure
  (`OutboxCopies.CopiesBoundedByPollers`, `OutboxCopies.CopiesBoundReached`), but attempts and copies together stay
  within the same maximum plus W - 1 (`OutboxCopies.RowCalls`).
- The comment on `RedactFields` says that e-mail addresses are masked. What it returns can still contain text that
  matches the pattern. `RedactFinal.RedactedCleanExactly` says, for the output of both passes, exactly for which
  texts it does not: every match has a local part of at most two characters or a host that a card run breaks before
  its first usable dot, and an at sign with an unbroken host right after a match starts another match. On exactly
  those texts redacting twice is redacting once (`RedactFinal.SecondRedactionExactly`). The same question about the
  e-mail pass alone is `EmailFinal.OutputCleanExactly`; the card pass breaks up some addresses and adds none
  (`RedactFinal.CleanStaysClean`).

## Assumptions

The broker keeps what `Publish` accepts and delivers it at least once; a publish that reports an error
did not reach it. Event ids and correlation ids are fresh. `Store` is atomic, as a single INSERT is.
JSON is a pair of partial functions that round-trip, and an absent body does not parse. Each RPC server
exchange has one bound queue, as README.md:264-267 prescribes, so a request is answered at most once.
Answers of the broker, the database, the clock and `strings.ToLower` are parameters.

## Model

| member | source | states |
|---|---|---|
| Outbox.InsertedRows | internal/repo/persistent/outbox_postgres.go:27-33 | the rows an INSERT adds are exactly one per event of the slice, under its own id |
| Outbox.InsertedFresh | migrations/20251208132516_outbox_events.up.sql:8-10 | every inserted row starts unpublished and with no retries, whatever the event carried |
| Outbox.InsertedContent | internal/repo/persistent/outbox_postgres.go:27-33 | the row of a stored event has the event's id, aggregate type and id, event type, payload and creation time, and no delivery state |
| Outbox.StoreThenFetch | internal/repo/persistent/outbox_postgres.go:22-91 | after a Store into an empty table, a fetch with room for all returns the stored contents, each once and no other, oldest first |
| Outbox.SafeLimit | internal/repo/persistent/outbox_postgres.go:49-54 | a positive limit is used as it is, any other becomes 100; a fetch always asks for at least one row |
| Outbox.OutboxRepo.Store | internal/repo/persistent/outbox_postgres.go:22-46 | all or nothing: it succeeds exactly when the slice is empty or the database is up and no id is taken or repeated, and then every event's row carries the event's content |
| Outbox.OutboxRepo.FetchUnpublished | internal/repo/persistent/outbox_postgres.go:48-91 | copies of the oldest unpublished rows, sorted, distinct, as many as the limit allows, none older left out |
| Outbox.OutboxRepo.MarkPublished | internal/repo/persistent/outbox_postgres.go:93-109 | sets published_at of that row alone to the time given and nothing else of it; an error may hide an applied update |
| Outbox.OutboxRepo.MarkFailed | internal/repo/persistent/outbox_postgres.go:111-130 | adds one to that row's retry_count and keeps the error given; nothing else changes |
| OutboxWorker.Publisher.Publish | pkg/eventbus/rabbitmq.go:59-75 | exactly when no error is returned the broker's log grows by one message, with the event's id as message id, its type as routing key and as type, and its payload as body; every call is counted |
| OutboxWorker.Worker.ProcessOutbox | pkg/eventbus/worker.go:100-132 | one poll turns table and broker log into the event-by-event result for one legal fetch and calls Publish once per live event; a failed fetch changes nothing |
| OutboxProtocol.RetryCountBounded | pkg/eventbus/worker.go:107-118 | in every reachable state of W pollers retry_count is at most maxRetries + W - 1 |
| OutboxProtocol.PublishAccount | pkg/eventbus/worker.go:113-128 | for any number of pollers, accepted publishes = applied marks + missed marks + polls standing between the two, and likewise for refused publishes |
| OutboxProtocol.PublishedWasSent | pkg/eventbus/worker.go:113-125 | a row with published_at set was accepted by the broker before |
| OutboxProtocol.SkippedNotSent | pkg/eventbus/worker.go:107-113 | no snapshot leads both to skipping an event as exhausted and to publishing it |
| OutboxProtocol.SkippedExactly | pkg/eventbus/worker.go:106-111 | of the events a poller is done with it skipped just those whose snapshot was exhausted |
| OutboxProtocol.PollerCrash | pkg/eventbus/worker.go:113-128 | a poller may crash at any point, leaving table and broker as they are and missing just the mark it owed |
| OutboxProtocol.RunLater | internal/repo/persistent/outbox_postgres.go:93-118 | over any run no row disappears or changes content, published_at never returns to NULL, retry_count and the broker log only grow |
| OutboxProtocol.RunInv | pkg/eventbus/worker.go:100-132 | every run keeps the invariant behind these results, which counts pollers that still hold a stale snapshot of a row |
| OutboxProgress.HandledExactly | pkg/eventbus/worker.go:106-129 | what one poll does to each row of its batch: published at the time of the mark, or one more retry and the broker's error, or nothing, and never its content |
| OutboxProgress.PollSends | pkg/eventbus/worker.go:113-121 | one poll adds to the broker, in order, the events it tried and the broker accepted |
| OutboxSingle.PollIsRun | pkg/eventbus/worker.go:100-132 | whatever the environment answers, the poll of the code is a run of the protocol with the same table and log |
| OutboxSingle.RetryBoundReached | pkg/eventbus/worker.go:107-118 | for every W and positive maximum some run brings a row to exactly maxRetries + W - 1 |
| OutboxSingle.SinglePollerAccount | pkg/eventbus/worker.go:113-128 | with one poller: copies in the broker = [row is published] + missed marks + [in flight]; refusals = retry_count + missed marks + [in flight]; retry_count never passes the maximum |
| OutboxSingle.CopiesBounded | pkg/eventbus/worker.go:123-128 | duplicates in the broker are paid for by marks that were missed |
| OutboxCopies.MarksBounded | pkg/eventbus/worker.go:113-125 | of W pollers each marks a row published at most once: applied marks and publishes in flight together are at most W |
| OutboxCopies.CopiesBoundedByPollers | pkg/eventbus/worker.go:113-128 | the broker holds at most W copies of an event, plus one per missed mark, and at least one of a published event |
| OutboxCopies.CopiesBoundReached | pkg/eventbus/worker.go:113-128 | for every W some run without a missed mark puts exactly W copies into the broker |
| OutboxCopies.MissedMarksDuplicate | pkg/eventbus/worker.go:123-128 | for every k one poller can send an unpublished row k times, by k crashes before the mark or by k marks that fail |
| OutboxCopies.RowCalls | pkg/eventbus/worker.go:106-121 | with W pollers a row causes at most maxRetries + W - 1 publish calls, accepted and refused together, plus one per missed mark of its own; every missed mark is a call |
| OutboxCopies.PublishCallsBounded | pkg/eventbus/worker.go:106-121 | all publish calls of a run together: at most rows * (maxRetries + W - 1) plus missed marks |
| OutboxProgress.BatchMeasure | pkg/eventbus/worker.go:106-129 | the attempts the table may still cause drop by at least one with every attempt of a batch |
| OutboxProgress.PollsMeasure | pkg/eventbus/worker.go:100-132 | the same over any sequence of polls, however the broker answers |
| OutboxProgress.AttemptsBounded | pkg/eventbus/worker.go:106-121 | N rows cause at most N * maxRetries publish calls, counted as ProcessOutbox counts them |
| OutboxProgress.DrainIsSortedFetch | pkg/eventbus/worker.go:100-132 | k fault-free polls send, in order and once each, exactly what one fetch of the k * limit oldest rows lists |
| OutboxProgress.Drained | pkg/eventbus/worker.go:100-132 | ceil(n / limit) fault-free polls leave nothing unpublished and have sent every row once, oldest first, each message with its row's id, type and payload |
| OutboxProgress.PollAttempts | internal/repo/persistent/outbox_postgres.go:56-62 | with fewer exhausted rows than a batch holds, a poll attempts something while a live row is left |
| OutboxProgress.PollsSettle | pkg/eventbus/worker.go:106-121 | if exhausted rows do not fill a batch at the end, N * maxRetries polls have left every row published or exhausted |
| OutboxProgress.StarvedExactly | internal/repo/persistent/outbox_postgres.go:56-62 | no legal fetch contains a live row if and only if each live row has a batch-full of exhausted rows strictly before it |
| OutboxProgress.StarvedForever | pkg/eventbus/worker.go:107-111 | a starved table is never changed by any number of polls with any answers |
| OutboxProgress.StarvationHappens | pkg/eventbus/worker.go:107-111 | a concrete starved table with a live row in it |
| OutboxSettling.Attempted | pkg/eventbus/worker.go:113-125 | an event of the batch ends published or one retry further, up to the maximum |
| OutboxSettling.FetchedIfInReach | internal/repo/persistent/outbox_postgres.go:56-62 | a row that fewer than a batch-full of unpublished rows may precede is in every legal fetch |
| OutboxSettling.FetchWithout | internal/repo/persistent/outbox_postgres.go:56-62 | any other row is left out by some legal fetch |
| OutboxSettling.SettlesExactly | pkg/eventbus/worker.go:100-132 | all rows are certain to end published or exhausted within maxRetries polls, whatever the broker answers, if and only if each live row is in reach; otherwise no number of polls is enough |
| OutboxSettling.SmallTablesSettle | pkg/eventbus/worker.go:100-132 | a table with at most a batch-full of unpublished rows always settles |
| Delivery.DeliveryAccount | pkg/eventbus/rabbitmq_subscriber.go:98-120 | per event: hand-overs + waiting copies = copies sent + lost acks + [in progress], and hand-overs = acks + lost acks + [in progress] |
| Delivery.HandOversBounded | pkg/eventbus/rabbitmq_subscriber.go:105-117 | with W pollers the consumer gets an event at most W + missed marks + lost acks times, so 1 + both with one poller |
| Delivery.PublishedNotLost | pkg/eventbus/rabbitmq_subscriber.go:105-117 | a published event was handed over or is still waiting |
| Delivery.AckedWasHandedOver | pkg/eventbus/rabbitmq_subscriber.go:110-117 | acks never outnumber hand-overs of an event, and at most one handed-over message lacks its ack's outcome |
| Delivery.HandedOverIsStored | pkg/eventbus/rabbitmq_subscriber.go:110-114 | what the consumer gets has the id, type and payload of a stored row, field by field |
| Delivery.DeliveredWasStored | pkg/eventbus/rabbitmq_subscriber.go:110-114 | end to end: it has the id, type and payload of an event that a Store of the run stored |
| Delivery.CrashKeepsMessages | pkg/eventbus/rabbitmq_subscriber.go:105-117 | the subscriber may crash at any point; everything unacknowledged waits again, in its old order |
| Delivery.HandedOverInOrder | pkg/eventbus/rabbitmq_subscriber.go:101-119 | without subscriber crashes and failed acks the consumer gets a prefix of the broker's log, and what is on its way is the rest of it |
| Delivery.LostAcksRedeliver | pkg/eventbus/rabbitmq_subscriber.go:110-117 | for every k an event sent once can be handed over k times, by k crashes before the ack or by k acks that fail |
| Delivery.Subscribe | pkg/eventbus/rabbitmq_subscriber.go:98-120 | the loop hands over each delivery and then acknowledges it, in order, for every delivery before the end of the stream or of the context and no other |
| Delivery.SubscribeIsRun | pkg/eventbus/rabbitmq_subscriber.go:101-119 | the loop's effects are a run of the delivery protocol that hands over and acknowledges exactly those deliveries, in order |
| Delivery.SubscribeStops | pkg/eventbus/rabbitmq_subscriber.go:99-108 | leaving the loop at that point adds one stop and leaves the remaining deliveries unacknowledged |
| Lifecycle.ChannelsClosedOnce | pkg/eventbus/worker.go:74-83 | stop and done are closed at most once; done exactly when the goroutine has left; both before Stop returns |
| Lifecycle.LeavesOnlyWhenTold | pkg/eventbus/worker.go:86-97 | the goroutine has left only if stop is closed or the context done |
| Lifecycle.PublishOnlyWhileOpen | internal/app/app.go:141-150 | whenever Publish is called the publisher is open and Stop has not returned |
| Lifecycle.BatchRunsToItsEnd | pkg/eventbus/worker.go:86-97 | outside a batch every fetched event has been handled, in particular once Stop has returned |
| Lifecycle.NoPublishAfterStop | internal/app/app.go:141-150 | after Stop has returned no continuation of the run publishes or has a publish refused |
| Lifecycle.SelectsAgainSoon | pkg/eventbus/worker.go:86-97 | however everything else interleaves, the goroutine is back at its select, or has left, after at most two steps per row of a batch and four more |
| Lifecycle.StopNeverDeadlocks | pkg/eventbus/worker.go:74-98 | from any state of any run in which Stop waits, it can return in that many steps without anything failing |
| Lifecycle.TickIsPoll | pkg/eventbus/worker.go:86-97 | from every reachable state at the select, for every legal fetch and all answers, the goroutine's own steps from a tick on do what the poll of the code does and end at the select |
| Lifecycle.FailedTick | pkg/eventbus/worker.go:92-95 | a tick whose fetch fails ends at the select with nothing changed |
| Lifecycle.TickForces | pkg/eventbus/worker.go:92-95 | after a tick the goroutine can do nothing but fetch |
| Lifecycle.PublishHappens | pkg/eventbus/worker.go:74-98 | reachable states in which Publish is called while the service runs, and while Stop waits for the batch |
| Lifecycle.ContextEnds | pkg/eventbus/worker.go:88-89 | a done context ends the goroutine at its select and closes done |
| Lifecycle.ShutdownCompletes | internal/app/app.go:141-150 | from every reachable state the whole shutdown can complete, up to the closed publisher |
| Sampler.Sampler.constructor | pkg/logger/sampler.go:20-37 | a fresh sampler has an empty window that starts now |
| Sampler.Sampler.ShouldLog | pkg/logger/sampler.go:40-53 | answer and new window of one uninterrupted call |
| Sampler.SampledLogger.Log | pkg/logger/sampler.go:71-93 | Debug and Info are logged exactly when the sampler accepts; Warn, Error and Fatal always are and leave the sampler alone |
| Sampler.SampledLogger.WithFields | pkg/logger/sampler.go:102-107 | the derived logger has the added fields and the same sampler |
| Sampler.SampledLogger.WithField | pkg/logger/sampler.go:95-100 | the same for a single field |
| Sampler.SampledLogger.WithRequestID | pkg/logger/sampler.go:109-114 | the same for the request id |
| Sampler.SampledLogger.WithContext | pkg/logger/sampler.go:116-122 | a context without a request id gives back the very same logger |
| Sampler.WithinWindow | pkg/logger/sampler.go:44-52 | until a window expires exactly the calls that fit into what is left of the rate are accepted |
| Sampler.SpanExact | pkg/logger/sampler.go:40-53 | exact number of accepted calls among calls within one interval, from any window |
| Sampler.SpanAcceptsTwiceRate | pkg/logger/sampler.go:40-53 | inside any run a span of one interval accepts at most 2 * rate calls, and at most rate under an exact condition |
| Sampler.SpanBoundReached | pkg/logger/sampler.go:40-53 | for every rate and interval some calls reach 2 * rate |
| Sampler.GapRestoresRate | pkg/logger/sampler.go:44-48 | after a gap longer than the interval the next rate calls are all accepted |
| Sampler.SpansKept | pkg/logger/sampler.go:40-53 | the answers of one sampler keep the span guarantee everywhere |
| Sampler.GapsKept | pkg/logger/sampler.go:44-48 | and the gap guarantee after every gap |
| Sampler.UseFamily | pkg/logger/sampler.go:71-122 | whatever a program does with a logger and all those derived from it, entries appear as one sampler decides: at most 2 * rate per interval-long span and rate after a gap, jointly |
| SamplerRace.UninterruptedCall | pkg/logger/sampler.go:40-53 | without interleaving the atomic steps do what the sequential sampler does |
| SamplerCalls.EveryCallCounts | pkg/logger/sampler.go:40-53 | in every reachable state, calls begun are calls counted plus calls still running |
| SamplerCalls.EveryThreadCounts | pkg/logger/sampler.go:40-53 | over every run each thread has counted every call it began, but for the one it may be in |
| SamplerCalls.CountAnswers | pkg/logger/sampler.go:50-52 | a count, and no other step, appends one answer to the trace, by the counter's new value |
| SamplerCalls.CallFinishes | pkg/logger/sampler.go:41-52 | from any state a thread past its clock read comes by its own remaining steps alone to exactly one answer, with the swap won, lost or not tried |
| SamplerCalls.NoChoice | pkg/logger/sampler.go:41-52 | a thread in a call has just one next step, the first of those |
| SamplerRace.SegmentsExact | pkg/logger/sampler.go:46-52 | under any interleaving, between two counter resets exactly min(rate, calls) are accepted |
| SamplerRace.WinsAreResets | pkg/logger/sampler.go:45-46 | successful swaps = resets done + threads paused between the two |
| SamplerRace.StretchBound | pkg/logger/sampler.go:40-53 | any stretch of any run accepts at most rate * (resets in it + 1) calls, hence at most rate * (windows won in it + threads + 1) |
| SamplerRace.AcceptedBounded | pkg/logger/sampler.go:40-53 | for any threads, interleaving and clock: accepted <= rate * (1 + (maxClock - t0) / (interval + 1)) |
| SamplerRace.WindowCanAcceptMoreThanRate | pkg/logger/sampler.go:44-50 | a concrete run of two threads in which one window accepts two calls at rate one |
| SamplerWindows.StretchExact | pkg/logger/sampler.go:40-53 | exact number of calls any stretch of any concurrent run accepts, with any number of resets in it |
| SamplerWindows.KeepsRateExactly | pkg/logger/sampler.go:18-53 | a stretch, and so a window, accepts at most rate calls if and only if only one of its segments asks for any or all together ask for at most rate |
| SamplerWindows.NoResetExact | pkg/logger/sampler.go:50-52 | without a reset, a stretch accepts what fits into the counter |
| SamplerWindows.OneResetExact | pkg/logger/sampler.go:44-52 | with one reset, the exact count and the exact condition in terms of the calls before and after it |
| SamplerWindows.UnovertakenWinner | pkg/logger/sampler.go:44-48 | a window with no earlier winner pending, whose winner resets before any call is counted, accepts exactly min(rate, calls) |
| Rpc.ReplyMeansDirect | pkg/rabbitmq/rmq_rpc/client/client.go:141-155 | decoding the server's reply gives what a direct handler call gives, and the fall-through return is never taken |
| Rpc.ReplyWords | pkg/rabbitmq/rmq_rpc/server/server.go:153-178 | the server's three status words, each under the request's correlation id; error replies have no body, a success has the marshalled response or none |
| Rpc.StatusWords | pkg/rabbitmq/rmq_rpc/client/client.go:141-155 | what the client returns for each status word, and that any other falls through |
| Rpc.Client.AddCall | pkg/rabbitmq/rmq_rpc/client/client.go:254-259 | the map gains that call |
| Rpc.Client.DeleteCall | pkg/rabbitmq/rmq_rpc/client/client.go:261-266 | the map loses that call |
| Rpc.Client.GetCall | pkg/rabbitmq/rmq_rpc/client/client.go:245-252 | the registered call or none |
| Rpc.Client.ServeCall | pkg/rabbitmq/rmq_rpc/client/client.go:232-243 | a registered call gets status and body and is closed; an unknown reply changes no call; either way the delivery is acknowledged |
| Rpc.Client.Finish | pkg/rabbitmq/rmq_rpc/client/client.go:141-155 | the outcome a closed call's status and body decode to |
| Rpc.Server.Publish | pkg/rabbitmq/rmq_rpc/server/server.go:187-203 | the reply goes to the request's exchange under the request's correlation id, or is lost with the channel |
| Rpc.Server.ServeCall | pkg/rabbitmq/rmq_rpc/server/server.go:153-178 | on every path one reply, to the requester's own exchange, and one acknowledgement |
| RpcProtocol.RunInv | pkg/rabbitmq/rmq_rpc/client/client.go:118-156 | every run keeps the invariant tying calls, maps, replies under way and delivery goroutines together |
| RpcProtocol.CompletedCallIsDirect | pkg/rabbitmq/rmq_rpc/client/client.go:118-156 | in every interleaving a call that is not aborted returns exactly what a direct dispatch of its own request gives |
| RpcCompletion.ReturnsItsOwn | pkg/rabbitmq/rmq_rpc/client/client.go:285-297 | from its publication on, in every interleaving, a call not aborted returns what its handler gives for the handler name, body and exchange it was published with |
| RpcCompletion.AbortKeepsReason | pkg/rabbitmq/rmq_rpc/client/client.go:172-189 | a call that gives up returns the reason for which it gave up, whatever comes later |
| RpcCompletion.AbortReturns | pkg/rabbitmq/rmq_rpc/client/client.go:134-139 | a waiting call that gives up leaves the map and returns that reason |
| RpcProtocol.DoneClosedOnce | pkg/rabbitmq/rmq_rpc/client/client.go:240-242 | done is closed at most once per call, and never while its reply is still under way |
| RpcProtocol.MapHoldsPendingCalls | pkg/rabbitmq/rmq_rpc/client/client.go:131-134 | a client's map holds exactly its own calls between addCall and deleteCall |
| RpcProtocol.WrittenOnlyBeforeClose | pkg/rabbitmq/rmq_rpc/client/client.go:240-242 | after done is closed no run writes status or body again |
| RpcProtocol.ReadOnlyAfterClose | pkg/rabbitmq/rmq_rpc/client/client.go:136-143 | status and body are read only after the close, and are then those of the reply to the call's own request |
| RpcCompletion.DroppedReply | pkg/rabbitmq/rmq_rpc/client/client.go:235-238 | dropping a reply touches no call; a client drops the reply to its own call only before registration, putting it out of reach, or after an abort |
| RpcCompletion.LostReplyOnlyAborts | pkg/rabbitmq/rmq_rpc/client/client.go:172-189 | a call whose request and reply are both gone can only end aborted, however the run goes on |
| RpcCompletion.ReconnectLosesCalls | pkg/rabbitmq/rmq_rpc/connection.go:82-89 | a reconnecting server puts every call out of reach whose request it has not begun to serve |
| RpcCompletion.UnsentReplyLosesCall | pkg/rabbitmq/rmq_rpc/server/server.go:187-202 | a reply that the channel refuses puts its call out of reach |
| RpcCompletion.ClientReconnectLosesCall | pkg/rabbitmq/rmq_rpc/connection.go:82-89 | a reconnecting client puts every call of its own out of reach whose reply still waits in its queue |
| RpcCompletion.LosesExactly | pkg/rabbitmq/rmq_rpc/client/client.go:126-139 | in every reachable state, a step puts an open call out of reach if and only if it is one of four: its reply looked up before registration, its reply not sent, its queued request dropped by a reconnecting server, its queued reply dropped by its reconnecting client |
| RpcCompletion.ReturnsExactly | pkg/rabbitmq/rmq_rpc/client/client.go:118-156 | in every reachable state, a call not yet aborted or returned can still return the direct result if and only if its done is closed, its request is pending, or its reply is on its way to its client |
| RpcCompletion.PublishedCanReturn | pkg/rabbitmq/rmq_rpc/client/client.go:126-156 | from any reachable state, a call just published can return the direct result |
| RpcCompletion.EarlyReplyIsLost | pkg/rabbitmq/rmq_rpc/client/client.go:126-133 | a failure-free run in which publishing before registering loses the reply |
| RpcCompletion.CallsOverlap | pkg/rabbitmq/rmq_rpc/client/client.go:124-134 | any number of calls of one client can be published and unanswered at once |
| RpcCompletion.ServeIsRun | pkg/rabbitmq/rmq_rpc/client/client.go:232-243 | uninterrupted, the delivery goroutine's steps are the client's serveCall and touch no other call |
| Regex.FindAllExact | pkg/logger/redact.go:60-61 | successive matches are preferred matches, and no match starts outside them |
| Regex.SpliceCopies | pkg/logger/redact.go:60-61 | text before the next match is copied unchanged |
| Regex.ClassCodes | pkg/logger/redact.go:22-23 | the characters of every class of the two patterns, by code |
| CardPass.CardMatch | pkg/logger/redact.go:23 | the card pattern matches at a place exactly when a maximal word-run of 13 to 16 digits starts there, and takes all of it |
| CardPass.CardSpansAreCardRuns | pkg/logger/redact.go:23 | the spans replaced are exactly those runs |
| CardPass.RunEnd | pkg/logger/redact.go:23 | the end of a run of word characters and whether it is all digits |
| CardPass.ScanCards | pkg/logger/redact.go:61 | the loop computes the run-by-run rewriting |
| CardPass.HideRunsIsRegex | pkg/logger/redact.go:61 | run-by-run rewriting equals replacing the pattern's matches, from any place where a run does not straddle |
| CardPass.ScannerIsCardRegex | pkg/logger/redact.go:61 | so the scanner is the pass |
| CardPass.HideRunsClean | pkg/logger/redact.go:59-64 | no output of the pass contains a card run |
| CardPass.CardPassIsFinal | pkg/logger/redact.go:59-64 | no output of the replacement contains a card run, and a second pass changes nothing |
| EmailPass.EmailMatch | pkg/logger/redact.go:22 | backtracking over the address pattern equals a closed form without backtracking |
| EmailPass.EmailAt | pkg/logger/redact.go:22 | the scanner finds exactly the pattern's preferred match at a place |
| EmailPass.HostEnd | pkg/logger/redact.go:22 | the loop finds the host's last dot that two letters follow |
| EmailPass.ScanRun | pkg/logger/redact.go:22 | the end of the longest run of a character class |
| EmailPass.MatchIsEmail | pkg/logger/redact.go:22 | every match has one at sign, ends in the longest letter run after the last usable dot of its host |
| EmailPass.SplitOnce | pkg/logger/redact.go:67 | splitting at a separator that occurs once gives the two parts |
| EmailPass.MaskOfMatch | pkg/logger/redact.go:66-78 | on every match the unmasked early return is unreachable, and the mask keeps at most two characters of the local part |
| EmailPass.ReplaceEmails | pkg/logger/redact.go:60 | the scanner replaces exactly the pattern's successive matches and copies everything else |
| EmailPass.MaskHidesExactlyShortLocals | pkg/logger/redact.go:66-78 | the mask of a match, taken alone, is free of matches if and only if the local part has at most two characters |
| EmailFinal.RestExact | pkg/logger/redact.go:60 | from any place of the search on, the output shows an address, card runs counted as breaking hosts or not, if and only if some match leaves one behind |
| EmailFinal.OutputCleanExactly | pkg/logger/redact.go:59-60 | for every text, the output of the e-mail pass alone contains no match if and only if every match of the text has a local part of at most two characters and no at sign with a host follows it |
| EmailFinal.UnchangedExactly | pkg/logger/redact.go:60 | the e-mail pass leaves a text as it is if and only if it contains no match |
| EmailFinal.SecondPassExactly | pkg/logger/redact.go:59-60 | the e-mail pass is idempotent on a text if and only if the same condition holds of it |
| Redact.RedactString | pkg/logger/redact.go:59-64 | the two scanners in sequence are the two replacements in sequence |
| Redact.RedactFields | pkg/logger/redact.go:35-53 | the keys stay; a value under one of the nine names becomes [REDACTED]; any other text becomes what redactString makes of it; any other value stays |
| Redact.RedactedHasNoCards | pkg/logger/redact.go:59-64 | no redacted string contains a card run, even one that masking e-mail addresses exposed |
| Redact.RedactedFieldIsSafe | pkg/logger/redact.go:39-49 | no text of a redacted field contains a card run |
| Redact.SecretsDoNotShow | pkg/logger/redact.go:38-43 | maps that differ only under sensitive keys cannot be told apart after redaction |
| RedactFinal.CardsHideExactly | pkg/logger/redact.go:61 | for a text in which no address stands behind a card, the card pass leaves exactly those addresses whose host no card run breaks |
| RedactFinal.RedactedCleanExactly | pkg/logger/redact.go:59-64 | for every text, the redacted string contains no e-mail match if and only if each match of the text is short or its host is broken by a card run, and no unbroken host follows it without starting another match |
| RedactFinal.CleanStaysClean | pkg/logger/redact.go:60-61 | what the e-mail pass leaves clean the card pass keeps clean |
| RedactFinal.CleanUnchangedExactly | pkg/logger/redact.go:59-64 | redaction leaves a text without card runs as it is if and only if it contains no e-mail match |
| RedactFinal.SecondRedactionExactly | pkg/logger/redact.go:59-64 | redacting a redacted string changes nothing if and only if the same condition holds of the text |
| RedactFinal.FieldCleanExactly | pkg/logger/redact.go:45-46 | both results hold of every text field under a name that is not secret |
| RedactFinal.SingleMatchMasked | pkg/logger/redact.go:60 | in a text with one match the local part gives way to its mask and everything else stays |
| RedactFinal.SingleMatchRedacted | pkg/logger/redact.go:59-64 | if the text has no card run that is what redactString returns |
| RedactFinal.AddressRedacted | pkg/logger/redact.go:66-78 | an address alone is redacted to two stars, or the first and last character of its local part around three, and its host |

## Left out

- Outbox.OutboxRepo.FetchUnpublished: a negative limit panics in the source; it is a precondition here.
- OutboxWorker.Publisher.Publish: keeps neither the timestamp, content type nor delivery mode of a message.
- OutboxProgress.PollsSettle: its condition is on the table after the polls; the one on the table before them is OutboxSettling.SettlesExactly.
- Sampler.Sampler.constructor: a non-positive rate or interval panics in the source; it is a precondition here.
- Sampler.SampledLogger.Log: Fatal writes its entry; that the process then exits is not modelled.
- Sampler.GapRestoresRate: assumes a non-decreasing clock, as do the other sequential span results; the race model does not.
- Lifecycle.StopNeverDeadlocks: says that Stop can return, not that a fair scheduler makes it; a select may keep choosing the ticker. Lifecycle.SelectsAgainSoon bounds the steps between two selects.
- RpcCompletion.ReturnsExactly: says which calls can return, not that the network delivers in time; a timeout may abort any of them.
- The goroutine loops (`run`, the subscriber with crashes, `RemoteCall`, `handleMessages`) are state machines over steps, since Dafny methods do not interleave; the bodies they run are methods, connected by OutboxSingle.PollIsRun, Delivery.SubscribeIsRun, SamplerRace.UninterruptedCall and RpcCompletion.ServeIsRun.
- Overflow of the sampler's 64-bit counter and nanosecond clock, and of the 32-bit retry_count column.
- A publish that reports an error although the broker took the message.
- Order per aggregate after a failed publish: the loop goes on past the failed row, so order is claimed for fault-free drains only.
- Several RPC servers bound to one exchange, and redelivery of a request whose server died before acknowledging it: either would give several replies per id. Exclusive queues vanish with their connection, so reconnecting drops their content.
- RPC calls that fail before publishing (closed client, marshal error, publish error): they touch no shared state.
- Topic routing: the subscriber's queue is taken to be bound to every event type published; message timestamps are not kept.
- Go strings are sequences of characters here, without UTF-8 decoding; both patterns only concern ASCII.
- Dialling, reconnect loops, query building, configuration options and log calls: plumbing.
- The NATS RPC client and server: the same dispatch, with matching of requests and replies inside the library.
- HTTP and gRPC servers, notification use cases, error types, FCM and SMTP senders: they would only add easy members.
