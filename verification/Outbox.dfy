/**
 The outbox_events table and the four statements the service runs over it.
 Each statement is one atomic database step; nothing locks a row between two of them.
 */
module Outbox {
  import opened Wrappers

  type EventId = nat
  type Time = int

  datatype OutboxEvent = OutboxEvent(
    id: EventId,
    aggregateType: string,
    aggregateId: string,
    eventType: string,
    payload: string,
    createdAt: Time,
    publishedAt: Option<Time>,
    retryCount: nat,
    lastError: Option<string>)

  type Rows = map<EventId, OutboxEvent>

  /** What became of an UPDATE: the caller sees an error for both of the last two. */
  datatype Exec = Applied | Rejected | AppliedUnacknowledged

  ghost predicate WellKeyed(rows: Rows) {
    forall id :: id in rows ==> rows[id].id == id
  }

  function Unpublished(rows: Rows): set<EventId> {
    set id | id in rows && rows[id].publishedAt.None?
  }

  // ----- INSERT -----

  /** Columns that INSERT does not name take their defaults. */
  function NewRow(e: OutboxEvent): OutboxEvent {
    e.(publishedAt := None, retryCount := 0, lastError := None)
  }

  ghost predicate Insertable(rows: Rows, events: seq<OutboxEvent>) {
    && (forall i :: 0 <= i < |events| ==> events[i].id !in rows)
    && (forall i, j :: 0 <= i < j < |events| ==> events[i].id != events[j].id)
  }

  lemma InsertableNext(rows: Rows, events: seq<OutboxEvent>, i: nat)
    requires i < |events| && Insertable(rows, events[..i])
    ensures Insertable(rows, events[..i + 1]) <==>
            events[i].id !in rows && forall j :: 0 <= j < |events[..i]| ==> events[..i][j].id != events[i].id
    ensures Insertable(rows, events) ==> Insertable(rows, events[..i + 1])
  {
    assert forall j :: 0 <= j < i ==> events[..i][j] == events[j];
    if Insertable(rows, events[..i + 1]) {
      assert events[..i + 1][i] == events[i];
      assert forall j :: 0 <= j < i ==> events[..i + 1][j] == events[..i][j];
    }
  }

  function Inserted(events: seq<OutboxEvent>): Rows {
    if events == [] then map[]
    else var n := |events| - 1; Inserted(events[..n])[events[n].id := NewRow(events[n])]
  }

  ghost predicate HasId(events: seq<OutboxEvent>, id: EventId) {
    exists i :: 0 <= i < |events| && events[i].id == id
  }

  lemma HasIdAppend(events: seq<OutboxEvent>, e: OutboxEvent, id: EventId)
    ensures HasId(events + [e], id) <==> HasId(events, id) || e.id == id
  {
    var next := events + [e];
    assert next[|events|] == e;
    if HasId(events, id) {
      var i :| 0 <= i < |events| && events[i].id == id;
      assert next[i].id == id;
    }
  }

  lemma {:induction false} InsertedKeys(events: seq<OutboxEvent>, id: EventId)
    ensures id in Inserted(events) <==> HasId(events, id)
  {
    if events != [] {
      var n := |events| - 1;
      InsertedKeys(events[..n], id);
      HasIdAppend(events[..n], events[n], id);
      assert events[..n] + [events[n]] == events;
    }
  }

  lemma {:induction false} InsertedRow(events: seq<OutboxEvent>, i: nat)
    requires i < |events| && forall j, k :: 0 <= j < k < |events| ==> events[j].id != events[k].id
    ensures events[i].id in Inserted(events) && Inserted(events)[events[i].id] == NewRow(events[i])
  {
    var n := |events| - 1;
    if i < n { InsertedRow(events[..n], i); }
  }

  lemma InsertedRows(events: seq<OutboxEvent>)
    requires forall i, j :: 0 <= i < j < |events| ==> events[i].id != events[j].id
    ensures forall id :: id in Inserted(events) <==> exists i :: 0 <= i < |events| && events[i].id == id
    ensures forall i :: 0 <= i < |events| ==>
      events[i].id in Inserted(events) && Inserted(events)[events[i].id] == NewRow(events[i])
  {
    forall id ensures id in Inserted(events) <==> HasId(events, id) { InsertedKeys(events, id); }
    forall i | 0 <= i < |events|
      ensures events[i].id in Inserted(events) && Inserted(events)[events[i].id] == NewRow(events[i])
    {
      InsertedRow(events, i);
    }
  }

  /** Every inserted row starts unpublished and untried, whatever the event carried. */
  lemma InsertedFresh(events: seq<OutboxEvent>)
    requires forall i, j :: 0 <= i < j < |events| ==> events[i].id != events[j].id
    ensures forall id :: id in Inserted(events) ==>
      && Inserted(events)[id].id == id
      && Inserted(events)[id].publishedAt.None?
      && Inserted(events)[id].retryCount == 0
  {
    InsertedRows(events);
    forall id | id in Inserted(events)
      ensures Inserted(events)[id].id == id && Inserted(events)[id].publishedAt.None? &&
          Inserted(events)[id].retryCount == 0
    {
      var i :| 0 <= i < |events| && events[i].id == id;
    }
  }

  /** The row carries what the event says: the columns that INSERT names. */
  predicate CarriesContent(row: OutboxEvent, e: OutboxEvent) {
    && row.id == e.id
    && row.aggregateType == e.aggregateType && row.aggregateId == e.aggregateId
    && row.eventType == e.eventType && row.payload == e.payload
    && row.createdAt == e.createdAt
  }

  /** The row of a stored event has the event's own content and nothing of its delivery state. */
  lemma InsertedContent(events: seq<OutboxEvent>, i: nat)
    requires i < |events| && forall j, k :: 0 <= j < k < |events| ==> events[j].id != events[k].id
    ensures events[i].id in Inserted(events)
    ensures
      var row := Inserted(events)[events[i].id];
      CarriesContent(row, events[i]) && row.publishedAt.None? && row.retryCount == 0 && row.lastError.None?
  {
    InsertedRow(events, i);
  }

  lemma StoredContent(events: seq<OutboxEvent>, rows: Rows)
    requires forall j, k :: 0 <= j < k < |events| ==> events[j].id != events[k].id
    ensures forall i :: 0 <= i < |events| ==>
      events[i].id in rows + Inserted(events)
      && CarriesContent((rows + Inserted(events))[events[i].id], events[i])
  {
    forall i | 0 <= i < |events|
      ensures events[i].id in Inserted(events) && CarriesContent(Inserted(events)[events[i].id], events[i])
    {
      InsertedContent(events, i);
    }
  }

  // ----- UPDATE -----

  function SetPublished(rows: Rows, id: EventId, now: Time): Rows {
    if id in rows then rows[id := rows[id].(publishedAt := Some(now))] else rows
  }

  function SetFailed(rows: Rows, id: EventId, err: string): Rows {
    if id in rows then rows[id := rows[id].(retryCount := rows[id].retryCount + 1, lastError := Some(err))] else rows
  }

  // ----- SELECT ... WHERE published_at IS NULL ORDER BY created_at ASC LIMIT n -----

  const DEFAULT_LIMIT := 100

  function SafeLimit(limit: int): (n: nat)
    ensures n > 0
    ensures limit > 0 ==> n == limit
    ensures limit <= 0 ==> n == 100
  {
    if limit > 0 then limit else DEFAULT_LIMIT
  }

  function Ids(batch: seq<OutboxEvent>): set<EventId> {
    set i | 0 <= i < |batch| :: batch[i].id
  }

  ghost predicate Distinct(batch: seq<OutboxEvent>) {
    forall i, j :: 0 <= i < j < |batch| ==> batch[i].id != batch[j].id
  }

  ghost predicate SortedByAge(batch: seq<OutboxEvent>) {
    forall i, j :: 0 <= i < j < |batch| ==> batch[i].createdAt <= batch[j].createdAt
  }

  /** batch lists copies of the `limit` oldest rows of s; ties in created_at may be broken either way. */
  ghost predicate IsOldest(rows: Rows, s: set<EventId>, limit: nat, batch: seq<OutboxEvent>)
    requires s <= rows.Keys
  {
    && (forall i :: 0 <= i < |batch| ==> batch[i].id in s && batch[i] == rows[batch[i].id])
    && Distinct(batch)
    && SortedByAge(batch)
    && |batch| == Min(limit, |s|)
    && NoneOlder(rows, s - Ids(batch), batch)
  }

  ghost predicate NoneOlder(rows: Rows, rest: set<EventId>, batch: seq<OutboxEvent>)
    requires rest <= rows.Keys
  {
    forall id, i :: id in rest && 0 <= i < |batch| ==> batch[i].createdAt <= rows[id].createdAt
  }

  ghost predicate IsFetch(rows: Rows, limit: nat, batch: seq<OutboxEvent>) {
    IsOldest(rows, Unpublished(rows), limit, batch)
  }

  lemma {:induction false} IdsCount(batch: seq<OutboxEvent>)
    requires Distinct(batch)
    ensures |Ids(batch)| == |batch|
  {
    if batch != [] {
      var n := |batch| - 1;
      IdsCount(batch[..n]);
      IdsAppend(batch[..n], batch[n]);
      assert batch[..n] + [batch[n]] == batch;
      assert batch[n].id !in Ids(batch[..n]);
    }
  }

  lemma {:induction false} OldestExists(rows: Rows, s: set<EventId>) returns (m: EventId)
    requires s != {} && s <= rows.Keys
    ensures m in s && forall id :: id in s ==> rows[m].createdAt <= rows[id].createdAt
    decreases |s|
  {
    m :| m in s;
    if s != {m} {
      assert exists x :: x in s && x != m;
      var k := OldestExists(rows, s - {m});
      if rows[k].createdAt < rows[m].createdAt { m := k; }
    }
  }

  /** Appending the oldest of the rows that are left keeps a batch an oldest-first prefix. */
  lemma ExtendOldest(rows: Rows, s: set<EventId>, batch: seq<OutboxEvent>, m: EventId)
    requires s <= rows.Keys && WellKeyed(rows)
    requires IsOldest(rows, s, |batch|, batch)
    requires m in s - Ids(batch)
    requires forall id :: id in s - Ids(batch) ==> rows[m].createdAt <= rows[id].createdAt
    ensures IsOldest(rows, s, |batch| + 1, batch + [rows[m]])
    ensures Ids(batch + [rows[m]]) == Ids(batch) + {m}
  {
    IdsAppend(batch, rows[m]);
    IdsCount(batch);
    assert |Ids(batch) + {m}| == |batch| + 1;
    CardSubset(Ids(batch) + {m}, s);
    OldestIsLast(rows, s, batch, m);
  }

  lemma OldestIsLast(rows: Rows, s: set<EventId>, batch: seq<OutboxEvent>, m: EventId)
    requires s <= rows.Keys && WellKeyed(rows) && IsOldest(rows, s, |batch|, batch) && m in s - Ids(batch)
    ensures Distinct(batch + [rows[m]]) && SortedByAge(batch + [rows[m]])
  {
    forall i | 0 <= i < |batch| ensures batch[i].id != m && batch[i].createdAt <= rows[m].createdAt {
      assert batch[i].id in Ids(batch);
    }
  }

  lemma IdsAppend(batch: seq<OutboxEvent>, e: OutboxEvent)
    ensures Ids(batch + [e]) == Ids(batch) + {e.id}
  {
    var next := batch + [e];
    assert next[|batch|].id == e.id;
    forall id | id in Ids(batch) ensures id in Ids(next) {
      var i :| 0 <= i < |batch| && batch[i].id == id;
      assert next[i].id == id;
    }
  }

  lemma {:induction false} CardSubset(a: set<EventId>, b: set<EventId>)
    requires a <= b
    ensures |a| <= |b|
    decreases |a|
  {
    if a != {} {
      var x :| x in a;
      CardSubset(a - {x}, b - {x});
    }
  }

  predicate IsOldestId(rows: Rows, left: set<EventId>, m: EventId)
    requires left <= rows.Keys && m in left
  {
    forall id :: id in left ==> rows[m].createdAt <= rows[id].createdAt
  }

  lemma ExtendLeft(rows: Rows, s: set<EventId>, left: set<EventId>, batch: seq<OutboxEvent>, m: EventId)
    requires s <= rows.Keys && WellKeyed(rows) && left == s - Ids(batch) && m in left
    requires IsOldest(rows, s, |batch|, batch) && IsOldestId(rows, left, m)
    ensures IsOldest(rows, s, |batch| + 1, batch + [rows[m]])
    ensures left - {m} == s - Ids(batch + [rows[m]])
  {
    ExtendOldest(rows, s, batch, m);
  }

  lemma FullOrAll(rows: Rows, s: set<EventId>, limit: nat, batch: seq<OutboxEvent>)
    requires s <= rows.Keys && IsOldest(rows, s, |batch|, batch)
    requires |batch| <= limit && (|batch| == limit || s - Ids(batch) == {})
    ensures IsOldest(rows, s, limit, batch)
  {
    IdsCount(batch);
    assert Ids(batch) <= s;
    CardSubset(Ids(batch), s);
    if |batch| < limit {
      CardSubset(s, Ids(batch));
    }
  }

  // ----- What was stored is what is fetched -----

  ghost predicate FetchedFor(batch: seq<OutboxEvent>, e: OutboxEvent) {
    exists i :: 0 <= i < |batch| && CarriesContent(batch[i], e)
  }

  lemma FetchedContent(events: seq<OutboxEvent>, batch: seq<OutboxEvent>, i: nat, j: nat)
    requires i < |batch| && j < |events| && batch[i].id == events[j].id
    requires forall x, y :: 0 <= x < y < |events| ==> events[x].id != events[y].id
    requires batch[i].id in Inserted(events) && batch[i] == Inserted(events)[batch[i].id]
    ensures CarriesContent(batch[i], events[j])
  {
    InsertedContent(events, j);
  }

  /** A fetch after a Store into an empty table returns the stored events, each once and no other, oldest first. */
  lemma StoreThenFetch(events: seq<OutboxEvent>, limit: nat, batch: seq<OutboxEvent>)
    requires Insertable(map[], events) && limit >= |events| && IsFetch(Inserted(events), limit, batch)
    ensures |batch| == |events| && Distinct(batch) && SortedByAge(batch)
    ensures forall j :: 0 <= j < |events| ==> FetchedFor(batch, events[j])
    ensures forall i :: 0 <= i < |batch| ==> exists j :: 0 <= j < |events| && CarriesContent(batch[i], events[j])
  {
    WholeFetch(events, limit, batch);
    forall j | 0 <= j < |events| ensures FetchedFor(batch, events[j]) {
      assert events[j].id in Ids(batch);
      var i :| 0 <= i < |batch| && batch[i].id == events[j].id;
      FetchedContent(events, batch, i, j);
    }
    forall i | 0 <= i < |batch| ensures exists j :: 0 <= j < |events| && CarriesContent(batch[i], events[j]) {
      assert batch[i].id in Ids(events);
      var j :| 0 <= j < |events| && events[j].id == batch[i].id;
      FetchedContent(events, batch, i, j);
    }
  }

  lemma WholeFetch(events: seq<OutboxEvent>, limit: nat, batch: seq<OutboxEvent>)
    requires Insertable(map[], events) && limit >= |events| && IsFetch(Inserted(events), limit, batch)
    ensures |batch| == |events| && Unpublished(Inserted(events)) == Ids(events) == Ids(batch)
  {
    var rows := Inserted(events);
    InsertedRows(events);
    InsertedFresh(events);
    assert Unpublished(rows) == Ids(events);
    IdsCount(events);
    IdsCount(batch);
    assert Ids(batch) <= Unpublished(rows);
    assert |Unpublished(rows) - Ids(batch)| == |Unpublished(rows)| - |Ids(batch)|;
    assert Unpublished(rows) - Ids(batch) == {};
  }

  class OutboxRepo {
    var rows: Rows

    constructor ()
      ensures rows == map[]
    {
      rows := map[];
    }

    /** One INSERT for the whole slice: a taken id or a database error inserts nothing. */
    method Store(events: seq<OutboxEvent>, dbOk: bool) returns (ok: bool)
      requires WellKeyed(rows)
      modifies this
      ensures WellKeyed(rows)
      ensures ok <==> events == [] || (dbOk && Insertable(old(rows), events))
      ensures rows == if ok then old(rows) + Inserted(events) else old(rows)
      ensures ok ==> forall i :: 0 <= i < |events| ==>
        events[i].id in rows && CarriesContent(rows[events[i].id], events[i])
    {
      if |events| == 0 {
        return true;
      }
      var values: Rows := map[];
      var i := 0;
      while i < |events|
        invariant 0 <= i <= |events|
        invariant rows == old(rows)
        invariant Insertable(rows, events[..i])
        invariant values == Inserted(events[..i])
      {
        InsertedRows(events[..i]);
        InsertableNext(rows, events, i);
        if events[i].id in rows || events[i].id in values {
          return false;
        }
        assert events[..i + 1][..i] == events[..i];
        values := values[events[i].id := NewRow(events[i])];
        i := i + 1;
      }
      assert events[..i] == events;
      if !dbOk {
        return false;
      }
      InsertedFresh(events);
      StoredContent(events, rows);
      rows := rows + values;
      return true;
    }

    /** None is the error return. A negative limit panics in make, so callers must not pass one. */
    method FetchUnpublished(limit: int, dbOk: bool) returns (r: Option<seq<OutboxEvent>>)
      requires WellKeyed(rows)
      requires 0 <= limit
      ensures r.Some? <==> dbOk
      ensures r.Some? ==> IsFetch(rows, SafeLimit(limit), r.value)
    {
      if !dbOk {
        return None;
      }
      var safeLimit := SafeLimit(limit);
      var events: seq<OutboxEvent> := [];
      var left := Unpublished(rows);
      while |events| < safeLimit && left != {}
        invariant |events| <= safeLimit
        invariant left == Unpublished(rows) - Ids(events)
        invariant IsOldest(rows, Unpublished(rows), |events|, events)
        decreases left
      {
        ghost var first := OldestExists(rows, left);
        var m :| m in left && IsOldestId(rows, left, m);
        ExtendLeft(rows, Unpublished(rows), left, events, m);
        events := events + [rows[m]];
        left := left - {m};
      }
      FullOrAll(rows, Unpublished(rows), safeLimit, events);
      return Some(events);
    }

    method MarkPublished(id: EventId, now: Time, db: Exec) returns (ok: bool)
      modifies this
      ensures ok <==> db == Applied
      ensures rows == if db == Rejected then old(rows) else SetPublished(old(rows), id, now)
      ensures db != Rejected && id in old(rows) ==>
        rows[id].publishedAt == Some(now) && rows[id].retryCount == old(rows)[id].retryCount
        && rows[id].lastError == old(rows)[id].lastError
    {
      if db != Rejected && id in rows {
        rows := rows[id := rows[id].(publishedAt := Some(now))];
      }
      return db == Applied;
    }

    method MarkFailed(id: EventId, err: string, db: Exec) returns (ok: bool)
      modifies this
      ensures ok <==> db == Applied
      ensures rows == if db == Rejected then old(rows) else SetFailed(old(rows), id, err)
      ensures db != Rejected && id in old(rows) ==>
        rows[id].lastError == Some(err) && rows[id].retryCount == old(rows)[id].retryCount + 1
        && rows[id].publishedAt == old(rows)[id].publishedAt
    {
      if db != Rejected && id in rows {
        rows := rows[id := rows[id].(retryCount := rows[id].retryCount + 1, lastError := Some(err))];
      }
      return db == Applied;
    }
  }
}
