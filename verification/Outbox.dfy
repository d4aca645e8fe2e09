/**
 The transactional outbox table (internal/storage/postgres/outbox.go) and the relay that
 drains it (internal/outbox/relay.go). Time is counted in seconds.
 */
module Outbox {

  datatype Status = Pending | Processing | Sent | Failed

  datatype Row = Row(status: Status, retryCount: nat, createdAt: int, updatedAt: int)

  /** A processing row may be taken again once its last update is older than this. */
  const STALE_AFTER: int := 60

  // ---------------------------------------------------------------- the statements

  function NewRow(createdAt: int): Row {
    Row(Pending, 0, createdAt, createdAt)
  }

  predicate Fetchable(row: Row, now: int) {
    row.status == Pending || (row.status == Processing && row.updatedAt < now - STALE_AFTER)
  }

  function Take(row: Row, now: int): Row {
    row.(status := Processing, updatedAt := now)
  }

  function TakeAll(rows: map<int, Row>, ids: seq<int>, now: int): map<int, Row> {
    map id | id in rows :: if id in ids then Take(rows[id], now) else rows[id]
  }

  function AsSent(row: Row, now: int): Row {
    row.(status := Sent, updatedAt := now)
  }

  function AsFailed(row: Row, maxRetries: int, now: int): Row {
    row.(status := if row.retryCount + 1 >= maxRetries then Failed else Pending,
         retryCount := row.retryCount + 1,
         updatedAt := now)
  }

  /** The mark that follows a write; neither statement looks at the current status. */
  function AsMarked(row: Row, written: bool, maxRetries: int, now: int): Row {
    if written then AsSent(row, now) else AsFailed(row, maxRetries, now)
  }

  /** What the SELECT of a fetch may return, given the rows other transactions have locked. */
  ghost predicate Pickable(rows: map<int, Row>, ids: seq<int>, now: int) {
    && (forall i, j :: 0 <= i < j < |ids| ==> ids[i] != ids[j])
    && (forall id :: id in ids ==> id in rows && Fetchable(rows[id], now))
  }

  // ---------------------------------------------------------------- the table and the relay

  datatype RelayConfig = RelayConfig(batchSize: int, pollInterval: int, maxRetries: int)

  /** `NewRelay`: non-positive settings are replaced one by one, so the retry bound is always positive. */
  function NewRelay(batchSize: int, pollInterval: int, maxRetries: int): (r: RelayConfig)
    ensures r.batchSize > 0 && r.pollInterval > 0 && r.maxRetries > 0
    ensures batchSize > 0 ==> r.batchSize == batchSize
    ensures pollInterval > 0 ==> r.pollInterval == pollInterval
    ensures maxRetries > 0 ==> r.maxRetries == maxRetries
    ensures batchSize <= 0 && pollInterval <= 0 && maxRetries <= 0 ==> r == RelayConfig(100, 1, 5)
  {
    RelayConfig(
      if batchSize <= 0 then 100 else batchSize,
      if pollInterval <= 0 then 1 else pollInterval,
      if maxRetries <= 0 then 5 else maxRetries)
  }

  /** What happens to one message of a flush: the write, whether its mark is applied, and when. */
  datatype Delivery = Delivery(written: bool, marked: bool, at: int)

  function AfterDelivery(rows: map<int, Row>, id: int, d: Delivery, maxRetries: int): map<int, Row> {
    if d.marked && id in rows then rows[id := AsMarked(rows[id], d.written, maxRetries, d.at)] else rows
  }

  function AfterDeliveries(rows: map<int, Row>, ids: seq<int>, ds: seq<Delivery>, maxRetries: int): map<int, Row>
    requires |ids| == |ds|
  {
    if ids == [] then rows
    else
      var n := |ids| - 1;
      AfterDelivery(AfterDeliveries(rows, ids[..n], ds[..n], maxRetries), ids[n], ds[n], maxRetries)
  }

  class OutboxTable {
    var rows: map<int, Row>

    constructor ()
      ensures rows == map[]
    {
      rows := map[];
    }

    /** `enqueueOutboxEvents` on a fresh range of the id sequence. */
    method Enqueue(first: int, createdAt: seq<int>)
      requires forall id :: id in rows ==> id < first
      modifies this
      ensures forall id :: id in rows <==> id in old(rows) || first <= id < first + |createdAt|
      ensures forall id :: id in old(rows) ==> rows[id] == old(rows)[id]
      ensures forall id :: first <= id < first + |createdAt| ==>
        rows[id] == Row(Pending, 0, createdAt[id - first], createdAt[id - first])
    {
      for i := 0 to |createdAt|
        invariant forall id :: id in rows <==> id in old(rows) || first <= id < first + i
        invariant forall id :: id in old(rows) ==> rows[id] == old(rows)[id]
        invariant forall id :: first <= id < first + i ==> rows[id] == NewRow(createdAt[id - first])
      {
        rows := rows[first + i := NewRow(createdAt[i])];
      }
    }

    /**
     `FetchPendingOutboxMessages`: every row returned could be fetched and is now processing as
     of this moment, so it cannot be fetched again within a minute; no other row is touched.
     */
    method FetchPending(limit: int, picked: seq<int>, now: int) returns (ids: seq<int>)
      requires Pickable(rows, picked, now) && (limit > 0 ==> |picked| <= limit)
      modifies this
      ensures limit <= 0 ==> ids == []
      ensures limit > 0 ==> ids == picked
      ensures rows.Keys == old(rows).Keys
      ensures forall id :: id in rows && id !in ids ==> rows[id] == old(rows)[id]
      ensures forall id :: id in ids ==>
        && id in rows && rows[id].status == Processing && rows[id].updatedAt == now
        && rows[id].retryCount == old(rows)[id].retryCount && rows[id].createdAt == old(rows)[id].createdAt
        && forall t :: Fetchable(rows[id], t) <==> t > now + 60
    {
      if limit <= 0 {
        return [];
      }
      rows := TakeAll(rows, picked, now);
      return picked;
    }

    /** `MarkOutboxMessageSent`: whatever its status, the row becomes sent and is never fetchable again. */
    method MarkSent(id: int, now: int)
      modifies this
      ensures rows.Keys == old(rows).Keys
      ensures forall x :: x in rows && x != id ==> rows[x] == old(rows)[x]
      ensures id in rows ==>
        && rows[id].status == Sent && rows[id].updatedAt == now
        && rows[id].retryCount == old(rows)[id].retryCount && rows[id].createdAt == old(rows)[id].createdAt
        && forall t :: !Fetchable(rows[id], t)
    {
      if id in rows {
        rows := rows[id := AsSent(rows[id], now)];
      }
    }

    /**
     `MarkOutboxMessageFailed`: one more retry is counted, and the row can be fetched again, at
     once, exactly when the count is still below the bound.
     */
    method MarkFailed(id: int, maxRetries: int, now: int)
      modifies this
      ensures rows.Keys == old(rows).Keys
      ensures forall x :: x in rows && x != id ==> rows[x] == old(rows)[x]
      ensures id in rows ==>
        && rows[id].retryCount == old(rows)[id].retryCount + 1
        && rows[id].updatedAt == now && rows[id].createdAt == old(rows)[id].createdAt
        && (rows[id].status == if rows[id].retryCount < maxRetries then Pending else Failed)
        && forall t :: Fetchable(rows[id], t) <==> rows[id].retryCount < maxRetries
    {
      if id in rows {
        rows := rows[id := AsFailed(rows[id], maxRetries, now)];
      }
    }
  }

  /** A fetch is told by the fields it sets. */
  lemma TakenRows(rows: map<int, Row>, ids: seq<int>, now: int, rows': map<int, Row>)
    requires rows'.Keys == rows.Keys && forall id :: id in ids ==> id in rows
    requires forall id :: id in rows && id !in ids ==> rows'[id] == rows[id]
    requires forall id :: id in ids ==>
      && rows'[id].status == Processing && rows'[id].updatedAt == now
      && rows'[id].retryCount == rows[id].retryCount && rows'[id].createdAt == rows[id].createdAt
    ensures rows' == TakeAll(rows, ids, now)
  {
    var taken := TakeAll(rows, ids, now);
    forall id | id in rows ensures rows'[id] == taken[id] {
      if id in ids {
        assert rows'[id] == Row(Processing, rows[id].retryCount, rows[id].createdAt, now);
      }
    }
  }

  /** And so is a mark. */
  lemma MarkedRow(rows: map<int, Row>, id: int, d: Delivery, maxRetries: int, rows': map<int, Row>)
    requires rows'.Keys == rows.Keys && forall x :: x in rows && x != id ==> rows'[x] == rows[x]
    requires !d.marked ==> rows' == rows
    requires d.marked && id in rows ==>
      var retries := if d.written then rows[id].retryCount else rows[id].retryCount + 1;
      && rows'[id].status == (if d.written then Sent else if retries < maxRetries then Pending else Failed)
      && rows'[id].retryCount == retries
      && rows'[id].createdAt == rows[id].createdAt && rows'[id].updatedAt == d.at
    ensures rows' == AfterDelivery(rows, id, d, maxRetries)
  {
    var marked := AfterDelivery(rows, id, d, maxRetries);
    if d.marked && id in rows {
      var row := rows'[id];
      assert row == Row(row.status, row.retryCount, row.createdAt, row.updatedAt) && row == marked[id];
    }
    forall x | x in rows ensures rows'[x] == marked[x] {
    }
  }

  /** `Relay.flush`: fetch a batch, then write and mark each message in turn. */
  method Flush(
    table: OutboxTable, config: RelayConfig, fetched: bool, picked: seq<int>, now: int, ds: seq<Delivery>)
    returns (writes: seq<int>)
    requires Pickable(table.rows, picked, now) && |picked| == |ds|
    requires config.batchSize > 0 && |picked| <= config.batchSize
    modifies table
    ensures !fetched ==> writes == [] && table.rows == old(table.rows)
    ensures fetched ==>
      && writes == picked
      && table.rows == AfterDeliveries(TakeAll(old(table.rows), picked, now), picked, ds, config.maxRetries)
  {
    if !fetched {
      return [];
    }
    var messages := table.FetchPending(config.batchSize, picked, now);
    ghost var taken := table.rows;
    TakenRows(old(table.rows), picked, now, taken);
    writes := [];
    for i := 0 to |messages|
      invariant writes == picked[..i]
      invariant table.rows == AfterDeliveries(taken, picked[..i], ds[..i], config.maxRetries)
    {
      var id, d := messages[i], ds[i];
      ghost var before := table.rows;
      writes := writes + [id];
      if d.marked {
        if d.written {
          table.MarkSent(id, d.at);
        } else {
          table.MarkFailed(id, config.maxRetries, d.at);
        }
      }
      MarkedRow(before, id, d, config.maxRetries, table.rows);
      assert picked[..i + 1][..i] == picked[..i] && ds[..i + 1][..i] == ds[..i];
    }
    assert picked[..|picked|] == picked && ds[..|ds|] == ds;
  }
}
