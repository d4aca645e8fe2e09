/** The `scrape_tasks` table as its storage methods change it (internal/storage/postgres/scrape_task.go). */
module TaskTable {
  import opened TaskQueue
  import B = Batching

  class ScrapeTaskTable {
    var rows: map<int, Row>
    var nextId: nat

    ghost predicate Valid()
      reads this
    {
      forall id :: id in rows ==> 0 <= id < nextId
    }

    constructor ()
      ensures Valid() && rows == map[] && nextId == 0
    {
      rows, nextId := map[], 0;
    }

    /**
     `SaveScrapeTasks`: the cleanup, then the inserts in batches. If the cleanup fails nothing
     happens. After it, pending rows have all survived and the other rows exactly when they
     are recent; each task of a committed batch has become a pending row.
     */
    method SaveScrapeTasks(createdAt: seq<int>, cutoff: int, cleaned: bool, script: B.Script)
      returns (v: B.Verdict, sent: seq<seq<int>>, lasts: seq<B.Attempt>)
      requires Valid() && B.Plausible(script)
      modifies this
      ensures Valid()
      ensures !cleaned ==> v == B.Failed && rows == old(rows) && nextId == old(nextId)
      ensures cleaned ==>
        && B.Saved(createdAt, script, v, sent, lasts)
        && nextId == old(nextId) + |B.Committed(sent, lasts)|
        && (forall id :: id in rows && id !in old(rows) <==> old(nextId) <= id < nextId)
        && (forall id :: old(nextId) <= id < nextId ==>
              id in rows && rows[id] == Row(Pending, B.Committed(sent, lasts)[id - old(nextId)]))
        && (forall id :: id in old(rows) ==>
              && (id in rows <==> old(rows)[id].status == Pending || old(rows)[id].createdAt >= cutoff)
              && (id in rows ==> rows[id] == old(rows)[id]))
    {
      if !cleaned {
        return B.Failed, [], [];
      }
      rows := Cleanup(rows, cutoff);
      var inserted := new B.Table<int>();
      v, sent, lasts := inserted.SaveRows(createdAt, script);
      InsertAll(inserted.rows);
    }

    method InsertAll(createdAt: seq<int>)
      requires Valid()
      modifies this
      ensures Valid() && nextId == old(nextId) + |createdAt|
      ensures forall id :: id in rows <==> id in old(rows) || old(nextId) <= id < nextId
      ensures forall id :: id in old(rows) ==> rows[id] == old(rows)[id]
      ensures forall id :: old(nextId) <= id < nextId ==> rows[id] == Row(Pending, createdAt[id - old(nextId)])
    {
      for i := 0 to |createdAt|
        invariant nextId == old(nextId) + i
        invariant forall id :: id in rows <==> id in old(rows) || old(nextId) <= id < nextId
        invariant forall id :: id in old(rows) ==> rows[id] == old(rows)[id]
        invariant forall id :: old(nextId) <= id < nextId ==> rows[id] == Row(Pending, createdAt[id - old(nextId)])
      {
        rows, nextId := rows[nextId := Row(Pending, createdAt[i])], nextId + 1;
      }
    }

    /**
     `GetScrapeTasks`: every row returned was pending and is running now, so no later claim can
     return it; no other row is touched.
     */
    method GetScrapeTasks(picked: seq<int>) returns (ids: seq<int>)
      requires Valid() && Claimable(rows, picked)
      modifies this`rows
      ensures Valid() && ids == picked && rows.Keys == old(rows).Keys
      ensures forall id :: id in ids ==>
        && id in rows && old(rows)[id].status == Pending && rows[id].status == Running
        && rows[id].createdAt == old(rows)[id].createdAt
      ensures forall id :: id in rows && id !in ids ==> rows[id] == old(rows)[id]
      ensures forall later, id :: Claimable(rows, later) && id in later ==> id !in ids
    {
      rows := MarkRunning(rows, picked);
      return picked;
    }

    /** `UpdateTaskStatuses`: a row named in the batch takes a status the batch gives it. */
    method UpdateTaskStatuses(updates: seq<Update>)
      requires Valid()
      modifies this`rows
      ensures Valid() && Updated(old(rows), updates, rows)
      ensures rows.Keys == old(rows).Keys
      ensures forall id :: id in rows ==>
        && rows[id].createdAt == old(rows)[id].createdAt
        && (Update(id, rows[id].status) in updates
            || (rows[id] == old(rows)[id] && forall status :: Update(id, status) !in updates))
    {
      for i := 0 to |updates|
        invariant Valid() && Updated(old(rows), updates[..i], rows)
      {
        ghost var before := rows;
        var u := updates[i];
        if u.task in rows {
          rows := rows[u.task := rows[u.task].(status := u.status)];
        }
        UpdatedOneMore(old(rows), updates, i, before, rows);
      }
      assert updates[..|updates|] == updates;
    }
  }

  lemma UpdatedOneMore(rows: map<int, Row>, updates: seq<Update>, i: nat, before: map<int, Row>, after: map<int, Row>)
    requires i < |updates| && Updated(rows, updates[..i], before)
    requires after == if updates[i].task in before then before[updates[i].task := before[updates[i].task].(status := updates[i].status)] else before
    ensures Updated(rows, updates[..i + 1], after)
  {
    var all, u := updates[..i + 1], updates[i];
    assert all == updates[..i] + [u] && u in all;
    forall id | id in rows ensures Names(all, id) <==> Names(updates[..i], id) || u.task == id {
      if Names(updates[..i], id) {
        var v :| v in updates[..i] && v.task == id;
        assert v in all;
      }
    }
    forall id | id in rows && Names(all, id) ensures Update(id, after[id].status) in all {
      if id != u.task {
        assert Update(id, before[id].status) in updates[..i];
      }
    }
  }
}
