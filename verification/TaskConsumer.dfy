/**
 The batches of the consumer's event loop (internal/scraper/task_consumer.go). Each turn of
 the loop hands batches to storage; a batch whose write failed is kept and grows.
 */
module TaskConsumer {
  import opened WorkerPool
  import opened TaskQueue

  const BATCH_SIZE: nat := 1000

  /** What one attempt to hand over `batch` leaves queued. */
  function Kept<T>(batch: seq<T>, threshold: nat, stored: bool): seq<T> {
    if |batch| >= threshold && stored then [] else batch
  }

  /** Which of the three storage calls of a turn succeed, if they are made. */
  datatype Storage = Storage(saveReports: bool, updateStatuses: bool, saveTargetGroups: bool)

  class Batches {
    var statBatch: seq<int>
    var statusBatch: seq<Update>
    var targetGroupBatch: seq<int>

    constructor ()
      ensures statBatch == [] && statusBatch == [] && targetGroupBatch == []
    {
      statBatch, statusBatch, targetGroupBatch := [], [], [];
    }

    /** The three guarded writes, in the order of the code. */
    method Flush(threshold: nat, storage: Storage)
      returns (reports: seq<int>, updates: seq<Update>, groups: seq<int>)
      requires threshold > 0
      modifies this
      ensures statBatch == Kept(old(statBatch), threshold, storage.saveReports)
      ensures statusBatch == Kept(old(statusBatch), threshold, storage.updateStatuses)
      ensures targetGroupBatch == Kept(old(targetGroupBatch), threshold, storage.saveTargetGroups)
      ensures reports + statBatch == old(statBatch)
      ensures updates + statusBatch == old(statusBatch)
      ensures groups + targetGroupBatch == old(targetGroupBatch)
    {
      reports, updates, groups := [], [], [];
      if |statBatch| >= threshold {
        if storage.saveReports {
          reports, statBatch := statBatch, [];
        }
      }
      if |statusBatch| >= threshold {
        if storage.updateStatuses {
          updates, statusBatch := statusBatch, [];
        }
      }
      if |targetGroupBatch| >= threshold {
        if storage.saveTargetGroups {
          groups, targetGroupBatch := targetGroupBatch, [];
        }
      }
    }

    /** The `Results()` case. `Process` returns a report and one target group unless it failed. */
    method OnResult(res: Result, storage: Storage)
      returns (reports: seq<int>, updates: seq<Update>, groups: seq<int>)
      modifies this
      ensures reports + statBatch == old(statBatch) + (if res.ok then [res.task] else [])
      ensures updates + statusBatch == old(statusBatch) + [Update(res.task, StatusFor(res))]
      ensures groups + targetGroupBatch == old(targetGroupBatch) + (if res.ok then [res.task] else [])
      ensures statBatch == Kept(old(statBatch) + (if res.ok then [res.task] else []), BATCH_SIZE, storage.saveReports)
      ensures statusBatch == Kept(old(statusBatch) + [Update(res.task, StatusFor(res))], BATCH_SIZE, storage.updateStatuses)
      ensures targetGroupBatch ==
        Kept(old(targetGroupBatch) + (if res.ok then [res.task] else []), BATCH_SIZE, storage.saveTargetGroups)
      ensures reports != [] <==> storage.saveReports && |reports + statBatch| >= 1000
      ensures updates != [] <==> storage.updateStatuses && |updates + statusBatch| >= 1000
      ensures groups != [] <==> storage.saveTargetGroups && |groups + targetGroupBatch| >= 1000
    {
      if !res.ok {
        statusBatch := statusBatch + [Update(res.task, Error)];
      } else {
        statusBatch := statusBatch + [Update(res.task, Complete)];
        statBatch := statBatch + [res.task];
        targetGroupBatch := targetGroupBatch + [res.task];
      }
      reports, updates, groups := Flush(BATCH_SIZE, storage);
    }

    /** The flush tick, and the deferred flush at the end of `Run`. */
    method OnFlushTick(storage: Storage)
      returns (reports: seq<int>, updates: seq<Update>, groups: seq<int>)
      modifies this
      ensures reports + statBatch == old(statBatch) && (storage.saveReports ==> statBatch == [])
      ensures updates + statusBatch == old(statusBatch) && (storage.updateStatuses ==> statusBatch == [])
      ensures groups + targetGroupBatch == old(targetGroupBatch) && (storage.saveTargetGroups ==> targetGroupBatch == [])
    {
      reports, updates, groups := Flush(1, storage);
    }
  }

  /** A turn of the loop: a result to receive, or a flush tick. */
  datatype Turn = Got(res: Result, storage: Storage) | Tick(storage: Storage)

  function ResultsIn(turns: seq<Turn>): seq<Result> {
    if turns == [] then []
    else ResultsIn(turns[..|turns| - 1])
         + if turns[|turns| - 1].Got? then [turns[|turns| - 1].res] else []
  }

  function UpdatesFor(rs: seq<Result>): seq<Update> {
    if rs == [] then [] else UpdatesFor(rs[..|rs| - 1]) + [Update(rs[|rs| - 1].task, StatusFor(rs[|rs| - 1]))]
  }

  function ReportsFor(rs: seq<Result>): seq<int> {
    if rs == [] then []
    else ReportsFor(rs[..|rs| - 1]) + if rs[|rs| - 1].ok then [rs[|rs| - 1].task] else []
  }

  /** `at[i]` is the position of the success behind report `i`: increasing, and complete. */
  ghost predicate Positions(rs: seq<Result>, reports: seq<int>, at: seq<int>) {
    && |at| == |reports|
    && (forall i :: 0 <= i < |at| ==> 0 <= at[i] < |rs| && rs[at[i]] == Result(reports[i], true))
    && (forall i, j :: 0 <= i < j < |at| ==> at[i] < at[j])
    && (forall k :: 0 <= k < |rs| && rs[k].ok ==> k in at)
  }

  lemma PositionsSnoc(rs: seq<Result>, reports: seq<int>, at: seq<int>, r: Result)
    requires Positions(rs, reports, at)
    ensures r.ok ==> Positions(rs + [r], reports + [r.task], at + [|rs|])
    ensures !r.ok ==> Positions(rs + [r], reports, at)
  {
    var all := rs + [r];
    assert all[|rs|] == r && forall k :: 0 <= k < |rs| ==> all[k] == rs[k];
    assert (at + [|rs|])[|at|] == |rs|;
    forall k | 0 <= k < |rs| && all[k].ok ensures k in at && k in at + [|rs|] {
      assert rs[k].ok;
    }
  }

  /** What results call for: a report for each success and for nothing else, in order. */
  lemma {:induction false} ReportsCalledFor(rs: seq<Result>) returns (at: seq<int>)
    ensures Positions(rs, ReportsFor(rs), at)
  {
    if rs == [] {
      at := [];
    } else {
      var n := |rs| - 1;
      at := ReportsCalledFor(rs[..n]);
      PositionsSnoc(rs[..n], ReportsFor(rs[..n]), at, rs[n]);
      assert rs == rs[..n] + [rs[n]];
      ForOneMore(rs[..n], rs[n]);
      if rs[n].ok {
        at := at + [n];
      }
    }
  }

  /** And one status each, complete for a success and error for a failure, in order. */
  lemma {:induction false} UpdatesCalledFor(rs: seq<Result>)
    ensures |UpdatesFor(rs)| == |rs|
    ensures forall i :: 0 <= i < |rs| ==> UpdatesFor(rs)[i] == Update(rs[i].task, if rs[i].ok then Complete else Error)
  {
    if rs != [] {
      UpdatesCalledFor(rs[..|rs| - 1]);
    }
  }

  lemma ForOneMore(rs: seq<Result>, res: Result)
    ensures UpdatesFor(rs + [res]) == UpdatesFor(rs) + [Update(res.task, StatusFor(res))]
    ensures ReportsFor(rs + [res]) == ReportsFor(rs) + if res.ok then [res.task] else []
  {
    assert (rs + [res])[..|rs|] == rs;
  }

  /** Handing over part of a queue keeps what was handed over followed by what is queued. */
  lemma HandOver<T>(passed: seq<T>, queued: seq<T>, now: seq<T>, queued': seq<T>, more: seq<T>)
    requires now + queued' == queued + more
    ensures passed + now + queued' == passed + queued + more
  {
    assert passed + now + queued' == passed + (now + queued');
    assert passed + queued + more == passed + (queued + more);
  }

  /**
   Over any number of turns with any failures: what was handed to storage followed by what
   is still queued is exactly what the results called for, in order, with nothing twice.
   */
  method RunTurns(turns: seq<Turn>) returns (reports: seq<int>, updates: seq<Update>, groups: seq<int>, left: Batches)
    ensures reports + left.statBatch == ReportsFor(ResultsIn(turns))
    ensures updates + left.statusBatch == UpdatesFor(ResultsIn(turns))
    ensures groups + left.targetGroupBatch == ReportsFor(ResultsIn(turns))
  {
    left := new Batches();
    reports, updates, groups := [], [], [];
    for i := 0 to |turns|
      invariant reports + left.statBatch == ReportsFor(ResultsIn(turns[..i]))
      invariant updates + left.statusBatch == UpdatesFor(ResultsIn(turns[..i]))
      invariant groups + left.targetGroupBatch == ReportsFor(ResultsIn(turns[..i]))
    {
      ghost var rs := ResultsIn(turns[..i]);
      ghost var b0, b1, b2 := left.statBatch, left.statusBatch, left.targetGroupBatch;
      assert turns[..i + 1][..i] == turns[..i];
      var r, u, g;
      match turns[i] {
        case Got(res, storage) =>
          r, u, g := left.OnResult(res, storage);
          ForOneMore(rs, res);
          HandOver(reports, b0, r, left.statBatch, if res.ok then [res.task] else []);
          HandOver(updates, b1, u, left.statusBatch, [Update(res.task, StatusFor(res))]);
          HandOver(groups, b2, g, left.targetGroupBatch, if res.ok then [res.task] else []);
        case Tick(storage) =>
          r, u, g := left.OnFlushTick(storage);
          assert rs + [] == rs;
          HandOver(reports, b0, r, left.statBatch, []);
          HandOver(updates, b1, u, left.statusBatch, []);
          HandOver(groups, b2, g, left.targetGroupBatch, []);
      }
      reports, updates, groups := reports + r, updates + u, groups + g;
    }
    assert turns[..|turns|] == turns;
  }

  // ---------------------------------------------------------------- a turn is a run of the task queue

  /** Rows with the statuses of the batch; any one of them for a row named more than once. */
  ghost function WithStatuses(rows: map<int, Row>, batch: seq<Update>): (rows': map<int, Row>)
    ensures Updated(rows, batch, rows')
  {
    map id | id in rows ::
      if Names(batch, id) then var u :| u in batch && u.task == id; rows[id].(status := u.status) else rows[id]
  }

  /** The guarded `SaveReports` of a turn, as at most one step of the system. */
  lemma SaveIsStep(s: State, c: nat, threshold: nat, ok: bool) returns (s': State)
    requires c < |s.consumers| && s.consumers[c].pool.waiting == [] && threshold > 0
    ensures if |s.consumers[c].statBatch| >= threshold then Next(s, Of(c, SaveReports(ok, ok)), s') else s' == s
    ensures |s'.consumers| == |s.consumers|
    ensures s'.consumers[c].statBatch == Kept(s.consumers[c].statBatch, threshold, ok)
    ensures s'.consumers[c].statusBatch == s.consumers[c].statusBatch && s'.consumers[c].pool == s.consumers[c].pool
  {
    s' := s;
    if |s.consumers[c].statBatch| >= threshold {
      var k := s.consumers[c];
      var k' := if ok then k.(statBatch := [], saved := k.saved + multiset(k.statBatch)) else k;
      s' := s.(consumers := s.consumers[c := k']);
      assert LocalStep(k, SaveReports(ok, ok), k');
    }
  }

  /** And the guarded `UpdateTaskStatuses`. */
  lemma UpdateIsStep(s: State, c: nat, threshold: nat, ok: bool) returns (s': State)
    requires c < |s.consumers| && s.consumers[c].pool.waiting == [] && threshold > 0
    ensures if |s.consumers[c].statusBatch| >= threshold then Next(s, WriteStatuses(c, ok, ok), s') else s' == s
    ensures |s'.consumers| == |s.consumers|
    ensures s'.consumers[c].statusBatch == Kept(s.consumers[c].statusBatch, threshold, ok)
    ensures s'.consumers[c].statBatch == s.consumers[c].statBatch
  {
    s' := s;
    if |s.consumers[c].statusBatch| >= threshold {
      var k := s.consumers[c];
      var k1 := if ok then k.(written := k.written + (set u | u in k.statusBatch :: u.task)) else k;
      var k2 := if ok then k1.(statusBatch := [], acked := k.acked + k.statusBatch) else k1;
      s' := State(
        if ok then WithStatuses(s.rows, k.statusBatch) else s.rows, s.nextId, s.consumers[c := k2], s.orphans);
    }
  }

  /**
   What `OnResult` and `OnFlushTick` do to the two batches is what at most three steps of the
   task queue do to the consumer: receive, save the reports, write the statuses.
   */
  lemma TurnIsRun(s: State, c: nat, turn: Turn) returns (received: State, saved: State, s': State)
    requires c < |s.consumers| && s.consumers[c].pool.waiting == []
    requires turn.Got? ==>
      var k := s.consumers[c];
      k.phase != Stopped && k.pool.results != [] && k.pool.results[0] == turn.res
    ensures var threshold := if turn.Got? then BATCH_SIZE else 1;
      && |received.consumers| == |saved.consumers| == |s'.consumers| == |s.consumers|
      && (if turn.Got? then Next(s, Of(c, Receive), received) else received == s)
      && (if |received.consumers[c].statBatch| >= threshold
          then Next(received, Of(c, SaveReports(turn.storage.saveReports, turn.storage.saveReports)), saved)
          else saved == received)
      && (if |saved.consumers[c].statusBatch| >= threshold
          then Next(saved, WriteStatuses(c, turn.storage.updateStatuses, turn.storage.updateStatuses), s')
          else s' == saved)
    ensures var k, k' := s.consumers[c], s'.consumers[c];
      var threshold := if turn.Got? then BATCH_SIZE else 1;
      var report := if turn.Got? && turn.res.ok then [turn.res.task] else [];
      var update := if turn.Got? then [Update(turn.res.task, StatusFor(turn.res))] else [];
      && k'.statBatch == Kept(k.statBatch + report, threshold, turn.storage.saveReports)
      && k'.statusBatch == Kept(k.statusBatch + update, threshold, turn.storage.updateStatuses)
  {
    var k := s.consumers[c];
    var threshold := if turn.Got? then BATCH_SIZE else 1;
    received := s;
    if turn.Got? {
      var r := k.pool.results[0];
      var k' := k.(
        pool := k.pool.(results := k.pool.results[1..]),
        statusBatch := k.statusBatch + [Update(r.task, StatusFor(r))],
        statBatch := if r.ok then k.statBatch + [r.task] else k.statBatch);
      received := s.(consumers := s.consumers[c := k']);
      assert LocalStep(k, Receive, k');
    }
    assert k.statBatch + [] == k.statBatch && k.statusBatch + [] == k.statusBatch;
    saved := SaveIsStep(received, c, threshold, turn.storage.saveReports);
    s' := UpdateIsStep(saved, c, threshold, turn.storage.updateStatuses);
  }
}
