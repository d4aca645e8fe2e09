/**
 What `Process` returned for a task and what becomes of it
 (internal/scraper/worker_pool.go:60-70, internal/scraper/task_consumer.go:125-149).

 `outcomes` records every return of `Process`, when a worker finishes a task and before its
 result is delivered. Results, statuses, rows and reports are compared with that record.
 */
module TaskOutcomes {
  import opened WorkerPool
  import opened TaskQueue
  import opened TaskQueueLaws
  import opened TaskRuns
  import F = TaskFacts

  function InBusy(ws: seq<Worker>, id: int): nat {
    if ws == [] then 0 else (if ws[0] == Busy(id) then 1 else 0) + InBusy(ws[1..], id)
  }

  /** `Process` has returned at most once for each claim that is past the queue and the workers. */
  ghost predicate ReturnedOnce(k: Consumer) {
    forall id :: InResults(k.outcomes, id) + InTasks(k.pool.waiting, id) + InBusy(k.pool.workers, id) <= k.claimed[id]
  }

  /** A status agrees with a return of `Process`. */
  ghost predicate Agrees(k: Consumer, u: Update) {
    Result(u.task, u.status == Complete) in k.outcomes && (u.status == Complete || u.status == Error)
  }

  /** Everything downstream of `Process` agrees with what it returned. */
  ghost predicate Faithful(k: Consumer) {
    && (forall w, t, ok :: 0 <= w < |k.pool.workers| && k.pool.workers[w] == Done(t, ok) ==> Result(t, ok) in k.outcomes)
    && (forall r :: r in k.pool.results ==> r in k.outcomes)
    && (forall u :: u in k.statusBatch || u in k.acked ==> Agrees(k, u))
    && (forall id :: id in k.statBatch || id in k.saved || id in k.unacked ==> Result(id, true) in k.outcomes)
  }

  lemma {:induction false} BusyUpdate(ws: seq<Worker>, i: nat, w: Worker, id: int)
    requires i < |ws|
    ensures InBusy(ws[i := w], id)
         == InBusy(ws, id) - (if ws[i] == Busy(id) then 1 else 0) + (if w == Busy(id) then 1 else 0)
  {
    if i == 0 {
      assert ws[i := w][1..] == ws[1..];
    } else {
      BusyUpdate(ws[1..], i - 1, w, id);
      assert ws[i := w][1..] == ws[1..][i - 1 := w];
    }
  }

  lemma {:induction false} NoneIsBusy(ws: seq<Worker>, id: int)
    requires forall w :: w in ws ==> w.Idle?
    ensures InBusy(ws, id) == 0
  {
    if ws != [] {
      assert ws[0] in ws;
      NoneIsBusy(ws[1..], id);
    }
  }

  lemma LocalReturnsOnce(k: Consumer, local: Local, k': Consumer)
    requires ReturnedOnce(k) && LocalStep(k, local, k')
    ensures ReturnedOnce(k')
  {
    forall id ensures
      InResults(k'.outcomes, id) + InTasks(k'.pool.waiting, id) + InBusy(k'.pool.workers, id) <= k'.claimed[id]
    {
      match local
      case PoolMove(move) =>
        BusyUpdate(k.pool.workers, move.worker, k'.pool.workers[move.worker], id);
        if move.Finishing? {
          ResultsSnoc(k.outcomes, Returned(k.pool, move)[0], id);
        } else {
          assert k.outcomes + [] == k.outcomes;
        }
      case DropResult(w) => BusyUpdate(k.pool.workers, w, Idle, id);
      case _ =>
    }
  }

  /** What was downstream stays faithful when the record grows and nothing is added. */
  lemma StillFaithful(k: Consumer, k': Consumer)
    requires Faithful(k) && forall r :: r in k.outcomes ==> r in k'.outcomes
    ensures forall w, t, ok :: 0 <= w < |k.pool.workers| && k.pool.workers[w] == Done(t, ok) ==> Result(t, ok) in k'.outcomes
    ensures forall r :: r in k.pool.results ==> r in k'.outcomes
    ensures forall u :: u in k.statusBatch || u in k.acked ==> Agrees(k', u)
    ensures forall id :: id in k.statBatch || id in k.saved || id in k.unacked ==> Result(id, true) in k'.outcomes
  {
    forall u | u in k.statusBatch || u in k.acked ensures Agrees(k', u) {
      assert Agrees(k, u);
    }
  }

  lemma MoveFaithful(k: Consumer, move: Move, k': Consumer)
    requires Faithful(k) && LocalStep(k, PoolMove(move), k')
    ensures Faithful(k')
  {
    StillFaithful(k, k');
    if move.Delivering? {
      var r := Result(k.pool.workers[move.worker].task, k.pool.workers[move.worker].ok);
      assert k'.pool.results == k.pool.results + [r];
    }
  }

  lemma ReceiveFaithful(k: Consumer, k': Consumer)
    requires Faithful(k) && LocalStep(k, Receive, k')
    ensures Faithful(k')
  {
    StillFaithful(k, k');
    var r := k.pool.results[0];
    assert r in k.pool.results && Result(r.task, r.ok) == r;
    assert forall u :: u in k'.statusBatch ==> u in k.statusBatch || u == Update(r.task, StatusFor(r));
  }

  lemma LocalFaithful(k: Consumer, local: Local, k': Consumer)
    requires Faithful(k) && LocalStep(k, local, k')
    ensures Faithful(k')
  {
    match local
    case PoolMove(move) => MoveFaithful(k, move, k');
    case Receive => ReceiveFaithful(k, k');
    case _ => StillFaithful(k, k');
  }

  ghost predicate OutcomeInv(k: Consumer) {
    ReturnedOnce(k) && Faithful(k)
  }

  lemma OutcomeStep(s: State, step: Step, s': State, c: nat)
    requires Next(s, step, s') && c < |s.consumers| && OutcomeInv(s.consumers[c])
    ensures c < |s'.consumers| && OutcomeInv(s'.consumers[c])
  {
    var k, k' := s.consumers[c], s'.consumers[c];
    match step
    case Of(d, local) =>
      if d == c {
        LocalReturnsOnce(k, local, k');
        LocalFaithful(k, local, k');
      }
    case Claim(d, ids) =>
      if d == c {
        ClaimKeepsOutcomes(k, ids, k');
      }
    case WriteStatuses(d, applied, ok) =>
      if d == c {
        assert forall u :: u in k'.statusBatch || u in k'.acked ==> u in k.statusBatch || u in k.acked;
        assert forall u :: u in k.statusBatch || u in k.acked ==> Agrees(k, u);
      }
    case _ =>
  }

  lemma ClaimKeepsOutcomes(k: Consumer, ids: seq<int>, k': Consumer)
    requires OutcomeInv(k) && k.pool.waiting == []
    requires k' == k.(pool := k.pool.(waiting := ids), claimed := k.claimed + multiset(ids))
    ensures OutcomeInv(k')
  {
    forall id ensures
      InResults(k'.outcomes, id) + InTasks(k'.pool.waiting, id) + InBusy(k'.pool.workers, id) <= k'.claimed[id]
    {
      TasksAsMultiset(ids, id);
    }
    assert forall u :: u in k.statusBatch || u in k.acked ==> Agrees(k, u);
  }

  lemma {:induction false} RunKeepsOutcomes(states: seq<State>, steps: seq<Step>, i: nat, c: nat)
    requires IsTaskRun(states, steps) && i < |states| && c < |states[0].consumers|
    ensures |states[i].consumers| == |states[0].consumers| && OutcomeInv(states[i].consumers[c])
  {
    if i == 0 {
      var k := states[0].consumers[c];
      assert Fresh(k);
      forall id ensures InBusy(k.pool.workers, id) == 0 {
        NoneIsBusy(k.pool.workers, id);
      }
      assert forall w :: 0 <= w < |k.pool.workers| ==> k.pool.workers[w] in k.pool.workers;
    } else {
      RunKeepsOutcomes(states, steps, i - 1, c);
      assert StepAt(states, steps, i - 1);
      OutcomeStep(states[i - 1], steps[i - 1], states[i], c);
    }
  }

  // ---------------------------------------------------------------- what every run satisfies

  lemma {:induction false} OneResultPerTask(rs: seq<Result>, a: Result, b: Result)
    requires a in rs && b in rs && a.task == b.task && InResults(rs, a.task) <= 1
    ensures a == b
  {
    ResultsNamed(rs[1..], a.task);
    if a in rs[1..] && b in rs[1..] {
      OneResultPerTask(rs[1..], a, b);
    }
  }

  lemma {:induction false} ResultsNamed(rs: seq<Result>, id: int)
    ensures InResults(rs, id) > 0 <==> exists r :: r in rs && r.task == id
  {
    if rs != [] {
      ResultsNamed(rs[1..], id);
      assert rs[0] in rs && forall r :: r in rs <==> r == rs[0] || r in rs[1..];
    }
  }

  /** In every run `Process` returns at most once for a task, whichever consumer runs it. */
  lemma OneOutcome(states: seq<State>, steps: seq<Step>, i: nat, c: nat, d: nat, a: Result, b: Result)
    requires IsTaskRun(states, steps) && i < |states| && c < |states[0].consumers| && d < |states[0].consumers|
    requires |states[i].consumers| == |states[0].consumers|
    requires a in states[i].consumers[c].outcomes && b in states[i].consumers[d].outcomes && a.task == b.task
    ensures a == b && c == d && InResults(states[i].consumers[c].outcomes, a.task) == 1
  {
    RunKeepsInv(states, steps, i);
    RunKeepsOutcomes(states, steps, i, c);
    RunKeepsOutcomes(states, steps, i, d);
    var s, id := states[i], a.task;
    assert ReturnedOnce(s.consumers[c]) && ReturnedOnce(s.consumers[d]);
    ResultsNamed(s.consumers[c].outcomes, id);
    ResultsNamed(s.consumers[d].outcomes, id);
    assert id in s.consumers[c].claimed && id in s.consumers[d].claimed && Claims(s, id) <= 1;
    SoleOwner(s, c, d, id);
    OneResultPerTask(s.consumers[c].outcomes, a, b);
  }

  /**
   In every run, a delivered result, a queued or acknowledged status of a task is exactly what
   `Process` returned for it: complete if there was no error, error if there was one.
   */
  lemma StatusIsOutcome(states: seq<State>, steps: seq<Step>, i: nat, c: nat, id: int)
    requires IsTaskRun(states, steps) && i < |states| && c < |states[0].consumers|
    ensures c < |states[i].consumers|
    ensures var k := states[i].consumers[c];
      && (forall ok :: Result(id, ok) in k.pool.results ==>
            Result(id, ok) in k.outcomes && Result(id, !ok) !in k.outcomes)
      && (forall status :: Update(id, status) in k.statusBatch || Update(id, status) in k.acked ==>
            && (status == Complete <==> Result(id, true) in k.outcomes)
            && (status == Error <==> Result(id, false) in k.outcomes))
  {
    RunKeepsOutcomes(states, steps, i, c);
    var k := states[i].consumers[c];
    assert Faithful(k);
    forall ok | Result(id, ok) in k.outcomes ensures Result(id, !ok) !in k.outcomes {
      if Result(id, !ok) in k.outcomes {
        OneOutcome(states, steps, i, c, c, Result(id, ok), Result(id, !ok));
      }
    }
    forall status | Update(id, status) in k.statusBatch || Update(id, status) in k.acked
      ensures status == Complete <==> Result(id, true) in k.outcomes
      ensures status == Error <==> Result(id, false) in k.outcomes
    {
      assert Agrees(k, Update(id, status));
    }
  }

  /** `Process` has returned for the task, without an error or with one, at some consumer. */
  ghost predicate ReturnedAs(s: State, id: int, ok: bool) {
    exists c :: 0 <= c < |s.consumers| && Result(id, ok) in s.consumers[c].outcomes
  }

  /**
   The terminal status of a row is the outcome of its task: complete only if `Process` returned
   no error for it, error only if it returned one, and never both.
   */
  lemma RowIsOutcome(states: seq<State>, steps: seq<Step>, i: nat, id: int)
    requires IsTaskRun(states, steps) && i < |states| && id in states[i].rows
    ensures states[i].rows[id].status == Complete ==> ReturnedAs(states[i], id, true) && !ReturnedAs(states[i], id, false)
    ensures states[i].rows[id].status == Error ==> ReturnedAs(states[i], id, false) && !ReturnedAs(states[i], id, true)
    ensures states[i].rows[id].status == Pending ==> !ReturnedAs(states[i], id, true) && !ReturnedAs(states[i], id, false)
  {
    RunKeepsInv(states, steps, i);
    var s, status := states[i], states[i].rows[id].status;
    RunKeepsCount(states, steps, i);
    if status == Complete || status == Error {
      SomeoneClaimed(s.consumers, id);
      var c: nat :| c < |s.consumers| && id in s.consumers[c].claimed;
      var k := s.consumers[c];
      assert ConsumerInv(k) && RowsFit(s.rows, k);
      RunKeepsOutcomes(states, steps, i, c);
      assert Agrees(k, Update(id, status));
      forall d: nat, ok | d < |s.consumers| && Result(id, ok) in s.consumers[d].outcomes ensures ok == (status == Complete) {
        OneOutcome(states, steps, i, c, d, Result(id, status == Complete), Result(id, ok));
      }
    } else if status == Pending {
      forall d: nat, ok | d < |s.consumers| && Result(id, ok) in s.consumers[d].outcomes ensures false {
        RunKeepsOutcomes(states, steps, i, d);
        ResultsNamed(s.consumers[d].outcomes, id);
        ConsumerClaims(s, d, id);
        ClaimedNotPending(s, id);
      }
    }
  }

  lemma {:induction false} RunKeepsCount(states: seq<State>, steps: seq<Step>, i: nat)
    requires IsTaskRun(states, steps) && i < |states|
    ensures |states[i].consumers| == |states[0].consumers|
  {
    if i > 0 {
      RunKeepsCount(states, steps, i - 1);
      assert StepAt(states, steps, i - 1);
    }
  }

  /**
   A report is queued or committed, and facts of a task enter the outbox, only if `Process`
   returned without an error.
   */
  lemma ReportOnlyOfSuccess(states: seq<State>, steps: seq<Step>, w: F.World, i: nat, id: int)
    requires IsTaskRun(states, steps) && i < |states|
    ensures F.IsQueued(states[i], id) || F.Sum(states[i].consumers, id, F.Acked) > 0 || F.Sum(states[i].consumers, id, F.Silent) > 0
            ==> ReturnedAs(states[i], id, true) && !ReturnedAs(states[i], id, false)
    ensures InTasks(F.Tasks(F.Saved(states, steps, w, i)), id) > 0
            ==> ReturnedAs(states[i], id, true) && !ReturnedAs(states[i], id, false)
  {
    var s := states[i];
    F.SavedCount(states, steps, w, i, id);
    F.SumPositive(s.consumers, id, F.Acked);
    F.SumPositive(s.consumers, id, F.Silent);
    F.CompletedIff(s, id);
    F.SumPositive(s.consumers, id, F.Queued);
    RunKeepsCount(states, steps, i);
    if c: nat :| c < |s.consumers| && (F.Part(s.consumers[c], id, F.Queued) > 0 || F.Part(s.consumers[c], id, F.Acked) > 0
                                       || F.Part(s.consumers[c], id, F.Silent) > 0) {
      RunKeepsOutcomes(states, steps, i, c);
      TasksAsMultiset(s.consumers[c].statBatch, id);
      assert Faithful(s.consumers[c]);
      forall d: nat, ok | d < |s.consumers| && Result(id, ok) in s.consumers[d].outcomes ensures ok {
        OneOutcome(states, steps, i, c, d, Result(id, true), Result(id, ok));
      }
    }
  }

  // ---------------------------------------------------------------- order

  /** The results a consumer's workers have delivered in the first `j` steps, in order. */
  ghost function Delivered(states: seq<State>, steps: seq<Step>, c: nat, j: nat): seq<Result> {
    if j == 0 then []
    else
      var before := Delivered(states, steps, c, j - 1);
      if j <= |steps| && j <= |states| && steps[j - 1].Of? && steps[j - 1].consumer == c < |states[j - 1].consumers|
      then before + DeliveredBy(states[j - 1].consumers[c].pool, steps[j - 1].local)
      else before
  }

  function DeliveredBy(p: Pool, local: Local): seq<Result> {
    if local.PoolMove? && local.move.Delivering? && local.move.worker < |p.workers| && p.workers[local.move.worker].Done?
    then [Result(p.workers[local.move.worker].task, p.workers[local.move.worker].ok)] else []
  }

  /** Of the delivered results `d`, the first ones have become statuses, in order, and the others wait, in order. */
  ghost predicate InOrder(k: Consumer, d: seq<Result>) {
    var updates := k.acked + k.statusBatch;
    && |updates| <= |d| && k.pool.results == d[|updates|..]
    && forall i :: 0 <= i < |updates| ==> updates[i] == Update(d[i].task, if d[i].ok then Complete else Error)
  }

  lemma LocalInOrder(k: Consumer, local: Local, k': Consumer, d: seq<Result>)
    requires LocalStep(k, local, k') && InOrder(k, d)
    ensures InOrder(k', d + DeliveredBy(k.pool, local))
  {
    var updates, d' := k.acked + k.statusBatch, d + DeliveredBy(k.pool, local);
    assert d + [] == d;
    match local
    case PoolMove(move) =>
      if move.Delivering? {
        assert d'[|updates|..] == d[|updates|..] + DeliveredBy(k.pool, local);
      }
    case Receive =>
      var r := k.pool.results[0];
      assert k'.acked + k'.statusBatch == updates + [Update(r.task, StatusFor(r))];
      assert d[|updates|] == r && d[|updates|..][1..] == d[|updates| + 1..];
    case _ =>
  }

  /** First in, first out: statuses are queued and acknowledged in the order their results were delivered. */
  lemma {:induction false} DeliveryOrder(states: seq<State>, steps: seq<Step>, c: nat, j: nat)
    requires IsTaskRun(states, steps) && j < |states| && c < |states[0].consumers|
    ensures c < |states[j].consumers| && InOrder(states[j].consumers[c], Delivered(states, steps, c, j))
  {
    if j == 0 {
      assert Fresh(states[0].consumers[c]);
    } else {
      DeliveryOrder(states, steps, c, j - 1);
      assert StepAt(states, steps, j - 1);
      OrderStep(states[j - 1], steps[j - 1], states[j], c, Delivered(states, steps, c, j - 1));
    }
  }

  lemma OrderStep(s: State, step: Step, s': State, c: nat, d: seq<Result>)
    requires Next(s, step, s') && c < |s.consumers| && InOrder(s.consumers[c], d)
    ensures c < |s'.consumers|
    ensures InOrder(
      s'.consumers[c], if step.Of? && step.consumer == c then d + DeliveredBy(s.consumers[c].pool, step.local) else d)
  {
    var k, k' := s.consumers[c], s'.consumers[c];
    if step.Of? && step.consumer == c {
      LocalInOrder(k, step.local, k', d);
    } else if step.WriteStatuses? && step.consumer == c {
      assert k'.acked + k'.statusBatch == k.acked + k.statusBatch;
    }
  }
}
