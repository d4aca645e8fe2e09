/**
 The worker pool (internal/scraper/worker_pool.go) as seen by the goroutine that submits.

 `jobs` is unbuffered, so a submit needs an idle worker; `results` has one slot per worker.
 The submitting goroutine is also the only reader of `results`, so while it submits a batch
 nothing is drained: only the three steps below can happen, until the pool is cancelled.
 */
module WorkerPool {

  datatype Worker = Idle | Busy(task: int) | Done(task: int, ok: bool)

  datatype Result = Result(task: int, ok: bool)

  /** `waiting`: the tasks of the current claim that are still to be submitted. */
  datatype Pool = Pool(waiting: seq<int>, workers: seq<Worker>, results: seq<Result>)

  ghost predicate Submit(p: Pool, p': Pool, w: nat) {
    && w < |p.workers| && p.workers[w].Idle? && p.waiting != []
    && p' == p.(waiting := p.waiting[1..], workers := p.workers[w := Busy(p.waiting[0])])
  }

  /** `Process` returns, with or without an error. */
  ghost predicate Finish(p: Pool, p': Pool, w: nat, ok: bool) {
    && w < |p.workers| && p.workers[w].Busy?
    && p' == p.(workers := p.workers[w := Done(p.workers[w].task, ok)])
  }

  ghost predicate Deliver(p: Pool, p': Pool, w: nat) {
    && w < |p.workers| && p.workers[w].Done? && |p.results| < |p.workers|
    && p' == p.(workers := p.workers[w := Idle],
                results := p.results + [Result(p.workers[w].task, p.workers[w].ok)])
  }

  ghost predicate PoolStep(p: Pool, p': Pool) {
    || (exists w: nat :: Submit(p, p', w))
    || (exists w: nat, ok: bool :: Finish(p, p', w, ok))
    || (exists w: nat :: Deliver(p, p', w))
  }

  /** A step of the pool by name. */
  datatype Move = Submitting(worker: nat) | Finishing(worker: nat, ok: bool) | Delivering(worker: nat)

  ghost predicate MovesBy(p: Pool, move: Move, p': Pool) {
    match move
    case Submitting(w) => Submit(p, p', w)
    case Finishing(w, ok) => Finish(p, p', w, ok)
    case Delivering(w) => Deliver(p, p', w)
  }

  /** What `Process` returns in a step: the task and whether there was no error. */
  function Returned(p: Pool, move: Move): seq<Result> {
    if move.Finishing? && move.worker < |p.workers| && p.workers[move.worker].Busy?
    then [Result(p.workers[move.worker].task, move.ok)] else []
  }

  lemma MoveIsStep(p: Pool, move: Move, p': Pool)
    requires MovesBy(p, move, p')
    ensures PoolStep(p, p')
  {
  }

  lemma StepIsMove(p: Pool, p': Pool) returns (move: Move)
    requires PoolStep(p, p')
    ensures MovesBy(p, move, p')
  {
    if w: nat :| Submit(p, p', w) {
      move := Submitting(w);
    } else if w: nat, ok: bool :| Finish(p, p', w, ok) {
      move := Finishing(w, ok);
    } else {
      var w: nat :| Deliver(p, p', w);
      move := Delivering(w);
    }
  }

  ghost predicate Stuck(p: Pool) {
    forall p' :: !PoolStep(p, p')
  }

  // ---------------------------------------------------------------- counting workers

  datatype Kind = KIdle | KBusy | KDone

  function KindOf(w: Worker): Kind {
    match w
    case Idle => KIdle
    case Busy(_) => KBusy
    case Done(_, _) => KDone
  }

  function Is(w: Worker, k: Kind): nat {
    if KindOf(w) == k then 1 else 0
  }

  function Count(ws: seq<Worker>, k: Kind): nat {
    if ws == [] then 0 else Is(ws[0], k) + Count(ws[1..], k)
  }

  lemma {:induction false} CountUpdate(ws: seq<Worker>, i: nat, w: Worker, k: Kind)
    requires i < |ws|
    ensures Count(ws[i := w], k) == Count(ws, k) - Is(ws[i], k) + Is(w, k)
  {
    if i == 0 {
      assert ws[i := w][1..] == ws[1..];
    } else {
      CountUpdate(ws[1..], i - 1, w, k);
      assert ws[i := w][1..] == ws[1..][i - 1 := w];
    }
  }

  lemma {:induction false} CountTotal(ws: seq<Worker>)
    ensures Count(ws, KIdle) + Count(ws, KBusy) + Count(ws, KDone) == |ws|
  {
    if ws != [] {
      CountTotal(ws[1..]);
    }
  }

  lemma {:induction false} CountPositive(ws: seq<Worker>, k: Kind)
    ensures Count(ws, k) > 0 <==> exists i :: 0 <= i < |ws| && KindOf(ws[i]) == k
  {
    if ws != [] {
      CountPositive(ws[1..], k);
      if exists i :: 0 <= i < |ws| && KindOf(ws[i]) == k {
        var i :| 0 <= i < |ws| && KindOf(ws[i]) == k;
        assert i > 0 ==> KindOf(ws[1..][i - 1]) == k;
      }
      if exists i :: 0 <= i < |ws[1..]| && KindOf(ws[1..][i]) == k {
        var i :| 0 <= i < |ws[1..]| && KindOf(ws[1..][i]) == k;
        assert KindOf(ws[i + 1]) == k;
      }
      assert KindOf(ws[0]) == k ==> Count(ws, k) > 0;
    }
  }

  // ---------------------------------------------------------------- progress

  /** Unread tasks in the pool: held by a worker or waiting in the results buffer. */
  function Load(p: Pool): nat {
    Count(p.workers, KBusy) + Count(p.workers, KDone) + |p.results|
  }

  function Total(p: Pool): nat {
    Load(p) + |p.waiting|
  }

  ghost predicate PoolInv(p: Pool) {
    |p.results| <= |p.workers|
  }

  /** Steps left at most: a waiting task takes three, a running one two, a finished one one. */
  function Remaining(p: Pool): nat {
    3 * |p.waiting| + 2 * Count(p.workers, KBusy) + Count(p.workers, KDone)
  }

  lemma StepFacts(p: Pool, p': Pool)
    requires PoolInv(p) && PoolStep(p, p')
    ensures PoolInv(p') && |p'.workers| == |p.workers|
    ensures Total(p') == Total(p)
    ensures Remaining(p') < Remaining(p)
  {
    if w: nat :| Submit(p, p', w) {
      CountUpdates(p.workers, w, p'.workers[w]);
    } else if w: nat, ok: bool :| Finish(p, p', w, ok) {
      CountUpdates(p.workers, w, p'.workers[w]);
    } else {
      var w: nat :| Deliver(p, p', w);
      CountUpdates(p.workers, w, p'.workers[w]);
    }
  }

  lemma CountUpdates(ws: seq<Worker>, i: nat, w: Worker)
    requires i < |ws|
    ensures forall k :: Count(ws[i := w], k) == Count(ws, k) - Is(ws[i], k) + Is(w, k)
  {
    forall k ensures Count(ws[i := w], k) == Count(ws, k) - Is(ws[i], k) + Is(w, k)
    {
      CountUpdate(ws, i, w, k);
    }
  }

  /** No step is enabled exactly when nobody runs, nobody can start and nobody can deliver. */
  lemma StuckIff(p: Pool)
    requires PoolInv(p)
    ensures Stuck(p) <==>
      && Count(p.workers, KBusy) == 0
      && (p.waiting == [] || Count(p.workers, KIdle) == 0)
      && (Count(p.workers, KDone) == 0 || |p.results| == |p.workers|)
  {
    CountPositive(p.workers, KBusy);
    CountPositive(p.workers, KIdle);
    CountPositive(p.workers, KDone);
    if Count(p.workers, KBusy) > 0 {
      var w: nat :| w < |p.workers| && KindOf(p.workers[w]) == KBusy;
      var p' := p.(workers := p.workers[w := Done(p.workers[w].task, true)]);
      assert Finish(p, p', w, true) && PoolStep(p, p');
    } else if p.waiting != [] && Count(p.workers, KIdle) > 0 {
      var w: nat :| w < |p.workers| && KindOf(p.workers[w]) == KIdle;
      var p' := p.(waiting := p.waiting[1..], workers := p.workers[w := Busy(p.waiting[0])]);
      assert Submit(p, p', w) && PoolStep(p, p');
    } else if Count(p.workers, KDone) > 0 && |p.results| < |p.workers| {
      var w: nat :| w < |p.workers| && KindOf(p.workers[w]) == KDone;
      var p' := p.(workers := p.workers[w := Idle],
                   results := p.results + [Result(p.workers[w].task, p.workers[w].ok)]);
      assert Deliver(p, p', w) && PoolStep(p, p');
    }
    if !Stuck(p) {
      var p' :| PoolStep(p, p');
      if w: nat :| Submit(p, p', w) {
        assert KindOf(p.workers[w]) == KIdle;
      } else if w: nat, ok: bool :| Finish(p, p', w, ok) {
        assert KindOf(p.workers[w]) == KBusy;
      } else {
        var w: nat :| Deliver(p, p', w);
        assert KindOf(p.workers[w]) == KDone;
      }
    }
  }

  /** What a pool left to itself ends with: everything beyond two tasks per worker is not submitted. */
  function Unsubmitted(p: Pool): nat {
    if Total(p) <= 2 * |p.workers| then 0 else Total(p) - 2 * |p.workers|
  }

  lemma StuckState(p: Pool)
    requires PoolInv(p) && Stuck(p)
    ensures |p.waiting| == Unsubmitted(p)
  {
    StuckIff(p);
    CountTotal(p.workers);
  }

  ghost predicate IsRun(run: seq<Pool>) {
    run != [] && forall i :: 0 <= i < |run| - 1 ==> PoolStep(run[i], run[i + 1])
  }

  ghost predicate IsMaximal(run: seq<Pool>) {
    IsRun(run) && Stuck(run[|run| - 1])
  }

  /** Every run is finite, and its length is bounded by the work in the first state. */
  lemma {:induction false} RunFacts(run: seq<Pool>)
    requires IsRun(run) && PoolInv(run[0])
    ensures var last := run[|run| - 1];
      && PoolInv(last)
      && |last.workers| == |run[0].workers|
      && Total(last) == Total(run[0])
      && |run| - 1 <= Remaining(run[0]) - Remaining(last)
  {
    if |run| > 1 {
      var front := run[..|run| - 1];
      forall i | 0 <= i < |front| - 1 ensures PoolStep(front[i], front[i + 1]) {
        assert PoolStep(run[i], run[i + 1]);
      }
      RunFacts(front);
      StepFacts(run[|run| - 2], run[|run| - 1]);
    }
  }

  lemma {:induction false} MaximalRunExists(p: Pool) returns (run: seq<Pool>)
    requires PoolInv(p)
    ensures IsMaximal(run) && run[0] == p
    decreases Remaining(p)
  {
    if Stuck(p) {
      run := [p];
    } else {
      var p' :| PoolStep(p, p');
      StepFacts(p, p');
      var rest := MaximalRunExists(p');
      run := [p] + rest;
      forall i | 0 <= i < |run| - 1 ensures PoolStep(run[i], run[i + 1]) {
        if i > 0 {
          assert PoolStep(rest[i - 1], rest[i]);
        }
      }
    }
  }

  /** However the workers are scheduled, the same number of submits is left over at the end. */
  lemma MaximalRunEnd(run: seq<Pool>)
    requires IsMaximal(run) && PoolInv(run[0])
    ensures |run[|run| - 1].waiting| == Unsubmitted(run[0])
  {
    RunFacts(run);
    StuckState(run[|run| - 1]);
  }

  ghost predicate AlwaysFinishes(p: Pool) {
    forall run: seq<Pool> :: IsMaximal(run) && run[0] == p ==> run[|run| - 1].waiting == []
  }

  /**
   The exact capacity bound: the submits finish under every schedule if and only if the
   unread tasks and the tasks to submit together number at most twice the workers.
   Beyond that every schedule blocks the submitter for good.
   */
  lemma CapacityBound(p: Pool)
    requires PoolInv(p)
    ensures AlwaysFinishes(p) <==> Total(p) <= 2 * |p.workers|
    ensures Total(p) > 2 * |p.workers| ==>
      forall run: seq<Pool> :: IsMaximal(run) && run[0] == p ==> run[|run| - 1].waiting != []
  {
    forall run: seq<Pool> | IsMaximal(run) && run[0] == p ensures |run[|run| - 1].waiting| == Unsubmitted(p) {
      MaximalRunEnd(run);
    }
    var run := MaximalRunExists(p);
  }

  /** Ten tasks into the five workers of cmd/main.go are safe exactly from an empty pool. */
  lemma TenIntoFive(p: Pool)
    requires PoolInv(p) && |p.workers| == 5 && |p.waiting| == 10
    ensures AlwaysFinishes(p) <==> Load(p) == 0
  {
    CapacityBound(p);
  }
}
