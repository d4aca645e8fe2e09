/**
 The goroutine that submits is the one that drains: how a consumer comes to block in `Submit`
 (internal/scraper/task_consumer.go:200-219, internal/scraper/worker_pool.go:78-83).
 */
module TaskBlocking {
  import opened WorkerPool
  import opened TaskQueue
  import opened TaskRuns

  // ---------------------------------------------------------------- the blocked submitter

  lemma BlockedStep(s: State, step: Step, s': State, c: nat)
    requires Next(s, step, s') && c < |s.consumers| && step != Of(c, ParentCancel)
    requires s.consumers[c].phase == Live && s.consumers[c].pool.waiting != [] && Stuck(s.consumers[c].pool)
    ensures c < |s'.consumers| && s'.consumers[c] == s.consumers[c]
  {
    if step.Of? && step.consumer == c && step.local.PoolMove? {
      MoveIsStep(s.consumers[c].pool, step.local.move, s'.consumers[c].pool);
    }
  }

  /**
   A consumer blocked in `Submit` with a full pool stays exactly as it is for good, whatever the
   rest of the system does and whoever calls its `Stop`: only the event loop acts on that, and
   it is the event loop that is blocked. The one way out is to cancel the context the pool was
   made with, which cmd/main.go never does.
   */
  lemma {:induction false} BlockedForGood(states: seq<State>, steps: seq<Step>, i: nat, j: nat, c: nat)
    requires IsTaskRun(states, steps) && i <= j < |states| && c < |states[i].consumers|
    requires forall m :: i <= m < j ==> steps[m] != Of(c, ParentCancel)
    requires
      var k := states[i].consumers[c];
      k.phase == Live && k.pool.waiting != [] && Stuck(k.pool)
    ensures c < |states[j].consumers| && states[j].consumers[c] == states[i].consumers[c]
  {
    if i < j {
      BlockedForGood(states, steps, i, j - 1, c);
      assert StepAt(states, steps, j - 1);
      BlockedStep(states[j - 1], steps[j - 1], states[j], c);
    }
  }

  /** Ten unread tasks, ten more, five workers: under every schedule none of the second ten is submitted. */
  lemma SecondBatchBlocks(p: Pool, run: seq<Pool>)
    requires PoolInv(p) && |p.workers| == 5 && |p.waiting| == TASKS_PER_REQUEST && Load(p) == TASKS_PER_REQUEST
    requires IsMaximal(run) && run[0] == p
    ensures |run[|run| - 1].waiting| == TASKS_PER_REQUEST
  {
    MaximalRunEnd(run);
  }

  // ---------------------------------------------------------------- claims that fit

  /** Every claim of consumer `c` fits: with what is unread in its pool it is at most two tasks per worker. */
  ghost predicate ClaimsFit(states: seq<State>, steps: seq<Step>, c: nat)
    requires |states| == |steps| + 1
  {
    forall i :: 0 <= i < |steps| && steps[i].Claim? && steps[i].consumer == c && c < |states[i].consumers| ==>
      Load(states[i].consumers[c].pool) + |steps[i].ids| <= 2 * |states[i].consumers[c].pool.workers|
  }

  lemma LocalLoad(k: Consumer, local: Local, k': Consumer)
    requires PoolInv(k.pool) && LocalStep(k, local, k')
    ensures Total(k'.pool) <= Total(k.pool) && |k'.pool.workers| == |k.pool.workers|
  {
    if local.PoolMove? {
      StepFacts(k.pool, k'.pool);
    } else if local.DropResult? {
      CountUpdates(k.pool.workers, local.worker, Idle);
    }
  }

  lemma LoadStep(s: State, step: Step, s': State, c: nat)
    requires Next(s, step, s') && c < |s.consumers| && PoolInv(s.consumers[c].pool)
    requires Total(s.consumers[c].pool) <= 2 * |s.consumers[c].pool.workers|
    requires step.Claim? && step.consumer == c ==>
      Load(s.consumers[c].pool) + |step.ids| <= 2 * |s.consumers[c].pool.workers|
    ensures c < |s'.consumers| && Total(s'.consumers[c].pool) <= 2 * |s'.consumers[c].pool.workers|
  {
    if step.Of? && step.consumer == c {
      LocalLoad(s.consumers[c], step.local, s'.consumers[c]);
    }
  }

  lemma {:induction false} LoadStays(states: seq<State>, steps: seq<Step>, c: nat, j: nat)
    requires IsTaskRun(states, steps) && ClaimsFit(states, steps, c) && c < |states[0].consumers| && j < |states|
    ensures c < |states[j].consumers| && PoolInv(states[j].consumers[c].pool)
    ensures Total(states[j].consumers[c].pool) <= 2 * |states[j].consumers[c].pool.workers|
  {
    if j == 0 {
      assert Fresh(states[0].consumers[c]);
      NoneBusy(states[0].consumers[c].pool.workers);
    } else {
      LoadStays(states, steps, c, j - 1);
      assert StepAt(states, steps, j - 1);
      LoadStep(states[j - 1], steps[j - 1], states[j], c);
    }
    RunKeepsInv(states, steps, j);
    assert ConsumerInv(states[j].consumers[c]);
  }

  /**
   The capacity bound over whole runs: a consumer whose claims fit never blocks, and in every
   state of the run its submits are sure to finish.
   */
  lemma FittingClaimsNeverBlock(states: seq<State>, steps: seq<Step>, c: nat, j: nat)
    requires IsTaskRun(states, steps) && ClaimsFit(states, steps, c) && c < |states[0].consumers| && j < |states|
    ensures c < |states[j].consumers| && AlwaysFinishes(states[j].consumers[c].pool)
    ensures Stuck(states[j].consumers[c].pool) ==> states[j].consumers[c].pool.waiting == []
  {
    LoadStays(states, steps, c, j);
    CapacityBound(states[j].consumers[c].pool);
    if Stuck(states[j].consumers[c].pool) {
      StuckState(states[j].consumers[c].pool);
    }
  }

  // ---------------------------------------------------------------- pool runs inside system runs

  ghost function Last(states: seq<State>): State
    requires states != []
  {
    states[|states| - 1]
  }

  /** Only the pool of consumer `c` has moved on, and `Process` has returned `outcomes` by now. */
  function WithPool(s: State, c: nat, p: Pool, outcomes: seq<Result>): State
    requires c < |s.consumers|
  {
    s.(consumers := s.consumers[c := s.consumers[c].(pool := p, outcomes := outcomes)])
  }

  /** Tasks arrive and are claimed, workers work; nothing is drained and nobody is cancelled. */
  predicate Undrained(step: Step) {
    step.Insert? || step.Claim? || (step.Of? && step.local.PoolMove?)
  }

  ghost predicate UndrainedRun(states: seq<State>, steps: seq<Step>) {
    IsTaskRun(states, steps) && forall i :: 0 <= i < |steps| ==> Undrained(steps[i])
  }

  lemma OneMoreStep(states: seq<State>, steps: seq<Step>, step: Step, s': State)
    requires UndrainedRun(states, steps) && Undrained(step) && Next(Last(states), step, s')
    ensures UndrainedRun(states + [s'], steps + [step])
  {
    RunGoesOn(states, steps, step, s');
  }

  /** A run of one consumer's pool is a run of the whole system. */
  lemma {:induction false} PoolRunLifts(states: seq<State>, steps: seq<Step>, c: nat, run: seq<Pool>)
    returns (states': seq<State>, steps': seq<Step>)
    requires UndrainedRun(states, steps) && c < |Last(states).consumers|
    requires IsRun(run) && run[0] == Last(states).consumers[c].pool
    ensures UndrainedRun(states', steps') && states <= states' && steps <= steps'
    ensures c < |Last(states').consumers|
    ensures Last(states') == WithPool(Last(states), c, run[|run| - 1], Last(states').consumers[c].outcomes)
    decreases |run|
  {
    if |run| == 1 {
      states', steps' := states, steps;
    } else {
      var n := |run| - 1;
      forall i | 0 <= i < n - 1 ensures PoolStep(run[..n][i], run[..n][i + 1]) {
        assert PoolStep(run[i], run[i + 1]);
      }
      states', steps' := PoolRunLifts(states, steps, c, run[..n]);
      assert PoolStep(run[n - 1], run[n]);
      var move := StepIsMove(run[n - 1], run[n]);
      var k := Last(states').consumers[c];
      var s' := WithPool(Last(states'), c, run[n], k.outcomes + Returned(k.pool, move));
      assert LocalStep(k, PoolMove(move), s'.consumers[c]);
      assert Next(Last(states'), Of(c, PoolMove(move)), s');
      OneMoreStep(states', steps', Of(c, PoolMove(move)), s');
      states', steps' := states' + [s'], steps' + [Of(c, PoolMove(move))];
    }
  }

  // ---------------------------------------------------------------- filling a pool

  /** One consumer with `w` workers has `n` undrained tasks, and those up to `rows` are still pending. */
  ghost predicate Filled(s: State, w: nat, n: nat, rows: nat) {
    && |s.consumers| == 1 && s.nextId == rows
    && (forall id :: n <= id < rows ==> Has(s, id, Pending))
    && var k := s.consumers[0];
       && k.phase == Live && PoolInv(k.pool) && |k.pool.workers| == w
       && Total(k.pool) == n && |k.claimed| == n
  }

  lemma {:induction false} NoneBusy(ws: seq<Worker>)
    requires forall x :: x in ws ==> x.Idle?
    ensures Count(ws, KBusy) == 0 && Count(ws, KDone) == 0
  {
    if ws != [] {
      assert ws[0] in ws;
      NoneBusy(ws[1..]);
    }
  }

  /** A fresh consumer, and `rows` tasks inserted. */
  lemma {:induction false} Arrivals(w: nat, rows: nat) returns (states: seq<State>, steps: seq<Step>)
    ensures UndrainedRun(states, steps) && Filled(Last(states), w, 0, rows)
    ensures Last(states).consumers[0].pool.waiting == []
  {
    if rows == 0 {
      var workers := seq(w, _ => Idle);
      NoneBusy(workers);
      var k := Consumer(
        Live, Pool([], workers, []), [], [], [], multiset{}, multiset{}, [], {}, multiset{}, multiset{});
      states, steps := [State(map[], 0, [k], multiset{})], [];
    } else {
      states, steps := Arrivals(w, rows - 1);
      var s := Last(states);
      var s' := s.(rows := s.rows[s.nextId := Row(Pending, 0)], nextId := s.nextId + 1);
      OneMoreStep(states, steps, Insert(0), s');
      forall id | 0 <= id < rows ensures Has(s', id, Pending) {
        assert id < rows - 1 ==> Has(s, id, Pending);
      }
      states, steps := states + [s'], steps + [Insert(0)];
    }
  }

  /** The consumer claims the next ten tasks. */
  lemma ClaimTen(states: seq<State>, steps: seq<Step>, w: nat, n: nat, rows: nat)
    returns (states': seq<State>, steps': seq<Step>)
    requires UndrainedRun(states, steps) && Filled(Last(states), w, n, rows) && n + TASKS_PER_REQUEST <= rows
    requires Last(states).consumers[0].pool.waiting == []
    ensures UndrainedRun(states', steps') && Filled(Last(states'), w, n + TASKS_PER_REQUEST, rows)
  {
    var s := Last(states);
    var k := s.consumers[0];
    var ids := seq(TASKS_PER_REQUEST, i => n + i);
    forall id | id in ids ensures n <= id < n + TASKS_PER_REQUEST && Has(s, id, Pending) {
      var i :| 0 <= i < |ids| && ids[i] == id;
      assert n <= id < rows;
    }
    var k' := k.(pool := k.pool.(waiting := ids), claimed := k.claimed + multiset(ids));
    var s' := s.(rows := MarkRunning(s.rows, ids), consumers := s.consumers[0 := k']);
    OneMoreStep(states, steps, Claim(0, ids), s');
    forall id | n + TASKS_PER_REQUEST <= id < rows ensures Has(s', id, Pending) {
      assert Has(s, id, Pending) && id !in ids;
    }
    states', steps' := states + [s'], steps + [Claim(0, ids)];
  }

  /** The pool runs until nothing in it can move. */
  lemma RunPool(states: seq<State>, steps: seq<Step>, w: nat, n: nat, rows: nat)
    returns (states': seq<State>, steps': seq<Step>)
    requires UndrainedRun(states, steps) && Filled(Last(states), w, n, rows)
    ensures UndrainedRun(states', steps') && Filled(Last(states'), w, n, rows)
    ensures Stuck(Last(states').consumers[0].pool)
    ensures |Last(states').consumers[0].pool.waiting| == if n <= 2 * w then 0 else n - 2 * w
  {
    var s := Last(states);
    var run := MaximalRunExists(s.consumers[0].pool);
    RunFacts(run);
    MaximalRunEnd(run);
    states', steps' := PoolRunLifts(states, steps, 0, run);
    forall id | n <= id < rows ensures Has(Last(states'), id, Pending) {
      assert Has(s, id, Pending);
    }
  }

  /** After `m` claims of ten that fit into the pool, all are taken in and nothing is drained. */
  lemma {:induction false} FillPool(w: nat, m: nat, rows: nat) returns (states: seq<State>, steps: seq<Step>)
    requires TASKS_PER_REQUEST * m <= 2 * w && TASKS_PER_REQUEST * m <= rows
    ensures UndrainedRun(states, steps) && Filled(Last(states), w, TASKS_PER_REQUEST * m, rows)
    ensures Last(states).consumers[0].pool.waiting == []
  {
    if m == 0 {
      states, steps := Arrivals(w, rows);
    } else {
      var n := TASKS_PER_REQUEST * (m - 1);
      states, steps := FillPool(w, m - 1, rows);
      states, steps := ClaimTen(states, steps, w, n, rows);
      states, steps := RunPool(states, steps, w, n + TASKS_PER_REQUEST, rows);
    }
  }

  /**
   For every number of workers a run of the whole system, without cancellation, ends with a live
   consumer blocked in `Submit`: it is enough that full claims come in one after the other and
   no result is read in between. For the five workers of cmd/main.go the second claim blocks.
   */
  lemma ClaimsBlock(w: nat) returns (states: seq<State>, steps: seq<Step>)
    ensures UndrainedRun(states, steps) && |Last(states).consumers| == 1
    ensures var k := Last(states).consumers[0];
      && k.phase == Live && |k.pool.workers| == w
      && |k.claimed| == TASKS_PER_REQUEST * (2 * w / TASKS_PER_REQUEST + 1)
      && k.pool.waiting != [] && Stuck(k.pool)
      && (w == 5 ==> |k.claimed| == 20 && |k.pool.waiting| == 10)
  {
    var m := 2 * w / TASKS_PER_REQUEST;
    var n := TASKS_PER_REQUEST * m;
    var rows := n + TASKS_PER_REQUEST;
    states, steps := FillPool(w, m, rows);
    states, steps := ClaimTen(states, steps, w, n, rows);
    states, steps := RunPool(states, steps, w, rows, rows);
  }
}
