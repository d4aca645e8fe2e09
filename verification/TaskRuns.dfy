/** What every run of the task queue satisfies, for any number of consumers and workers. */
module TaskRuns {
  import opened TaskQueue
  import opened TaskQueueLaws

  ghost predicate IsTaskRun(states: seq<State>, steps: seq<Step>) {
    && |states| == |steps| + 1
    && Init(states[0])
    && forall i :: 0 <= i < |steps| ==> StepAt(states, steps, i)
  }

  ghost predicate StepAt(states: seq<State>, steps: seq<Step>, i: nat)
    requires |states| == |steps| + 1 && i < |steps|
  {
    Next(states[i], steps[i], states[i + 1])
  }

  /** A run goes on with one more step. */
  lemma RunGoesOn(states: seq<State>, steps: seq<Step>, step: Step, s': State)
    requires IsTaskRun(states, steps) && Next(states[|states| - 1], step, s')
    ensures IsTaskRun(states + [s'], steps + [step])
  {
    var states', steps' := states + [s'], steps + [step];
    forall i: nat | i < |steps'| ensures StepAt(states', steps', i) {
      if i < |steps| {
        assert StepAt(states, steps, i);
      }
    }
  }

  lemma {:induction false} RunKeepsInv(states: seq<State>, steps: seq<Step>, i: nat)
    requires IsTaskRun(states, steps) && i < |states|
    ensures Inv(states[i])
  {
    if i == 0 {
      InitHolds(states[0]);
    } else {
      RunKeepsInv(states, steps, i - 1);
      assert StepAt(states, steps, i - 1);
      NextKeeps(states[i - 1], steps[i - 1], states[i]);
    }
  }

  /** A task is claimed at most once in the whole run, and no status batch names it twice. */
  lemma ClaimedAtMostOnce(states: seq<State>, steps: seq<Step>, i: nat, c: nat, id: int)
    requires IsTaskRun(states, steps) && i < |states| && c < |states[i].consumers|
    ensures Claims(states[i], id) <= 1
    ensures InUpdates(states[i].consumers[c].statusBatch, id) <= 1
  {
    RunKeepsInv(states, steps, i);
    var k := states[i].consumers[c];
    assert ConsumerInv(k);
    assert Places(k, id) == k.claimed[id];
    ClaimedOfOne(states[i].consumers, c, id);
  }

  /**
   Conservation: until its pool is cancelled, every task a consumer claimed is in exactly
   one place: to be submitted, with a worker, in the results buffer, in the status batch,
   or recorded.
   */
  lemma ExactlyOnePlace(states: seq<State>, steps: seq<Step>, i: nat, c: nat, id: int)
    requires IsTaskRun(states, steps) && i < |states| && c < |states[i].consumers|
    requires states[i].consumers[c].phase == Live
    ensures var k := states[i].consumers[c];
      InTasks(k.pool.waiting, id) + InWorkers(k.pool.workers, id) + InResults(k.pool.results, id)
      + InUpdates(k.statusBatch, id) + InUpdates(k.acked, id)
      == if id in k.claimed then 1 else 0
  {
    RunKeepsInv(states, steps, i);
    var k := states[i].consumers[c];
    assert ConsumerInv(k);
    assert Places(k, id) == k.claimed[id];
    if id in k.claimed {
      SoleOwner(states[i], c, c, id);
    }
  }

  /**
   After shutdown the consumer's tasks whose rows are still running are exactly the ones
   given up or left in the results buffer, and those whose status no statement has written.
   */
  lemma LeftAfterShutdown(states: seq<State>, steps: seq<Step>, i: nat, c: nat, id: int)
    requires IsTaskRun(states, steps) && i < |states| && c < |states[i].consumers|
    requires states[i].consumers[c].phase == Stopped
    requires id in states[i].consumers[c].claimed && id in states[i].rows
    ensures var k := states[i].consumers[c];
      states[i].rows[id].status == Running <==>
        || id in k.dropped
        || InResults(k.pool.results, id) > 0
        || (Names(k.statusBatch, id) && id !in k.written)
  {
    RunKeepsInv(states, steps, i);
    var s, k := states[i], states[i].consumers[c];
    assert ConsumerInv(k) && RowsFit(s.rows, k);
    SoleOwner(s, c, c, id);
    assert Places(k, id) == 1;
    IdleHoldNothing(k.pool.workers, id);
    UpdatesNamed(k.statusBatch, id);
    UpdatesNamed(k.acked, id);
  }

  // ---------------------------------------------------------------- the life of a row

  lemma {:induction false} IdsGrow(states: seq<State>, steps: seq<Step>, i: nat, j: nat)
    requires IsTaskRun(states, steps) && i <= j < |states|
    ensures states[i].nextId <= states[j].nextId
  {
    if i < j {
      IdsGrow(states, steps, i, j - 1);
      assert StepAt(states, steps, j - 1);
    }
  }

  lemma NoRowReturns(s: State, step: Step, s': State, id: int)
    requires Next(s, step, s') && id < s.nextId && id in s'.rows
    ensures id in s.rows
  {
  }

  /** One step of a run, seen from a row that exists after it. */
  lemma RowStep(states: seq<State>, steps: seq<Step>, j: nat, id: int)
    requires IsTaskRun(states, steps) && 0 < j < |states| && id in states[j].rows
    ensures id in states[j - 1].rows ==> Moves(states[j - 1].rows[id].status, states[j].rows[id].status)
    ensures id !in states[j - 1].rows ==> id == states[j - 1].nextId && states[j].rows[id].status == Pending
  {
    RunKeepsInv(states, steps, j - 1);
    RunKeepsInv(states, steps, j);
    assert StepAt(states, steps, j - 1);
    if id < states[j - 1].nextId {
      NoRowReturns(states[j - 1], steps[j - 1], states[j], id);
    }
    assert 0 <= id < states[j].nextId;
    NextKeeps(states[j - 1], steps[j - 1], states[j]);
  }

  /** What several steps may do to a status. */
  predicate MayBecome(a: Status, b: Status) {
    a == b || a == Pending || (a == Running && b != Pending)
  }

  /** A row never comes back, and its status only moves forward. */
  lemma {:induction false} StatusMovesForward(states: seq<State>, steps: seq<Step>, i: nat, j: nat, id: int)
    requires IsTaskRun(states, steps) && i <= j < |states|
    requires id < states[i].nextId && id in states[j].rows
    ensures id in states[i].rows && MayBecome(states[i].rows[id].status, states[j].rows[id].status)
  {
    if i < j {
      IdsGrow(states, steps, i, j - 1);
      RowStep(states, steps, j, id);
      StatusMovesForward(states, steps, i, j - 1, id);
    }
  }

  ghost predicate Has(s: State, id: int, status: Status) {
    id in s.rows && s.rows[id].status == status
  }

  /** The row is absent, then pending, then running, then has one terminal status. */
  ghost predicate Life(states: seq<State>, id: int, born: nat, claimed: nat, ended: nat, end: nat, outcome: Status) {
    && born < claimed <= ended <= end <= |states| && (claimed == ended ==> claimed == end)
    && (forall m :: 0 <= m < born ==> id !in states[m].rows)
    && (forall m :: born <= m < claimed ==> Has(states[m], id, Pending))
    && (forall m :: claimed <= m < ended ==> Has(states[m], id, Running))
    && (forall m :: ended <= m < end ==> Has(states[m], id, outcome))
    && (outcome == Complete || outcome == Error)
  }

  lemma NotYetBorn(states: seq<State>, steps: seq<Step>, j: nat, id: int, m: nat)
    requires IsTaskRun(states, steps) && m < j < |states| && id == states[j - 1].nextId
    ensures id !in states[m].rows
  {
    IdsGrow(states, steps, m, j - 1);
    RunKeepsInv(states, steps, m);
    assert TableInv(states[m]);
  }

  /**
   The whole life of a row up to any point of a run at which it exists: inserted pending, then
   running, then complete or error, no stage left out and none entered twice.
   */
  lemma {:induction false} LifeOfRow(states: seq<State>, steps: seq<Step>, j: nat, id: int)
    returns (born: nat, claimed: nat, ended: nat, outcome: Status)
    requires IsTaskRun(states, steps) && j < |states| && id in states[j].rows
    ensures Life(states, id, born, claimed, ended, j + 1, outcome)
  {
    if j == 0 {
      assert false;
    }
    RowStep(states, steps, j, id);
    if id in states[j - 1].rows {
      born, claimed, ended, outcome := LifeOfRow(states, steps, j - 1, id);
      var before, now := states[j - 1].rows[id].status, states[j].rows[id].status;
      assert Has(states[j - 1], id, before) && Has(states[j], id, now);
      if now == Pending {
        claimed, ended := j + 1, j + 1;
      } else if now == Running {
        ended := j + 1;
      } else {
        outcome := now;
      }
    } else {
      forall m: nat | m < j ensures id !in states[m].rows {
        NotYetBorn(states, steps, j, id, m);
      }
      born, claimed, ended, outcome := j, j + 1, j + 1, Complete;
    }
  }

  /** A recorded outcome never changes, however often failed batches are retried. */
  lemma TerminalForever(states: seq<State>, steps: seq<Step>, i: nat, j: nat, id: int)
    requires IsTaskRun(states, steps) && i <= j < |states|
    requires id in states[i].rows && id in states[j].rows
    requires states[i].rows[id].status == Complete || states[i].rows[id].status == Error
    ensures states[j].rows[id].status == states[i].rows[id].status
  {
    RunKeepsInv(states, steps, i);
    StatusMovesForward(states, steps, i, j, id);
  }

  /** No inserted task disappears unclaimed: cleanup never deletes a pending one. */
  lemma NeverLostUnclaimed(states: seq<State>, steps: seq<Step>, i: nat, j: nat, id: int)
    requires IsTaskRun(states, steps) && i <= j < |states|
    requires id in states[i].rows && Claims(states[j], id) == 0
    ensures id in states[j].rows && states[j].rows[id].status == Pending
  {
    RunKeepsInv(states, steps, i);
    RunKeepsInv(states, steps, j);
    IdsGrow(states, steps, i, j);
    assert 0 <= id < states[i].nextId;
  }

  // ---------------------------------------------------------------- reports

  lemma {:induction false} CompletedCount(us: seq<Update>, id: int)
    ensures InCompleted(us, id) <= InUpdates(us, id)
    ensures Update(id, Complete) in us <==> InCompleted(us, id) > 0
  {
    if us != [] {
      CompletedCount(us[1..], id);
      assert forall u :: u in us <==> u == us[0] || u in us[1..];
    }
  }

  /**
   The report of a completed task was saved by exactly one acknowledged call or is still
   queued, and there is no other.
   */
  lemma ReportOnce(states: seq<State>, steps: seq<Step>, i: nat, c: nat, id: int)
    requires IsTaskRun(states, steps) && i < |states| && c < |states[i].consumers|
    ensures var k := states[i].consumers[c];
      InTasks(k.statBatch, id) + k.saved[id]
      == if Update(id, Complete) in k.statusBatch || Update(id, Complete) in k.acked then 1 else 0
  {
    RunKeepsInv(states, steps, i);
    var s, k := states[i], states[i].consumers[c];
    assert ConsumerInv(k) && ReportsMatch(k);
    CompletedCount(k.statusBatch, id);
    CompletedCount(k.acked, id);
    assert Places(k, id) == k.claimed[id];
    ClaimedOfOne(s.consumers, c, id);
    assert Claims(s, id) <= 1;
  }
}
