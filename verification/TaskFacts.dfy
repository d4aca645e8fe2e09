/**
 From completed tasks to the outbox: the saves of a run of the task queue
 (internal/scraper/task_consumer.go:136-157) as calls of `SaveReports`
 (internal/storage/postgres/reports.go).
 */
module TaskFacts {
  import P = WorkerPool
  import opened TaskQueue
  import opened TaskQueueLaws
  import opened TaskRuns
  import R = Reports

  /** A task whose report was committed, and when. */
  datatype Entry = Entry(task: int, at: int)

  /** What a run is about: the report `Process` made for each task, and the time of each step. */
  datatype World = World(reportOf: int -> R.ReportRow, time: nat -> int)

  function Rows(batch: seq<int>, w: World): seq<R.ReportRow> {
    seq(|batch|, i requires 0 <= i < |batch| => w.reportOf(batch[i]))
  }

  function Entries(batch: seq<int>, at: int): seq<Entry> {
    seq(|batch|, i requires 0 <= i < |batch| => Entry(batch[i], at))
  }

  function Tasks(entries: seq<Entry>): seq<int> {
    seq(|entries|, i requires 0 <= i < |entries| => entries[i].task)
  }

  function StoredOf(entries: seq<Entry>, w: World): seq<R.Stored> {
    seq(|entries|, i requires 0 <= i < |entries| => R.Stored(w.reportOf(entries[i].task), entries[i].at))
  }

  /** Step `i` of a run is a call of `SaveReports` on `SavedBatch`. */
  ghost predicate IsSave(states: seq<State>, steps: seq<Step>, i: nat) {
    && i < |steps| && i < |states|
    && steps[i].Of? && steps[i].local.SaveReports? && steps[i].consumer < |states[i].consumers|
  }

  ghost function SavedBatch(states: seq<State>, steps: seq<Step>, i: nat): seq<int>
    requires IsSave(states, steps, i)
  {
    states[i].consumers[steps[i].consumer].statBatch
  }

  /** The calls of `SaveReports` in the first `j` steps, by whichever consumer, in order. */
  ghost function Calls(states: seq<State>, steps: seq<Step>, w: World, j: nat): seq<R.Call> {
    if j == 0 then []
    else
      var before := Calls(states, steps, w, j - 1);
      if IsSave(states, steps, j - 1)
      then before + [R.Call(Rows(SavedBatch(states, steps, j - 1), w), w.time(j - 1), steps[j - 1].local.applied)]
      else before
  }

  /** The tasks whose reports they committed. */
  ghost function Saved(states: seq<State>, steps: seq<Step>, w: World, j: nat): seq<Entry> {
    if j == 0 then []
    else
      var before := Saved(states, steps, w, j - 1);
      if IsSave(states, steps, j - 1) && steps[j - 1].local.applied
      then before + Entries(SavedBatch(states, steps, j - 1), w.time(j - 1))
      else before
  }

  lemma StoredConcat(a: seq<Entry>, b: seq<Entry>, w: World)
    ensures StoredOf(a + b, w) == StoredOf(a, w) + StoredOf(b, w)
    ensures Tasks(a + b) == Tasks(a) + Tasks(b)
  {
  }

  lemma EntriesAre(batch: seq<int>, at: int, w: World)
    ensures StoredOf(Entries(batch, at), w) == R.Stamped(Rows(batch, w), at)
    ensures Tasks(Entries(batch, at)) == batch
  {
  }

  /** What the calls commit is the reports of the saved tasks, in order. */
  lemma {:induction false} CommittedAre(states: seq<State>, steps: seq<Step>, w: World, j: nat)
    ensures R.Committed(Calls(states, steps, w, j)) == StoredOf(Saved(states, steps, w, j), w)
  {
    if j > 0 {
      CommittedAre(states, steps, w, j - 1);
      if IsSave(states, steps, j - 1) {
        var batch, at := SavedBatch(states, steps, j - 1), w.time(j - 1);
        R.CommittedSnoc(Calls(states, steps, w, j - 1), R.Call(Rows(batch, w), at, steps[j - 1].local.applied));
        EntriesAre(batch, at, w);
        StoredConcat(Saved(states, steps, w, j - 1), Entries(batch, at), w);
      }
    }
  }

  // ---------------------------------------------------------------- counting over the consumers

  datatype Account = Completed | Queued | Acked | Silent

  /** How often task `id` is in one of a consumer's accounts. */
  function Part(k: Consumer, id: int, a: Account): nat {
    match a
    case Completed => InCompleted(k.statusBatch, id) + InCompleted(k.acked, id)
    case Queued => InTasks(k.statBatch, id)
    case Acked => k.saved[id]
    case Silent => k.unacked[id]
  }

  function Sum(ks: seq<Consumer>, id: int, a: Account): nat {
    if ks == [] then 0 else Part(ks[0], id, a) + Sum(ks[1..], id, a)
  }

  lemma {:induction false} SumUpdate(ks: seq<Consumer>, i: nat, k: Consumer, id: int, a: Account)
    requires i < |ks|
    ensures Sum(ks[i := k], id, a) == Sum(ks, id, a) - Part(ks[i], id, a) + Part(k, id, a)
  {
    if i == 0 {
      assert ks[i := k][1..] == ks[1..];
    } else {
      SumUpdate(ks[1..], i - 1, k, id, a);
      assert ks[i := k][1..] == ks[1..][i - 1 := k];
    }
  }

  lemma {:induction false} SumPositive(ks: seq<Consumer>, id: int, a: Account)
    ensures Sum(ks, id, a) > 0 <==> exists i :: 0 <= i < |ks| && Part(ks[i], id, a) > 0
  {
    if ks != [] {
      SumPositive(ks[1..], id, a);
      if i :| 0 <= i < |ks| && Part(ks[i], id, a) > 0 {
        assert i > 0 ==> Part(ks[1..][i - 1], id, a) > 0;
      }
      if Part(ks[0], id, a) == 0 && Sum(ks[1..], id, a) > 0 {
        var i :| 0 <= i < |ks[1..]| && Part(ks[1..][i], id, a) > 0;
        assert Part(ks[i + 1], id, a) > 0;
      }
    }
  }

  /** Each completed task has its report queued or acknowledged, and is completed at most once. */
  lemma {:induction false} SumsMatch(ks: seq<Consumer>, id: int)
    requires forall i :: 0 <= i < |ks| ==> ConsumerInv(ks[i])
    ensures Sum(ks, id, Completed) == Sum(ks, id, Queued) + Sum(ks, id, Acked)
    ensures Sum(ks, id, Completed) <= SumClaimed(ks, id)
  {
    if ks != [] {
      SumsMatch(ks[1..], id);
      var k := ks[0];
      assert ConsumerInv(k) && Conserved(k) && ReportsMatch(k);
      assert Places(k, id) == k.claimed[id];
      CompletedCount(k.statusBatch, id);
      CompletedCount(k.acked, id);
    }
  }

  function Committed(k: Consumer, id: int): nat {
    Part(k, id, Acked) + Part(k, id, Silent)
  }

  function AllCommitted(s: State, id: int): nat {
    Sum(s.consumers, id, Acked) + Sum(s.consumers, id, Silent)
  }

  /** The reports of task `id` that a step commits. */
  function CommitsOf(s: State, step: Step, id: int): nat {
    if step.Of? && step.local.SaveReports? && step.local.applied && step.consumer < |s.consumers|
    then InTasks(s.consumers[step.consumer].statBatch, id) else 0
  }

  lemma LocalCommits(k: Consumer, local: Local, k': Consumer, id: int)
    requires LocalStep(k, local, k')
    ensures Committed(k', id)
         == Committed(k, id) + if local.SaveReports? && local.applied then InTasks(k.statBatch, id) else 0
  {
    if local.SaveReports? {
      TasksAsMultiset(k.statBatch, id);
    }
  }

  lemma CommittedUpdate(s: State, s': State, c: nat, k: Consumer, id: int)
    requires c < |s.consumers| && s'.consumers == s.consumers[c := k]
    ensures AllCommitted(s', id) == AllCommitted(s, id) - Committed(s.consumers[c], id) + Committed(k, id)
  {
    SumUpdate(s.consumers, c, k, id, Acked);
    SumUpdate(s.consumers, c, k, id, Silent);
  }

  /** A step commits a report for every task it moves into one of the two committed accounts. */
  lemma CommitStep(s: State, step: Step, s': State, id: int)
    requires Next(s, step, s')
    ensures AllCommitted(s', id) == AllCommitted(s, id) + CommitsOf(s, step, id)
  {
    match step
    case Of(c, local) =>
      LocalCommits(s.consumers[c], local, s'.consumers[c], id);
      CommittedUpdate(s, s', c, s'.consumers[c], id);
    case Claim(c, _) => CommittedUpdate(s, s', c, s'.consumers[c], id);
    case WriteStatuses(c, _, _) => CommittedUpdate(s, s', c, s'.consumers[c], id);
    case _ =>
  }

  lemma {:induction false} TasksConcat(a: seq<int>, b: seq<int>, id: int)
    ensures InTasks(a + b, id) == InTasks(a, id) + InTasks(b, id)
  {
    if a == [] {
      assert a + b == b;
    } else {
      assert (a + b)[1..] == a[1..] + b;
      TasksConcat(a[1..], b, id);
    }
  }

  lemma NothingCommitted(s: State, id: int)
    requires Init(s)
    ensures AllCommitted(s, id) == 0
  {
    SumPositive(s.consumers, id, Acked);
    SumPositive(s.consumers, id, Silent);
    assert forall i :: 0 <= i < |s.consumers| ==> Fresh(s.consumers[i]);
  }

  lemma SavedGrows(states: seq<State>, steps: seq<Step>, w: World, i: nat, id: int)
    requires i < |steps| && i < |states|
    ensures InTasks(Tasks(Saved(states, steps, w, i + 1)), id)
         == InTasks(Tasks(Saved(states, steps, w, i)), id) + CommitsOf(states[i], steps[i], id)
  {
    if IsSave(states, steps, i) && steps[i].local.applied {
      var before, batch := Saved(states, steps, w, i), SavedBatch(states, steps, i);
      EntriesAre(batch, w.time(i), w);
      StoredConcat(before, Entries(batch, w.time(i)), w);
      TasksConcat(Tasks(before), batch, id);
    }
  }

  lemma CommitAt(states: seq<State>, steps: seq<Step>, i: nat, id: int)
    requires IsTaskRun(states, steps) && i < |steps|
    ensures AllCommitted(states[i + 1], id) == AllCommitted(states[i], id) + CommitsOf(states[i], steps[i], id)
  {
    assert StepAt(states, steps, i);
    CommitStep(states[i], steps[i], states[i + 1], id);
  }

  lemma {:induction false} SavedCount(states: seq<State>, steps: seq<Step>, w: World, j: nat, id: int)
    requires IsTaskRun(states, steps) && j < |states|
    ensures InTasks(Tasks(Saved(states, steps, w, j)), id) == AllCommitted(states[j], id)
  {
    if j == 0 {
      NothingCommitted(states[0], id);
    } else {
      SavedCount(states, steps, w, j - 1, id);
      SavedGrows(states, steps, w, j - 1, id);
      CommitAt(states, steps, j - 1, id);
    }
  }

  // ---------------------------------------------------------------- facts per task

  ghost predicate IsCompleted(s: State, id: int) {
    exists c :: 0 <= c < |s.consumers|
      && (Update(id, Complete) in s.consumers[c].statusBatch || Update(id, Complete) in s.consumers[c].acked)
  }

  ghost predicate IsQueued(s: State, id: int) {
    exists c :: 0 <= c < |s.consumers| && id in s.consumers[c].statBatch
  }

  lemma CompletedIff(s: State, id: int)
    ensures IsCompleted(s, id) <==> Sum(s.consumers, id, Completed) > 0
    ensures IsQueued(s, id) <==> Sum(s.consumers, id, Queued) > 0
  {
    SumPositive(s.consumers, id, Completed);
    SumPositive(s.consumers, id, Queued);
    forall c | 0 <= c < |s.consumers|
      ensures Part(s.consumers[c], id, Queued) > 0 <==> id in s.consumers[c].statBatch
      ensures Part(s.consumers[c], id, Completed) > 0 <==>
        Update(id, Complete) in s.consumers[c].statusBatch || Update(id, Complete) in s.consumers[c].acked
    {
      var k := s.consumers[c];
      TasksAsMultiset(k.statBatch, id);
      CompletedCount(k.statusBatch, id);
      CompletedCount(k.acked, id);
    }
  }

  /**
   From the queue to the outbox, in every run and with any failures. The outbox rows ever
   inserted are the facts of the saved tasks' reports, one block per entry of `Saved`, in
   order. A task that completed and whose report is no longer queued has exactly one entry, any
   other none, and beyond that one for each commit of its report that was applied although
   the call was reported as failed.
   */
  lemma FactsOncePerTask(
    states: seq<State>, steps: seq<Step>, w: World, j: nat,
    reports: map<R.Key, R.Stored>, outbox: seq<R.Fact>, id: int)
    requires IsTaskRun(states, steps) && j < |states|
    requires R.TablesFit(Calls(states, steps, w, j), reports, outbox)
    ensures outbox == R.FactsOfStored(StoredOf(Saved(states, steps, w, j), w))
    ensures InTasks(Tasks(Saved(states, steps, w, j)), id)
         == (if IsCompleted(states[j], id) && !IsQueued(states[j], id) then 1 else 0)
            + Sum(states[j].consumers, id, Silent)
    ensures R.LastPerKey(StoredOf(Saved(states, steps, w, j), w), reports)
  {
    CommittedAre(states, steps, w, j);
    SavedCount(states, steps, w, j, id);
    RunKeepsInv(states, steps, j);
    SumsMatch(states[j].consumers, id);
    CompletedIff(states[j], id);
    assert Claims(states[j], id) <= 1;
  }

  // ---------------------------------------------------------------- runs with duplicates

  /** A single consumer with one worker, as it goes through one task. */
  function Solo(pool: P.Pool, outcomes: seq<P.Result>): Consumer {
    Consumer(Live, pool, [], [], outcomes, multiset{0}, multiset{}, [], {}, multiset{}, multiset{})
  }

  function With(k: Consumer): State {
    State(map[0 := Row(Running, 0)], 1, [k], multiset{})
  }

  /** The task is completed and its report queued; it has been committed silently `n` times. */
  function Retried(n: nat): Consumer {
    Solo(P.Pool([], [P.Idle], []), [P.Result(0, true)]).(statusBatch := [Update(0, Complete)], statBatch := [0], unacked := multiset{}[0 := n])
  }

  lemma LocalGoesOn(states: seq<State>, steps: seq<Step>, local: Local, k: Consumer, k': Consumer)
    returns (states': seq<State>, steps': seq<Step>)
    requires IsTaskRun(states, steps) && states[|states| - 1] == With(k) && LocalStep(k, local, k')
    ensures IsTaskRun(states', steps') && states'[|states'| - 1] == With(k')
  {
    assert Next(With(k), Of(0, local), With(k'));
    RunGoesOn(states, steps, Of(0, local), With(k'));
    states', steps' := states + [With(k')], steps + [Of(0, local)];
  }

  /** One task is inserted and claimed. */
  lemma TaskClaimed() returns (states: seq<State>, steps: seq<Step>)
    ensures IsTaskRun(states, steps) && states[|states| - 1] == With(Solo(P.Pool([0], [P.Idle], []), []))
  {
    var idle := Solo(P.Pool([], [P.Idle], []), []).(claimed := multiset{});
    var s0 := State(map[], 0, [idle], multiset{});
    var s1 := State(map[0 := Row(Pending, 0)], 1, [idle], multiset{});
    var s2 := With(Solo(P.Pool([0], [P.Idle], []), []));
    RunGoesOn([s0], [], Insert(0), s1);
    assert MarkRunning(s1.rows, [0]) == s2.rows;
    assert multiset{} + multiset([0]) == multiset{0};
    assert Next(s1, Claim(0, [0]), s2);
    RunGoesOn([s0] + [s1], [] + [Insert(0)], Claim(0, [0]), s2);
    states, steps := [s0] + [s1] + [s2], [] + [Insert(0)] + [Claim(0, [0])];
  }

  /** It is processed without an error and its result received. */
  lemma TaskReceived() returns (states: seq<State>, steps: seq<Step>)
    ensures IsTaskRun(states, steps) && states[|states| - 1] == With(Retried(0))
  {
    var p0, p1 := P.Pool([0], [P.Idle], []), P.Pool([], [P.Busy(0)], []);
    var p2, p3 := P.Pool([], [P.Done(0, true)], []), P.Pool([], [P.Idle], [P.Result(0, true)]);
    var o := [P.Result(0, true)];
    assert P.Submit(p0, p1, 0) && P.Finish(p1, p2, 0, true) && P.Deliver(p2, p3, 0);
    states, steps := TaskClaimed();
    states, steps := PoolGoesOn(states, steps, P.Submitting(0), p0, p1, [], []);
    states, steps := PoolGoesOn(states, steps, P.Finishing(0, true), p1, p2, [], o);
    states, steps := PoolGoesOn(states, steps, P.Delivering(0), p2, p3, o, o);
    ReceivedAlone(p3);
    states, steps := LocalGoesOn(states, steps, Receive, Solo(p3, o), Retried(0));
  }

  lemma PoolGoesOn(
    states: seq<State>, steps: seq<Step>, move: P.Move, p: P.Pool, p': P.Pool, o: seq<P.Result>, o': seq<P.Result>)
    returns (states': seq<State>, steps': seq<Step>)
    requires IsTaskRun(states, steps) && states[|states| - 1] == With(Solo(p, o))
    requires P.MovesBy(p, move, p') && o' == o + P.Returned(p, move)
    ensures IsTaskRun(states', steps') && states'[|states'| - 1] == With(Solo(p', o'))
  {
    states', steps' := LocalGoesOn(states, steps, PoolMove(move), Solo(p, o), Solo(p', o'));
  }

  lemma ReceivedAlone(p: P.Pool)
    requires p == P.Pool([], [P.Idle], [P.Result(0, true)])
    ensures LocalStep(Solo(p, [P.Result(0, true)]), Receive, Retried(0))
  {
    assert p.results[1..] == [] && [] + [Update(0, Complete)] == [Update(0, Complete)] && [] + [0] == [0];
    assert multiset{}[0 := 0] == multiset{};
  }

  lemma {:induction false} RetriedRun(n: nat) returns (states: seq<State>, steps: seq<Step>)
    ensures IsTaskRun(states, steps) && states[|states| - 1] == With(Retried(n))
  {
    if n == 0 {
      states, steps := TaskReceived();
    } else {
      states, steps := RetriedRun(n - 1);
      assert Retried(n - 1).unacked + multiset([0]) == Retried(n).unacked;
      states, steps := LocalGoesOn(states, steps, SaveReports(true, false), Retried(n - 1), Retried(n));
    }
  }

  lemma SumOfOne(k: Consumer, id: int, a: Account)
    ensures Sum([k], id, a) == Part(k, id, a)
  {
    assert [k][1..] == [];
  }

  /**
   Duplicates are not only possible but unbounded: for every `n` there is a run in which the one
   task is completed, its report is no longer queued, and its facts have entered the outbox
   `n + 1` times, once for each silent commit and once for the acknowledged one.
   */
  lemma DuplicateFacts(n: nat, w: World) returns (states: seq<State>, steps: seq<Step>)
    ensures IsTaskRun(states, steps) && |states| > 0
    ensures var j := |states| - 1;
      && IsCompleted(states[j], 0) && !IsQueued(states[j], 0)
      && Sum(states[j].consumers, 0, Silent) == n
      && InTasks(Tasks(Saved(states, steps, w, j)), 0) == n + 1
  {
    var k := Retried(n).(statBatch := [], saved := multiset{0});
    assert multiset{} + multiset([0]) == multiset{0};
    states, steps := RetriedRun(n);
    states, steps := LocalGoesOn(states, steps, SaveReports(true, true), Retried(n), k);
    assert Update(0, Complete) in With(k).consumers[0].statusBatch;
    SumOfOne(k, 0, Acked);
    SumOfOne(k, 0, Silent);
    SavedCount(states, steps, w, |states| - 1, 0);
  }
}
