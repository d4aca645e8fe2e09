/**
 From completed tasks to Kafka: how often the facts of a task are written, when the rows the
 relays work on are the facts that the saved reports put into the outbox.

 The outbox row of a fact is known by the position of the fact among all ever inserted.
 */
module Deliveries {
  import opened TaskFacts
  import Q = TaskQueue
  import L = TaskQueueLaws
  import T = TaskRuns
  import P = Processor
  import O = Outbox
  import S = OutboxSystem
  import X = OutboxExclusive

  // ---------------------------------------------------------------- whose fact is it

  function FactCount(report: R.ReportRow): nat {
    |R.FactsOf(report, 0)|
  }

  lemma {:induction false} FactCountAt(report: R.ReportRow, checks: seq<P.CheckResult>, at: int)
    ensures |R.FactsFor(report, checks, at)| == |R.FactsFor(report, checks, 0)|
  {
    if checks != [] {
      FactCountAt(report, checks[..|checks| - 1], at);
    }
  }

  /** The task behind each of the facts that `saved` has put into the outbox. */
  function Owners(saved: seq<Entry>, w: World): seq<int> {
    if saved == [] then []
    else
      var e := saved[|saved| - 1];
      Owners(saved[..|saved| - 1], w) + Repeat(e.task, FactCount(w.reportOf(e.task)))
  }

  function Repeat(task: int, n: nat): seq<int> {
    seq(n, _ => task)
  }

  lemma {:induction false} InRepeat(task: int, n: nat, id: int)
    ensures Q.InTasks(Repeat(task, n), id) == if task == id then n else 0
  {
    if n > 0 {
      assert Repeat(task, n)[1..] == Repeat(task, n - 1);
      InRepeat(task, n - 1, id);
    }
  }

  /** Fact `p` of the outbox is one of the report of `Owners[p]`. */
  ghost predicate Owned(saved: seq<Entry>, w: World, owners: seq<int>, outbox: seq<R.Fact>) {
    && |owners| == |outbox|
    && forall p :: 0 <= p < |outbox| ==> OwnedBy(saved, w, owners[p], outbox[p])
  }

  ghost predicate OwnedBy(saved: seq<Entry>, w: World, task: int, f: R.Fact) {
    exists e :: e in saved && e.task == task && f in R.FactsOf(w.reportOf(task), e.at)
  }

  lemma {:induction false} OwnersOwn(saved: seq<Entry>, w: World)
    ensures Owned(saved, w, Owners(saved, w), R.FactsOfStored(StoredOf(saved, w)))
  {
    if saved != [] {
      var n := |saved| - 1;
      var front, e := saved[..n], saved[n];
      OwnersOwn(front, w);
      assert saved == front + [e] && StoredOf(saved, w) == StoredOf(front, w) + [R.Stored(w.reportOf(e.task), e.at)];
      R.StoredFactsSnoc(StoredOf(front, w), R.Stored(w.reportOf(e.task), e.at));
      FactCountAt(w.reportOf(e.task), w.reportOf(e.task).checks, e.at);
      var owners, outbox := Owners(front, w), R.FactsOfStored(StoredOf(front, w));
      var more := R.FactsOf(w.reportOf(e.task), e.at);
      forall p | 0 <= p < |outbox + more| ensures OwnedBy(saved, w, Owners(saved, w)[p], (outbox + more)[p]) {
        if p < |outbox| {
          assert OwnedBy(front, w, owners[p], outbox[p]);
        } else {
          assert e in saved && more[p - |outbox|] in more;
        }
      }
    }
  }

  /** A task owns the facts of its report once for each time it was saved. */
  lemma {:induction false} OwnedCount(saved: seq<Entry>, w: World, id: int)
    ensures Q.InTasks(Owners(saved, w), id) == FactCount(w.reportOf(id)) * Q.InTasks(Tasks(saved), id)
  {
    if saved != [] {
      var n := |saved| - 1;
      var front, e := saved[..n], saved[n];
      OwnedCount(front, w, id);
      TasksConcat(Owners(front, w), Repeat(e.task, FactCount(w.reportOf(e.task))), id);
      InRepeat(e.task, FactCount(w.reportOf(e.task)), id);
      assert Tasks(saved) == Tasks(front) + [e.task];
      L.TasksSnoc(Tasks(front), e.task, id);
      Distributes(FactCount(w.reportOf(id)), Q.InTasks(Tasks(front), id), if e.task == id then 1 else 0);
    }
  }

  lemma Distributes(f: nat, a: nat, b: nat)
    ensures f * (a + b) == f * a + f * b
  {
  }

  // ---------------------------------------------------------------- writes per task

  /** Successful writes of the facts that task `id` owns. */
  function WritesOf(owners: seq<int>, log: map<int, S.Log>, id: int): nat {
    if owners == [] then 0
    else
      var p := |owners| - 1;
      WritesOf(owners[..p], log, id) + if owners[p] == id && p in log then log[p].okWrites else 0
  }

  /** Sent-marks of them that were lost and crashes between such a write and its mark. */
  function LossesOf(owners: seq<int>, log: map<int, S.Log>, id: int): nat {
    if owners == [] then 0
    else
      var p := |owners| - 1;
      LossesOf(owners[..p], log, id) + if owners[p] == id && p in log then log[p].lostSent + log[p].crashedOk else 0
  }

  lemma {:induction false} WritesAtMost(owners: seq<int>, log: map<int, S.Log>, id: int)
    requires forall p :: p in log ==> log[p].okWrites <= 1 + log[p].lostSent + log[p].crashedOk
    ensures WritesOf(owners, log, id) <= Q.InTasks(owners, id) + LossesOf(owners, log, id)
  {
    if owners != [] {
      var p := |owners| - 1;
      WritesAtMost(owners[..p], log, id);
      assert owners == owners[..p] + [owners[p]];
      L.TasksSnoc(owners[..p], owners[p], id);
    }
  }

  lemma {:induction false} WritesAtLeast(owners: seq<int>, log: map<int, S.Log>, id: int)
    requires forall p :: 0 <= p < |owners| && owners[p] == id ==> p in log && log[p].okWrites > 0
    ensures WritesOf(owners, log, id) >= Q.InTasks(owners, id)
  {
    if owners != [] {
      var p := |owners| - 1;
      WritesAtLeast(owners[..p], log, id);
      assert owners == owners[..p] + [owners[p]];
      L.TasksSnoc(owners[..p], owners[p], id);
    }
  }

  /** Every outbox row of task `id` is sent. */
  ghost predicate AllSent(owners: seq<int>, rows: map<int, O.Row>, id: int) {
    forall p :: 0 <= p < |owners| && owners[p] == id ==> p in rows && rows[p].status == O.Sent
  }

  /** In any run of the relays, rows that are sent were written. */
  lemma SentWereWritten(owners: seq<int>, states: seq<S.State>, steps: seq<S.Step>, max: int, i: nat, id: int)
    requires max > 0 && S.IsRun(states, steps, max) && i < |states| && AllSent(owners, states[i].rows, id)
    ensures WritesOf(owners, states[i].log, id) >= Q.InTasks(owners, id)
  {
    forall p | 0 <= p < |owners| && owners[p] == id ensures p in states[i].log && states[i].log[p].okWrites > 0 {
      S.OutboxSafety(states, steps, max, i, p);
    }
    WritesAtLeast(owners, states[i].log, id);
  }

  /** In a timely one, no row is written more than once, except after a loss. */
  lemma TimelyWrites(owners: seq<int>, states: seq<S.State>, steps: seq<S.Step>, max: int, i: nat, id: int)
    requires max > 0 && X.TimelyRun(states, steps, max) && i < |states|
    ensures WritesOf(owners, states[i].log, id) <= Q.InTasks(owners, id) + LossesOf(owners, states[i].log, id)
  {
    S.RunIsSafe(states, steps, max, i);
    forall p | p in states[i].log
      ensures states[i].log[p].okWrites <= 1 + states[i].log[p].lostSent + states[i].log[p].crashedOk
    {
      X.WritesBounded(states, steps, max, i, p);
    }
    WritesAtMost(owners, states[i].log, id);
  }

  /** How often the facts of task `id` belong into the outbox: once when completed and saved, and once per silent commit. */
  ghost function Copies(s: Q.State, id: int): nat {
    (if IsCompleted(s, id) && !IsQueued(s, id) then 1 else 0) + Sum(s.consumers, id, Silent)
  }

  /**
   From the queue to Kafka. Over any run of the consumers and any timely run of the relays, the
   facts of a task are written at most once for each copy, plus once per lost sent-mark and per
   crash before the mark; and at least once for each copy when its rows are all sent.
   */
  lemma DeliveriesPerTask(
    tasks: seq<Q.State>, taskSteps: seq<Q.Step>, w: World, j: nat, reports: map<R.Key, R.Stored>, outbox: seq<R.Fact>,
    relays: seq<S.State>, relaySteps: seq<S.Step>, max: int, i: nat, id: int)
    requires T.IsTaskRun(tasks, taskSteps) && j < |tasks|
    requires R.TablesFit(Calls(tasks, taskSteps, w, j), reports, outbox)
    requires max > 0 && X.TimelyRun(relays, relaySteps, max) && i < |relays|
    ensures var owners := Owners(Saved(tasks, taskSteps, w, j), w);
      var due := FactCount(w.reportOf(id)) * Copies(tasks[j], id);
      && Owned(Saved(tasks, taskSteps, w, j), w, owners, outbox)
      && WritesOf(owners, relays[i].log, id) <= due + LossesOf(owners, relays[i].log, id)
      && (AllSent(owners, relays[i].rows, id) ==> WritesOf(owners, relays[i].log, id) >= due)
  {
    var owners := Owners(Saved(tasks, taskSteps, w, j), w);
    OwnersPerTask(tasks, taskSteps, w, j, reports, outbox, id);
    TimelyWrites(owners, relays, relaySteps, max, i, id);
    if AllSent(owners, relays[i].rows, id) {
      SentWereWritten(owners, relays, relaySteps, max, i, id);
    }
  }

  lemma OwnersPerTask(
    tasks: seq<Q.State>, taskSteps: seq<Q.Step>, w: World, j: nat, reports: map<R.Key, R.Stored>, outbox: seq<R.Fact>, id: int)
    requires T.IsTaskRun(tasks, taskSteps) && j < |tasks|
    requires R.TablesFit(Calls(tasks, taskSteps, w, j), reports, outbox)
    ensures var saved := Saved(tasks, taskSteps, w, j);
      && Owned(saved, w, Owners(saved, w), outbox)
      && Q.InTasks(Owners(saved, w), id) == FactCount(w.reportOf(id)) * Copies(tasks[j], id)
  {
    FactsOncePerTask(tasks, taskSteps, w, j, reports, outbox, id);
    OwnersOwn(Saved(tasks, taskSteps, w, j), w);
    OwnedCount(Saved(tasks, taskSteps, w, j), w, id);
  }
}
