/** Ownership, conservation and status order in every run of the task queue. */
module TaskQueueLaws {
  import opened WorkerPool
  import opened TaskQueue

  // ---------------------------------------------------------------- counting lemmas

  lemma {:induction false} TasksSnoc(s: seq<int>, t: int, id: int)
    ensures InTasks(s + [t], id) == InTasks(s, id) + if t == id then 1 else 0
  {
    if s == [] {
      assert s + [t] == [t];
    } else {
      assert (s + [t])[1..] == s[1..] + [t];
      TasksSnoc(s[1..], t, id);
    }
  }

  lemma {:induction false} TasksAsMultiset(s: seq<int>, id: int)
    ensures multiset(s)[id] == InTasks(s, id)
  {
    if s != [] {
      assert s == [s[0]] + s[1..];
      TasksAsMultiset(s[1..], id);
    }
  }

  lemma {:induction false} DistinctOnce(ids: seq<int>, id: int)
    requires forall i, j :: 0 <= i < j < |ids| ==> ids[i] != ids[j]
    ensures InTasks(ids, id) == if id in ids then 1 else 0
  {
    if ids != [] {
      DistinctOnce(ids[1..], id);
    }
  }

  lemma {:induction false} UpdatesConcat(a: seq<Update>, b: seq<Update>, id: int)
    ensures InUpdates(a + b, id) == InUpdates(a, id) + InUpdates(b, id)
    ensures InCompleted(a + b, id) == InCompleted(a, id) + InCompleted(b, id)
  {
    if a == [] {
      assert a + b == b;
    } else {
      assert (a + b)[1..] == a[1..] + b;
      UpdatesConcat(a[1..], b, id);
    }
  }

  lemma {:induction false} UpdatesNamed(us: seq<Update>, id: int)
    ensures InUpdates(us, id) > 0 <==> Names(us, id)
  {
    if us != [] {
      UpdatesNamed(us[1..], id);
      assert us[0] in us && forall u :: u in us <==> u == us[0] || u in us[1..];
    }
  }

  lemma {:induction false} ResultsSnoc(a: seq<Result>, r: Result, id: int)
    ensures InResults(a + [r], id) == InResults(a, id) + if r.task == id then 1 else 0
  {
    if a == [] {
      assert a + [r] == [r];
    } else {
      assert (a + [r])[1..] == a[1..] + [r];
      ResultsSnoc(a[1..], r, id);
    }
  }

  lemma {:induction false} WorkerUpdate(ws: seq<Worker>, i: nat, w: Worker, id: int)
    requires i < |ws|
    ensures InWorkers(ws[i := w], id) == InWorkers(ws, id) - Holds(ws[i], id) + Holds(w, id)
  {
    if i == 0 {
      assert ws[i := w][1..] == ws[1..];
    } else {
      WorkerUpdate(ws[1..], i - 1, w, id);
      assert ws[i := w][1..] == ws[1..][i - 1 := w];
    }
  }

  lemma {:induction false} IdleHoldNothing(ws: seq<Worker>, id: int)
    requires forall w :: w in ws ==> w.Idle?
    ensures InWorkers(ws, id) == 0
  {
    if ws != [] {
      assert ws[0] in ws;
      IdleHoldNothing(ws[1..], id);
    }
  }

  lemma {:induction false} ClaimedUpdate(ks: seq<Consumer>, i: nat, k: Consumer, id: int)
    requires i < |ks|
    ensures SumClaimed(ks[i := k], id) == SumClaimed(ks, id) - ks[i].claimed[id] + k.claimed[id]
  {
    if i == 0 {
      assert ks[i := k][1..] == ks[1..];
    } else {
      ClaimedUpdate(ks[1..], i - 1, k, id);
      assert ks[i := k][1..] == ks[1..][i - 1 := k];
    }
  }

  lemma {:induction false} ClaimedOfOne(ks: seq<Consumer>, i: nat, id: int)
    requires i < |ks|
    ensures ks[i].claimed[id] <= SumClaimed(ks, id)
  {
    if i > 0 {
      ClaimedOfOne(ks[1..], i - 1, id);
    }
  }

  lemma {:induction false} ClaimedOfTwo(ks: seq<Consumer>, i: nat, j: nat, id: int)
    requires i < j < |ks|
    ensures ks[i].claimed[id] + ks[j].claimed[id] <= SumClaimed(ks, id)
  {
    if i == 0 {
      ClaimedOfOne(ks[1..], j - 1, id);
    } else {
      ClaimedOfTwo(ks[1..], i - 1, j - 1, id);
    }
  }

  lemma {:induction false} SomeoneClaimed(ks: seq<Consumer>, id: int)
    requires SumClaimed(ks, id) > 0
    ensures exists i :: 0 <= i < |ks| && id in ks[i].claimed
  {
    if id !in ks[0].claimed {
      SomeoneClaimed(ks[1..], id);
      var i :| 0 <= i < |ks[1..]| && id in ks[1..][i].claimed;
      assert id in ks[i + 1].claimed;
    }
  }

  // ---------------------------------------------------------------- steps of one consumer

  /** Moving a task through the pool neither loses nor duplicates it. */
  lemma PoolMoveKeepsTasks(p: Pool, p': Pool, id: int)
    requires PoolStep(p, p')
    ensures InPool(p', id) == InPool(p, id)
  {
    if w: nat :| Submit(p, p', w) {
      WorkerUpdate(p.workers, w, p'.workers[w], id);
    } else if w: nat, ok: bool :| Finish(p, p', w, ok) {
      WorkerUpdate(p.workers, w, p'.workers[w], id);
    } else {
      var w: nat :| Deliver(p, p', w);
      WorkerUpdate(p.workers, w, p'.workers[w], id);
      ResultsSnoc(p.results, p'.results[|p.results|], id);
    }
  }

  /** Every local step keeps the number of places of every task. */
  lemma LocalKeepsPlaces(k: Consumer, step: Local, k': Consumer, id: int)
    requires LocalStep(k, step, k')
    ensures Places(k', id) == Places(k, id)
  {
    match step
    case PoolMove(_) => PoolMoveKeepsTasks(k.pool, k'.pool, id);
    case Receive =>
      var r := k.pool.results[0];
      UpdatesConcat(k.statusBatch, [Update(r.task, StatusFor(r))], id);
    case SaveReports(applied, ok) =>
    case Cancel =>
    case ParentCancel =>
    case DropSubmit =>
    case DropResult(w) => WorkerUpdate(k.pool.workers, w, Idle, id);
    case Stop =>
  }

  lemma LocalKeepsReports(k: Consumer, step: Local, k': Consumer, id: int)
    requires LocalStep(k, step, k')
    requires InCompleted(k.statusBatch, id) + InCompleted(k.acked, id) == InTasks(k.statBatch, id) + k.saved[id]
    ensures InCompleted(k'.statusBatch, id) + InCompleted(k'.acked, id) == InTasks(k'.statBatch, id) + k'.saved[id]
  {
    match step
    case Receive =>
      var r := k.pool.results[0];
      UpdatesConcat(k.statusBatch, [Update(r.task, StatusFor(r))], id);
      TasksSnoc(k.statBatch, r.task, id);
    case SaveReports(applied, ok) => TasksAsMultiset(k.statBatch, id);
    case _ =>
  }

  lemma StoppedPoolIsStill(k: Consumer, k': Consumer)
    requires PhaseFits(k) && PoolStep(k.pool, k'.pool)
    ensures k.phase != Stopped
  {
    if w: nat :| Submit(k.pool, k'.pool, w) {
    } else if w: nat, ok: bool :| Finish(k.pool, k'.pool, w, ok) {
      assert k.pool.workers[w] in k.pool.workers;
    } else {
      var w: nat :| Deliver(k.pool, k'.pool, w);
      assert k.pool.workers[w] in k.pool.workers;
    }
  }

  lemma LocalKeepsPhase(k: Consumer, step: Local, k': Consumer)
    requires PhaseFits(k) && PoolInv(k.pool) && LocalStep(k, step, k')
    ensures PhaseFits(k') && PoolInv(k'.pool)
  {
    if step.PoolMove? {
      StepFacts(k.pool, k'.pool);
      StoppedPoolIsStill(k, k');
    }
  }

  lemma LocalKeeps(k: Consumer, step: Local, k': Consumer)
    requires ConsumerInv(k) && LocalStep(k, step, k')
    ensures ConsumerInv(k')
    ensures k'.claimed == k.claimed && k'.written == k.written && k'.acked == k.acked
    ensures k.statusBatch <= k'.statusBatch
  {
    LocalKeepsPhase(k, step, k');
    forall id ensures Places(k', id) == k'.claimed[id] {
      LocalKeepsPlaces(k, step, k', id);
      assert Places(k, id) == k.claimed[id];
    }
    assert Conserved(k');
    forall id
      ensures InCompleted(k'.statusBatch, id) + InCompleted(k'.acked, id) == InTasks(k'.statBatch, id) + k'.saved[id]
    {
      LocalKeepsReports(k, step, k', id);
    }
    assert ReportsMatch(k');
    assert k.statusBatch <= k'.statusBatch;
    forall id | Names(k.statusBatch, id) ensures Names(k'.statusBatch, id) {
      var u :| u in k.statusBatch && u.task == id;
      assert u in k'.statusBatch;
    }
  }

  // ---------------------------------------------------------------- one status per task

  lemma {:induction false} OneUpdatePerTask(us: seq<Update>, u: Update, v: Update)
    requires u in us && v in us && u.task == v.task && InUpdates(us, u.task) <= 1
    ensures u == v
  {
    UpdatesNamed(us[1..], u.task);
    if u in us[1..] && v in us[1..] {
      OneUpdatePerTask(us[1..], u, v);
    }
  }

  /** A consumer holds at most one status for a task, queued or recorded. */
  lemma ConsumerUpdateUnique(k: Consumer, u: Update, v: Update)
    requires Conserved(k) && k.claimed[u.task] <= 1 && u.task == v.task
    requires u in k.statusBatch || u in k.acked
    requires v in k.statusBatch || v in k.acked
    ensures u == v
  {
    assert Places(k, u.task) == k.claimed[u.task];
    UpdatesConcat(k.statusBatch, k.acked, u.task);
    OneUpdatePerTask(k.statusBatch + k.acked, u, v);
  }

  // ---------------------------------------------------------------- steps of the whole system

  /** What one step may do to a status: pending becomes running, running becomes terminal. */
  predicate Moves(a: Status, b: Status) {
    a == b || (a == Pending && b == Running) || (a == Running && (b == Complete || b == Error))
  }

  /** New rows are pending, and the status of an old one moves at most one place. */
  ghost predicate StatusesAdvance(rows: map<int, Row>, rows': map<int, Row>) {
    && (forall id :: id in rows && id in rows' ==> Moves(rows[id].status, rows'[id].status))
    && (forall id :: id in rows' && id !in rows ==> rows'[id].status == Pending)
  }

  lemma NamedIsClaimed(k: Consumer, id: int)
    requires Conserved(k) && (Names(k.statusBatch, id) || Names(k.acked, id))
    ensures id in k.claimed
  {
    UpdatesNamed(k.statusBatch, id);
    UpdatesNamed(k.acked, id);
    assert Places(k, id) == k.claimed[id];
  }

  lemma ConsumerClaims(s: State, c: nat, id: int)
    requires c < |s.consumers| && id in s.consumers[c].claimed
    ensures Claims(s, id) > 0
  {
    ClaimedOfOne(s.consumers, c, id);
  }

  /** Two consumers, or a consumer and a lost claim, never share a task. */
  lemma SoleOwner(s: State, c: nat, i: nat, id: int)
    requires Claims(s, id) <= 1 && c < |s.consumers| && i < |s.consumers|
    requires id in s.consumers[c].claimed
    ensures s.consumers[c].claimed[id] == 1 && id !in s.orphans
    ensures i != c ==> id !in s.consumers[i].claimed
  {
    ClaimedOfOne(s.consumers, c, id);
    if i < c {
      ClaimedOfTwo(s.consumers, i, c, id);
    } else if c < i {
      ClaimedOfTwo(s.consumers, c, i, id);
    }
  }

  lemma ClaimedNotPending(s: State, id: int)
    requires Inv(s) && id in s.rows && Claims(s, id) > 0
    ensures s.rows[id].status != Pending
  {
    if id !in s.orphans {
      SomeoneClaimed(s.consumers, id);
      var i :| 0 <= i < |s.consumers| && id in s.consumers[i].claimed;
      assert ConsumerInv(s.consumers[i]) && RowsFit(s.rows, s.consumers[i]);
    }
  }

  lemma InsertTable(s: State, createdAt: int, s': State)
    requires TableInv(s) && Next(s, Insert(createdAt), s')
    ensures TableInv(s') && StatusesAdvance(s.rows, s'.rows)
  {
    assert forall id :: Claims(s', id) == Claims(s, id);
    assert Claims(s, s.nextId) == 0 && s.nextId !in s.rows;
    forall id ensures id in s'.rows || Claims(s', id) > 0 <==> 0 <= id < s'.nextId {
      assert id in s.rows || Claims(s, id) > 0 <==> 0 <= id < s.nextId;
    }
  }

  lemma InsertKeeps(s: State, createdAt: int, s': State)
    requires Inv(s) && Next(s, Insert(createdAt), s')
    ensures Inv(s') && StatusesAdvance(s.rows, s'.rows)
  {
    InsertTable(s, createdAt, s');
    forall i | 0 <= i < |s'.consumers| ensures RowsFit(s'.rows, s'.consumers[i]) {
      var k := s'.consumers[i];
      assert RowsFit(s.rows, k);
      forall id | id in k.claimed && id in s'.rows ensures id in s.rows && s'.rows[id] == s.rows[id] {
        ConsumerClaims(s, i, id);
      }
    }
  }

  lemma CleanKeeps(s: State, cutoff: int, s': State)
    requires Inv(s) && Next(s, Clean(cutoff), s')
    ensures Inv(s') && StatusesAdvance(s.rows, s'.rows)
  {
    forall id ensures Claims(s', id) == Claims(s, id) {
    }
    forall i | 0 <= i < |s'.consumers| ensures RowsFit(s'.rows, s'.consumers[i]) {
      assert RowsFit(s.rows, s.consumers[i]);
    }
  }

  lemma ClaimTable(s: State, ids: seq<int>, s': State)
    requires Inv(s) && Claimable(s.rows, ids) && s'.rows == MarkRunning(s.rows, ids) && s'.nextId == s.nextId
    requires forall id :: Claims(s', id) == Claims(s, id) + (if id in ids then 1 else 0)
    requires forall id :: id in s'.orphans ==> id in s.orphans || id in ids
    ensures TableInv(s') && StatusesAdvance(s.rows, s'.rows)
    ensures forall id :: id in ids ==> Claims(s, id) == 0
  {
    forall id | id in ids ensures Claims(s, id) == 0 {
      if Claims(s, id) > 0 {
        ClaimedNotPending(s, id);
      }
    }
  }

  /** A consumer's rows are not touched by a claim of other tasks. */
  lemma ClaimElsewhere(s: State, ids: seq<int>, i: nat)
    requires Inv(s) && i < |s.consumers|
    requires forall id :: id in ids ==> Claims(s, id) == 0
    ensures RowsFit(MarkRunning(s.rows, ids), s.consumers[i])
  {
    var k := s.consumers[i];
    assert RowsFit(s.rows, k);
    forall id | id in k.claimed && id in s.rows ensures id !in ids {
      ConsumerClaims(s, i, id);
    }
  }

  lemma ClaimConsumer(k: Consumer, ids: seq<int>, k': Consumer)
    requires ConsumerInv(k) && k.pool.waiting == [] && k.phase != Stopped
    requires k' == k.(pool := k.pool.(waiting := ids), claimed := k.claimed + multiset(ids))
    ensures ConsumerInv(k')
  {
    forall id ensures Places(k', id) == k'.claimed[id] {
      assert Places(k, id) == k.claimed[id];
      TasksAsMultiset(ids, id);
    }
    assert Conserved(k');
    assert ReportsMatch(k') by {
      assert ReportsMatch(k);
    }
  }

  lemma ClaimKeeps(s: State, c: nat, ids: seq<int>, s': State)
    requires Inv(s) && Next(s, Claim(c, ids), s')
    ensures Inv(s') && StatusesAdvance(s.rows, s'.rows)
  {
    var k, k' := s.consumers[c], s'.consumers[c];
    assert ConsumerInv(k) && RowsFit(s.rows, k);
    forall id ensures Claims(s', id) == Claims(s, id) + (if id in ids then 1 else 0) {
      ClaimedUpdate(s.consumers, c, k', id);
      TasksAsMultiset(ids, id);
      DistinctOnce(ids, id);
    }
    ClaimTable(s, ids, s');
    ClaimConsumer(k, ids, k');
    forall i | 0 <= i < |s'.consumers| ensures ConsumerInv(s'.consumers[i]) {
      assert ConsumerInv(s.consumers[i]);
    }
    forall i | 0 <= i < |s'.consumers| ensures RowsFit(s'.rows, s'.consumers[i]) {
      ClaimElsewhere(s, ids, i);
      if i == c {
        ClaimRowsFit(s, c, ids, k');
      }
    }
  }

  lemma ClaimRowsFit(s: State, c: nat, ids: seq<int>, k': Consumer)
    requires Inv(s) && c < |s.consumers| && RowsFit(MarkRunning(s.rows, ids), s.consumers[c])
    requires forall id :: id in ids ==> Claims(s, id) == 0
    requires
      var k := s.consumers[c];
      k' == k.(pool := k.pool.(waiting := ids), claimed := k.claimed + multiset(ids))
    ensures RowsFit(MarkRunning(s.rows, ids), k')
  {
    var k := s.consumers[c];
    assert ConsumerInv(k);
    forall id | id in ids ensures id !in k.written {
      if id in k.written {
        NamedIsClaimed(k, id);
        ConsumerClaims(s, c, id);
      }
    }
  }

  lemma ClaimLostKeeps(s: State, ids: seq<int>, s': State)
    requires Inv(s) && Next(s, ClaimLost(ids), s')
    ensures Inv(s') && StatusesAdvance(s.rows, s'.rows)
  {
    forall id ensures Claims(s', id) == Claims(s, id) + (if id in ids then 1 else 0) {
      TasksAsMultiset(ids, id);
      DistinctOnce(ids, id);
    }
    ClaimTable(s, ids, s');
    forall i | 0 <= i < |s'.consumers| ensures ConsumerInv(s'.consumers[i]) && RowsFit(s'.rows, s'.consumers[i]) {
      assert ConsumerInv(s.consumers[i]);
      ClaimElsewhere(s, ids, i);
    }
  }

  lemma WriteConsumer(s: State, c: nat, applied: bool, ok: bool, s': State)
    requires Inv(s) && Next(s, WriteStatuses(c, applied, ok), s')
    ensures ConsumerInv(s'.consumers[c])
  {
    var k, k' := s.consumers[c], s'.consumers[c];
    assert ConsumerInv(k);
    forall id ensures Places(k', id) == k'.claimed[id]
      && InCompleted(k'.statusBatch, id) + InCompleted(k'.acked, id) == InTasks(k'.statBatch, id) + k'.saved[id]
    {
      assert Places(k, id) == k.claimed[id];
      assert ReportsMatch(k);
      UpdatesConcat(k.acked, k.statusBatch, id);
    }
    assert Conserved(k') && ReportsMatch(k');
    assert forall u :: u in k'.acked ==> u in k.acked || u in k.statusBatch;
    assert forall u :: u in k.acked ==> u in k'.acked;
    assert ok ==> forall u :: u in k.statusBatch ==> u in k'.acked;
    WriteWritten(k, applied, ok, k');
  }

  lemma WriteWritten(k: Consumer, applied: bool, ok: bool, k': Consumer)
    requires WrittenFits(k) && (ok ==> applied)
    requires k'.written == if applied then k.written + (set u | u in k.statusBatch :: u.task) else k.written
    requires k'.statusBatch == if ok then [] else k.statusBatch
    requires k'.acked == if ok then k.acked + k.statusBatch else k.acked
    ensures WrittenFits(k')
  {
    forall id | id in k'.written ensures Names(k'.statusBatch, id) || Names(k'.acked, id) {
      if Names(k.acked, id) {
        var u :| u in k.acked && u.task == id;
        assert u in k'.acked;
      } else {
        var u :| u in k.statusBatch && u.task == id;
        assert u in k'.statusBatch || u in k'.acked;
      }
    }
    forall id | Names(k'.acked, id) ensures id in k'.written {
      var u :| u in k'.acked && u.task == id;
      assert u in k.acked ==> Names(k.acked, id);
    }
  }

  /** An applied batch gives a row the status it already has, or its first terminal one. */
  lemma WriteRow(s: State, c: nat, rows': map<int, Row>, id: int)
    requires Inv(s) && c < |s.consumers| && Updated(s.rows, s.consumers[c].statusBatch, rows')
    requires id in s.rows && Names(s.consumers[c].statusBatch, id)
    ensures id in s.consumers[c].claimed && id !in s.orphans
    ensures Update(id, rows'[id].status) in s.consumers[c].statusBatch
    ensures Moves(s.rows[id].status, rows'[id].status)
    ensures forall i :: 0 <= i < |s.consumers| && i != c ==> id !in s.consumers[i].claimed
  {
    var k := s.consumers[c];
    assert ConsumerInv(k) && RowsFit(s.rows, k);
    NamedIsClaimed(k, id);
    SoleOwner(s, c, c, id);
    forall i | 0 <= i < |s.consumers| && i != c ensures id !in s.consumers[i].claimed {
      SoleOwner(s, c, i, id);
    }
    var u := Update(id, rows'[id].status);
    assert u in k.statusBatch;
    if id in k.written {
      ConsumerUpdateUnique(k, u, Update(id, s.rows[id].status));
    }
  }

  lemma WriteTable(s: State, c: nat, rows': map<int, Row>, s': State)
    requires Inv(s) && c < |s.consumers| && Updated(s.rows, s.consumers[c].statusBatch, rows')
    requires s'.rows == rows' && s'.nextId == s.nextId && s'.orphans == s.orphans
    requires forall id :: Claims(s', id) == Claims(s, id)
    ensures TableInv(s') && StatusesAdvance(s.rows, rows')
  {
    forall id | id in s.rows ensures Moves(s.rows[id].status, rows'[id].status)
      && (Claims(s, id) == 0 ==> rows'[id].status == Pending)
      && (id in s.orphans ==> rows'[id].status == Running)
    {
      if Names(s.consumers[c].statusBatch, id) {
        WriteRow(s, c, rows', id);
        ConsumerClaims(s, c, id);
      }
    }
  }

  lemma WriteRowsFit(s: State, c: nat, rows': map<int, Row>, i: nat, k': Consumer)
    requires Inv(s) && c < |s.consumers| && i < |s.consumers|
    requires Updated(s.rows, s.consumers[c].statusBatch, rows')
    requires i != c ==> k' == s.consumers[i]
    requires i == c ==>
      var k := s.consumers[c];
      && k'.claimed == k.claimed && k'.written == k.written + (set u | u in k.statusBatch :: u.task)
      && (forall u :: u in k.statusBatch || u in k.acked ==> u in k'.statusBatch || u in k'.acked)
    ensures RowsFit(rows', k')
  {
    assert RowsFit(s.rows, s.consumers[i]);
    var batch := s.consumers[c].statusBatch;
    forall id | id in k'.claimed && id in rows'
      ensures if id in k'.written then Update(id, rows'[id].status) in k'.statusBatch || Update(id, rows'[id].status) in k'.acked
              else rows'[id].status == Running
    {
      if Names(batch, id) {
        WriteRow(s, c, rows', id);
      } else if i == c && id in k'.written {
        assert id in s.consumers[c].written;
      }
    }
  }

  lemma WriteConsumers(s: State, c: nat, applied: bool, ok: bool, s': State)
    requires Inv(s) && Next(s, WriteStatuses(c, applied, ok), s')
    ensures forall i :: 0 <= i < |s'.consumers| ==> ConsumerInv(s'.consumers[i])
    ensures forall id :: Claims(s', id) == Claims(s, id)
  {
    WriteConsumer(s, c, applied, ok, s');
    forall i | 0 <= i < |s'.consumers| ensures ConsumerInv(s'.consumers[i]) {
      assert i != c ==> ConsumerInv(s.consumers[i]);
    }
    forall id ensures Claims(s', id) == Claims(s, id) {
      ClaimedUpdate(s.consumers, c, s'.consumers[c], id);
    }
  }

  lemma WriteKeeps(s: State, c: nat, applied: bool, ok: bool, s': State)
    requires Inv(s) && Next(s, WriteStatuses(c, applied, ok), s')
    ensures Inv(s') && StatusesAdvance(s.rows, s'.rows)
  {
    WriteConsumers(s, c, applied, ok, s');
    if applied {
      WriteTable(s, c, s'.rows, s');
    }
    forall i | 0 <= i < |s'.consumers| ensures RowsFit(s'.rows, s'.consumers[i]) {
      if applied {
        WriteRowsFit(s, c, s'.rows, i, s'.consumers[i]);
      } else {
        assert RowsFit(s.rows, s.consumers[i]);
      }
    }
  }

  lemma OfKeeps(s: State, c: nat, local: Local, s': State)
    requires Inv(s) && Next(s, Of(c, local), s')
    ensures Inv(s') && StatusesAdvance(s.rows, s'.rows)
  {
    var k, k' := s.consumers[c], s'.consumers[c];
    assert ConsumerInv(k) && RowsFit(s.rows, k);
    LocalKeeps(k, local, k');
    forall id ensures Claims(s', id) == Claims(s, id) {
      ClaimedUpdate(s.consumers, c, k', id);
    }
    forall i | 0 <= i < |s'.consumers| ensures ConsumerInv(s'.consumers[i]) && RowsFit(s'.rows, s'.consumers[i]) {
      if i != c {
        assert ConsumerInv(s.consumers[i]) && RowsFit(s.rows, s.consumers[i]);
      }
    }
  }

  lemma NextKeeps(s: State, step: Step, s': State)
    requires Inv(s) && Next(s, step, s')
    ensures Inv(s') && StatusesAdvance(s.rows, s'.rows)
  {
    match step
    case Insert(createdAt) => InsertKeeps(s, createdAt, s');
    case Clean(cutoff) => CleanKeeps(s, cutoff, s');
    case Claim(c, ids) => ClaimKeeps(s, c, ids, s');
    case ClaimLost(ids) => ClaimLostKeeps(s, ids, s');
    case WriteStatuses(c, applied, ok) => WriteKeeps(s, c, applied, ok, s');
    case Of(c, local) => OfKeeps(s, c, local, s');
  }

  lemma InitHolds(s: State)
    requires Init(s)
    ensures Inv(s)
  {
    forall i | 0 <= i < |s.consumers| ensures ConsumerInv(s.consumers[i]) && RowsFit(s.rows, s.consumers[i]) {
      var k := s.consumers[i];
      assert Fresh(k);
      forall id ensures Places(k, id) == 0 {
        IdleHoldNothing(k.pool.workers, id);
      }
    }
    forall id ensures Claims(s, id) == 0 {
      if SumClaimed(s.consumers, id) > 0 {
        SomeoneClaimed(s.consumers, id);
      }
    }
  }
}
