/**
 The scrape-task queue: the `scrape_tasks` table (internal/storage/postgres/scrape_task.go),
 any number of consumers and their worker pools (internal/scraper/task_consumer.go,
 internal/scraper/worker_pool.go), as one step system. SQL statements are atomic steps.
 */
module TaskQueue {
  import opened WorkerPool

  datatype Status = Pending | Running | Complete | Error

  datatype Row = Row(status: Status, createdAt: int)

  datatype Update = Update(task: int, status: Status)

  /** `Cancelled`: the pool's context is done. `Stopped`: `Stop` has returned. */
  datatype Phase = Live | Cancelled | Stopped

  const TASKS_PER_REQUEST: nat := 10

  datatype Consumer = Consumer(
    phase: Phase,
    pool: Pool,
    statusBatch: seq<Update>,
    statBatch: seq<int>,      // reports not yet saved, by task
    // histories
    outcomes: seq<Result>,    // what `Process` returned, call by call
    claimed: multiset<int>,   // tasks returned to this consumer by a claim
    dropped: multiset<int>,   // given up after cancellation
    acked: seq<Update>,       // updates whose statement was reported successful
    written: set<int>,        // tasks whose row an applied update has reached
    saved: multiset<int>,     // tasks whose report was committed by a call reported successful
    unacked: multiset<int>)   // tasks whose report was committed by a call reported failed

  datatype State = State(
    rows: map<int, Row>,
    nextId: nat,              // the bigserial sequence; ids are never reused
    consumers: seq<Consumer>,
    orphans: multiset<int>)   // rows claimed by a statement whose answer was lost

  // ---------------------------------------------------------------- statements on the table

  function Cleanup(rows: map<int, Row>, cutoff: int): map<int, Row> {
    map id | id in rows && (rows[id].status == Pending || rows[id].createdAt >= cutoff) :: rows[id]
  }

  function MarkRunning(rows: map<int, Row>, ids: seq<int>): map<int, Row> {
    map id | id in rows :: if id in ids then rows[id].(status := Running) else rows[id]
  }

  /** What the claim's SELECT may return: distinct pending rows, at most the limit. */
  ghost predicate Claimable(rows: map<int, Row>, ids: seq<int>) {
    && |ids| <= TASKS_PER_REQUEST
    && (forall i, j :: 0 <= i < j < |ids| ==> ids[i] != ids[j])
    && (forall id :: id in ids ==> id in rows && rows[id].status == Pending)
  }

  ghost predicate Names(batch: seq<Update>, id: int) {
    exists u :: u in batch && u.task == id
  }

  /** UPDATE ... FROM UNNEST: a row named twice in the batch takes either status. */
  ghost predicate Updated(rows: map<int, Row>, batch: seq<Update>, rows': map<int, Row>) {
    && rows'.Keys == rows.Keys
    && (forall id :: id in rows ==> rows'[id].createdAt == rows[id].createdAt)
    && (forall id :: id in rows && !Names(batch, id) ==> rows'[id] == rows[id])
    && (forall id :: id in rows && Names(batch, id) ==> Update(id, rows'[id].status) in batch)
  }

  // ---------------------------------------------------------------- where a task can be

  // How many times task `id` occurs in each place.

  function InTasks(s: seq<int>, id: int): nat {
    if s == [] then 0 else (if s[0] == id then 1 else 0) + InTasks(s[1..], id)
  }

  function InUpdates(us: seq<Update>, id: int): nat {
    if us == [] then 0 else (if us[0].task == id then 1 else 0) + InUpdates(us[1..], id)
  }

  function InCompleted(us: seq<Update>, id: int): nat {
    if us == [] then 0 else (if us[0] == Update(id, Complete) then 1 else 0) + InCompleted(us[1..], id)
  }

  function InResults(rs: seq<Result>, id: int): nat {
    if rs == [] then 0 else (if rs[0].task == id then 1 else 0) + InResults(rs[1..], id)
  }

  function Holds(w: Worker, id: int): nat {
    match w
    case Idle => 0
    case Busy(t) => if t == id then 1 else 0
    case Done(t, _) => if t == id then 1 else 0
  }

  function InWorkers(ws: seq<Worker>, id: int): nat {
    if ws == [] then 0 else Holds(ws[0], id) + InWorkers(ws[1..], id)
  }

  function InPool(p: Pool, id: int): nat {
    InTasks(p.waiting, id) + InWorkers(p.workers, id) + InResults(p.results, id)
  }

  /** All the places of a task: the pool, the status batch, recorded, or given up. */
  function Places(k: Consumer, id: int): nat {
    InPool(k.pool, id) + InUpdates(k.statusBatch, id) + InUpdates(k.acked, id) + k.dropped[id]
  }

  // ---------------------------------------------------------------- steps

  /** Steps of one consumer that do not touch the task table. */
  datatype Local =
    | PoolMove(move: Move)
    | Receive
    | SaveReports(applied: bool, ok: bool)
    | Cancel          // the event loop calls `Stop` on the pool
    | ParentCancel    // the context the pool was made with is cancelled
    | DropSubmit
    | DropResult(worker: nat)
    | Stop

  function StatusFor(r: Result): Status {
    if r.ok then Complete else Error
  }

  ghost predicate LocalStep(k: Consumer, step: Local, k': Consumer) {
    match step
    case PoolMove(move) =>
      && MovesBy(k.pool, move, k'.pool)
      && k' == k.(pool := k'.pool, outcomes := k.outcomes + Returned(k.pool, move))
    case Receive =>
      && k.phase != Stopped && k.pool.waiting == [] && k.pool.results != []
      && var r := k.pool.results[0];
         k' == k.(pool := k.pool.(results := k.pool.results[1..]),
                  statusBatch := k.statusBatch + [Update(r.task, StatusFor(r))],
                  statBatch := if r.ok then k.statBatch + [r.task] else k.statBatch)
    case SaveReports(applied, ok) =>
      && k.pool.waiting == [] && k.statBatch != [] && (ok ==> applied)
      && k' == if ok then k.(statBatch := [], saved := k.saved + multiset(k.statBatch))
               else if applied then k.(unacked := k.unacked + multiset(k.statBatch))
               else k
    case Cancel =>
      k.phase == Live && k.pool.waiting == [] && k' == k.(phase := Cancelled)
    case ParentCancel =>
      k.phase == Live && k' == k.(phase := Cancelled)
    case DropSubmit =>
      && k.phase == Cancelled && k.pool.waiting != []
      && k' == k.(pool := k.pool.(waiting := k.pool.waiting[1..]), dropped := k.dropped + multiset{k.pool.waiting[0]})
    case DropResult(w) =>
      && k.phase == Cancelled && w < |k.pool.workers| && k.pool.workers[w].Done?
      && k' == k.(pool := k.pool.(workers := k.pool.workers[w := Idle]),
                  dropped := k.dropped + multiset{k.pool.workers[w].task})
    case Stop =>
      && k.phase == Cancelled && k.pool.waiting == [] && (forall w :: w in k.pool.workers ==> w.Idle?)
      && k' == k.(phase := Stopped)
  }

  datatype Step =
    | Insert(createdAt: int)
    | Clean(cutoff: int)
    | Claim(consumer: nat, ids: seq<int>)
    | ClaimLost(ids: seq<int>)
    | WriteStatuses(consumer: nat, applied: bool, ok: bool)
    | Of(consumer: nat, local: Local)

  ghost predicate Next(s: State, step: Step, s': State) {
    match step
    case Insert(createdAt) =>
      s' == s.(rows := s.rows[s.nextId := Row(Pending, createdAt)], nextId := s.nextId + 1)
    case Clean(cutoff) =>
      s' == s.(rows := Cleanup(s.rows, cutoff))
    case Claim(c, ids) =>
      && c < |s.consumers| && Claimable(s.rows, ids)
      && var k := s.consumers[c];
         && k.phase != Stopped && k.pool.waiting == []
         && s' == s.(rows := MarkRunning(s.rows, ids),
                     consumers := s.consumers[c := k.(pool := k.pool.(waiting := ids), claimed := k.claimed + multiset(ids))])
    case ClaimLost(ids) =>
      && Claimable(s.rows, ids)
      && s' == s.(rows := MarkRunning(s.rows, ids), orphans := s.orphans + multiset(ids))
    case WriteStatuses(c, applied, ok) =>
      && c < |s.consumers| && (ok ==> applied)
      && var k := s.consumers[c];
         && k.pool.waiting == [] && k.statusBatch != []
         && (if applied then Updated(s.rows, k.statusBatch, s'.rows) else s'.rows == s.rows)
         && var k1 := if applied then k.(written := k.written + (set u | u in k.statusBatch :: u.task)) else k;
            var k2 := if ok then k1.(statusBatch := [], acked := k.acked + k.statusBatch) else k1;
            s' == s.(rows := s'.rows, consumers := s.consumers[c := k2])
    case Of(c, local) =>
      && c < |s.consumers| && |s'.consumers| == |s.consumers|
      && LocalStep(s.consumers[c], local, s'.consumers[c])
      && s' == s.(consumers := s.consumers[c := s'.consumers[c]])
  }

  ghost predicate Fresh(k: Consumer) {
    && k.phase == Live && k.pool.waiting == [] && k.pool.results == []
    && (forall w :: w in k.pool.workers ==> w.Idle?)
    && k.statusBatch == [] && k.statBatch == [] && k.outcomes == [] && k.acked == [] && k.written == {}
    && k.claimed == multiset{} && k.dropped == multiset{} && k.saved == multiset{} && k.unacked == multiset{}
  }

  ghost predicate Init(s: State) {
    && s.rows == map[] && s.nextId == 0 && s.orphans == multiset{}
    && forall i :: 0 <= i < |s.consumers| ==> Fresh(s.consumers[i])
  }

  // ---------------------------------------------------------------- the invariant

  function SumClaimed(ks: seq<Consumer>, id: int): nat {
    if ks == [] then 0 else ks[0].claimed[id] + SumClaimed(ks[1..], id)
  }

  /** How often task `id` was ever claimed, by whomever. */
  function Claims(s: State, id: int): nat {
    SumClaimed(s.consumers, id) + s.orphans[id]
  }

  ghost predicate Terminal(us: seq<Update>) {
    forall u :: u in us ==> u.status == Complete || u.status == Error
  }

  /** Every claimed task is in exactly as many places as it was claimed times. */
  ghost predicate Conserved(k: Consumer) {
    forall id :: Places(k, id) == k.claimed[id]
  }

  /** A report is acknowledged or queued exactly once for every complete status. */
  ghost predicate ReportsMatch(k: Consumer) {
    forall id :: InCompleted(k.statusBatch, id) + InCompleted(k.acked, id) == InTasks(k.statBatch, id) + k.saved[id]
  }

  ghost predicate PhaseFits(k: Consumer) {
    && (k.phase == Live ==> k.dropped == multiset{})
    && (k.phase == Stopped ==> k.pool.waiting == [] && forall w :: w in k.pool.workers ==> w.Idle?)
  }

  ghost predicate WrittenFits(k: Consumer) {
    && (forall id :: id in k.written ==> Names(k.statusBatch, id) || Names(k.acked, id))
    && (forall id :: Names(k.acked, id) ==> id in k.written)
  }

  ghost predicate ConsumerInv(k: Consumer) {
    && Conserved(k) && ReportsMatch(k) && PhaseFits(k) && WrittenFits(k)
    && Terminal(k.statusBatch) && Terminal(k.acked)
    && PoolInv(k.pool)
  }

  /** The rows of a consumer's tasks: running until an update reached them, then as that update says. */
  ghost predicate RowsFit(rows: map<int, Row>, k: Consumer) {
    forall id :: id in k.claimed && id in rows ==>
      if id in k.written then Update(id, rows[id].status) in k.statusBatch || Update(id, rows[id].status) in k.acked
      else rows[id].status == Running
  }

  ghost predicate TableInv(s: State) {
    && (forall id :: Claims(s, id) <= 1)
    && (forall id :: id in s.rows || Claims(s, id) > 0 <==> 0 <= id < s.nextId)
    && (forall id :: id in s.rows && Claims(s, id) == 0 ==> s.rows[id].status == Pending)
    && (forall id :: id in s.rows && id in s.orphans ==> s.rows[id].status == Running)
  }

  ghost predicate Inv(s: State) {
    && TableInv(s)
    && (forall i :: 0 <= i < |s.consumers| ==> ConsumerInv(s.consumers[i]))
    && (forall i :: 0 <= i < |s.consumers| ==> RowsFit(s.rows, s.consumers[i]))
  }
}
