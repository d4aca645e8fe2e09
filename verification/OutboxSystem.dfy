/**
 Any number of relays over one outbox table, with crashes, lost marks and stale reclaim.

 What holds in every run is separated from what holds only while every relay lets go of
 each fetched row within the reclaim interval.
 */
module OutboxSystem {
  import opened Outbox

  /** What a relay has done with the first message of its queue. */
  datatype Phase = ToWrite | WroteOk | WroteErr

  /** The rest of the batch a relay fetched at time `since`. */
  datatype Relay = Relay(queue: seq<int>, phase: Phase, since: int)

  /** What ever happened to a row. */
  datatype Log = Log(
    okWrites: nat, errWrites: nat,    // writes as reported by the writer
    sentMarks: nat, failMarks: nat,   // marks that took effect
    lostSent: nat, lostFail: nat,     // marks that did not
    crashedOk: nat, crashedErr: nat)  // crashes between the write and its mark

  datatype State = State(rows: map<int, Row>, log: map<int, Log>, now: int, relays: seq<Relay>)

  datatype Step =
    | Enqueue(id: int, createdAt: int)
    | Advance(seconds: nat)
    | Fetch(relay: nat, ids: seq<int>)
    | Write(relay: nat, ok: bool)
    | Mark(relay: nat, applied: bool)
    | Crash(relay: nat)

  function LogWrite(l: Log, ok: bool): Log {
    if ok then l.(okWrites := l.okWrites + 1) else l.(errWrites := l.errWrites + 1)
  }

  function LogMark(l: Log, ok: bool, applied: bool): Log {
    if applied then
      if ok then l.(sentMarks := l.sentMarks + 1) else l.(failMarks := l.failMarks + 1)
    else
      if ok then l.(lostSent := l.lostSent + 1) else l.(lostFail := l.lostFail + 1)
  }

  function LogCrash(l: Log, phase: Phase): Log {
    match phase
    case ToWrite => l
    case WroteOk => l.(crashedOk := l.crashedOk + 1)
    case WroteErr => l.(crashedErr := l.crashedErr + 1)
  }

  ghost predicate Enabled(s: State, step: Step) {
    match step
    case Enqueue(id, createdAt) => id !in s.rows
    case Advance(seconds) => true
    case Fetch(r, ids) => r < |s.relays| && s.relays[r].queue == [] && Pickable(s.rows, ids, s.now)
    case Write(r, ok) =>
      r < |s.relays| && s.relays[r].queue != [] && s.relays[r].phase == ToWrite && s.relays[r].queue[0] in s.log
    case Mark(r, applied) =>
      && r < |s.relays| && s.relays[r].queue != [] && s.relays[r].phase != ToWrite
      && s.relays[r].queue[0] in s.rows && s.relays[r].queue[0] in s.log
    case Crash(r) => r < |s.relays| && s.relays[r].queue != [] && s.relays[r].queue[0] in s.log
  }

  ghost function Do(s: State, step: Step, max: int): State
    requires Enabled(s, step)
  {
    match step
    case Enqueue(id, createdAt) =>
      s.(rows := s.rows[id := NewRow(createdAt)], log := s.log[id := Log(0, 0, 0, 0, 0, 0, 0, 0)])
    case Advance(seconds) =>
      s.(now := s.now + seconds)
    case Fetch(r, ids) =>
      s.(rows := TakeAll(s.rows, ids, s.now), relays := s.relays[r := Relay(ids, ToWrite, s.now)])
    case Write(r, ok) =>
      var id := s.relays[r].queue[0];
      s.(log := s.log[id := LogWrite(s.log[id], ok)],
         relays := s.relays[r := s.relays[r].(phase := if ok then WroteOk else WroteErr)])
    case Mark(r, applied) =>
      var relay := s.relays[r];
      var id, ok := relay.queue[0], relay.phase == WroteOk;
      s.(rows := if applied then s.rows[id := AsMarked(s.rows[id], ok, max, s.now)] else s.rows,
         log := s.log[id := LogMark(s.log[id], ok, applied)],
         relays := s.relays[r := relay.(queue := relay.queue[1..], phase := ToWrite)])
    case Crash(r) =>
      var relay := s.relays[r];
      var id := relay.queue[0];
      s.(log := s.log[id := LogCrash(s.log[id], relay.phase)],
         relays := s.relays[r := relay.(queue := [], phase := ToWrite)])
  }

  ghost predicate Next(s: State, step: Step, s': State, max: int) {
    Enabled(s, step) && s' == Do(s, step, max)
  }

  ghost predicate Init(s: State) {
    && s.rows == map[] && s.log == map[]
    && forall r :: 0 <= r < |s.relays| ==> s.relays[r].queue == [] && s.relays[r].phase == ToWrite
  }

  ghost predicate IsRun(states: seq<State>, steps: seq<Step>, max: int) {
    && |states| == |steps| + 1
    && Init(states[0])
    && forall i :: 0 <= i < |steps| ==> Next(states[i], steps[i], states[i + 1], max)
  }

  // ---------------------------------------------------------------- what always holds

  function AtHead(relay: Relay, phase: Phase, id: int): nat {
    if relay.queue != [] && relay.phase == phase && relay.queue[0] == id then 1 else 0
  }

  /** How many relays are in `phase` on row `id`. */
  function InPhase(relays: seq<Relay>, phase: Phase, id: int): nat {
    if relays == [] then 0 else AtHead(relays[0], phase, id) + InPhase(relays[1..], phase, id)
  }

  lemma {:induction false} InPhaseUpdate(relays: seq<Relay>, i: nat, relay: Relay, phase: Phase, id: int)
    requires i < |relays|
    ensures InPhase(relays[i := relay], phase, id)
         == InPhase(relays, phase, id) - AtHead(relays[i], phase, id) + AtHead(relay, phase, id)
  {
    if i == 0 {
      assert relays[i := relay][1..] == relays[1..];
    } else {
      InPhaseUpdate(relays[1..], i - 1, relay, phase, id);
      assert relays[i := relay][1..] == relays[1..][i - 1 := relay];
    }
  }

  lemma {:induction false} InPhaseOne(relays: seq<Relay>, i: nat, phase: Phase, id: int)
    requires i < |relays|
    ensures AtHead(relays[i], phase, id) <= InPhase(relays, phase, id)
  {
    if i > 0 {
      InPhaseOne(relays[1..], i - 1, phase, id);
    }
  }

  /** Each write is accounted for by a mark, a lost mark, a crash, or a relay about to mark. */
  ghost predicate Accounted(l: Log, relays: seq<Relay>, id: int) {
    && l.okWrites == l.sentMarks + l.lostSent + l.crashedOk + InPhase(relays, WroteOk, id)
    && l.errWrites == l.failMarks + l.lostFail + l.crashedErr + InPhase(relays, WroteErr, id)
  }

  ghost predicate RowSafe(row: Row, l: Log, max: int) {
    && row.retryCount == l.failMarks
    && (row.status == Sent ==> l.sentMarks > 0)
    && (row.status == Pending || row.status == Processing ==> row.retryCount < max)
    && (row.status == Failed ==> row.retryCount >= max)
  }

  ghost predicate RelaySafe(relay: Relay, rows: map<int, Row>) {
    && (forall id :: id in relay.queue ==> id in rows)
    && (relay.phase != ToWrite ==> relay.queue != [])
    && (forall i, j :: 0 <= i < j < |relay.queue| ==> relay.queue[i] != relay.queue[j])
  }

  ghost predicate Safe(s: State, max: int) {
    && s.rows.Keys == s.log.Keys
    && (forall id :: id in s.rows ==> RowSafe(s.rows[id], s.log[id], max) && Accounted(s.log[id], s.relays, id))
    && (forall id :: id !in s.rows ==> InPhase(s.relays, WroteOk, id) == 0 && InPhase(s.relays, WroteErr, id) == 0)
    && (forall r :: 0 <= r < |s.relays| ==> RelaySafe(s.relays[r], s.rows))
  }

  lemma RelaysSafe(s: State, s': State, r: nat)
    requires r < |s.relays| && s'.rows.Keys == s.rows.Keys
    requires forall i :: 0 <= i < |s.relays| ==> RelaySafe(s.relays[i], s.rows)
    requires |s'.relays| == |s.relays| && RelaySafe(s'.relays[r], s'.rows)
    requires s'.relays == s.relays[r := s'.relays[r]]
    ensures forall i :: 0 <= i < |s'.relays| ==> RelaySafe(s'.relays[i], s'.rows)
  {
    forall i | 0 <= i < |s'.relays| ensures RelaySafe(s'.relays[i], s'.rows) {
      if i != r {
        assert RelaySafe(s.relays[i], s.rows);
      }
    }
  }

  lemma SafeEnqueue(s: State, id: int, createdAt: int, s': State, max: int)
    requires max > 0 && Safe(s, max) && Next(s, Enqueue(id, createdAt), s', max)
    ensures Safe(s', max)
  {
    forall r | 0 <= r < |s'.relays| ensures RelaySafe(s'.relays[r], s'.rows) {
      assert RelaySafe(s.relays[r], s.rows);
    }
  }

  lemma SafeFetch(s: State, r: nat, ids: seq<int>, s': State, max: int)
    requires Safe(s, max) && Next(s, Fetch(r, ids), s', max)
    ensures Safe(s', max)
  {
    forall id, phase | phase != ToWrite ensures InPhase(s'.relays, phase, id) == InPhase(s.relays, phase, id) {
      InPhaseUpdate(s.relays, r, s'.relays[r], phase, id);
      assert RelaySafe(s.relays[r], s.rows);
    }
    RelaysSafe(s, s', r);
  }

  /** The log of a row moves in step with the relay that has it first. */
  ghost predicate LogMoves(l: Log, l': Log, a: Relay, b: Relay, id: int) {
    && l'.okWrites - (l'.sentMarks + l'.lostSent + l'.crashedOk) - AtHead(b, WroteOk, id)
       == l.okWrites - (l.sentMarks + l.lostSent + l.crashedOk) - AtHead(a, WroteOk, id)
    && l'.errWrites - (l'.failMarks + l'.lostFail + l'.crashedErr) - AtHead(b, WroteErr, id)
       == l.errWrites - (l.failMarks + l.lostFail + l.crashedErr) - AtHead(a, WroteErr, id)
  }

  lemma AccountedMoves(relays: seq<Relay>, r: nat, relay: Relay, l: Log, l': Log, id: int)
    requires r < |relays| && Accounted(l, relays, id) && LogMoves(l, l', relays[r], relay, id)
    ensures Accounted(l', relays[r := relay], id)
  {
    InPhaseUpdate(relays, r, relay, WroteOk, id);
    InPhaseUpdate(relays, r, relay, WroteErr, id);
  }

  /** The steps of one relay on its first row: only that row's log and counts change. */
  lemma SafeHead(s: State, r: nat, s': State, id: int, max: int)
    requires Safe(s, max) && r < |s.relays| && s.relays[r].queue != [] && id == s.relays[r].queue[0]
    requires |s'.relays| == |s.relays| && s'.relays == s.relays[r := s'.relays[r]]
    requires RelaySafe(s'.relays[r], s.rows)
    requires id in s.rows && s'.rows.Keys == s.rows.Keys && s'.log.Keys == s.log.Keys
    requires forall x :: x in s.rows && x != id ==> s'.rows[x] == s.rows[x] && s'.log[x] == s.log[x]
    requires forall x, phase :: x != id && phase != ToWrite ==> AtHead(s'.relays[r], phase, x) == 0
    requires RowSafe(s'.rows[id], s'.log[id], max)
    requires LogMoves(s.log[id], s'.log[id], s.relays[r], s'.relays[r], id)
    ensures Safe(s', max)
  {
    RelaysSafe(s, s', r);
    forall x | x in s'.rows ensures RowSafe(s'.rows[x], s'.log[x], max) && Accounted(s'.log[x], s'.relays, x) {
      assert RowSafe(s.rows[x], s.log[x], max) && Accounted(s.log[x], s.relays, x);
      AccountedMoves(s.relays, r, s'.relays[r], s.log[x], s'.log[x], x);
    }
    forall x | x !in s'.rows ensures InPhase(s'.relays, WroteOk, x) == 0 && InPhase(s'.relays, WroteErr, x) == 0 {
      InPhaseUpdate(s.relays, r, s'.relays[r], WroteOk, x);
      InPhaseUpdate(s.relays, r, s'.relays[r], WroteErr, x);
    }
  }

  lemma SafeWrite(s: State, r: nat, ok: bool, s': State, max: int)
    requires Safe(s, max) && Next(s, Write(r, ok), s', max)
    ensures Safe(s', max)
  {
    var id := s.relays[r].queue[0];
    assert RelaySafe(s.relays[r], s.rows) && RowSafe(s.rows[id], s.log[id], max);
    SafeHead(s, r, s', id, max);
  }

  lemma MarkedRowSafe(row: Row, l: Log, ok: bool, max: int, now: int)
    requires RowSafe(row, l, max)
    ensures RowSafe(AsMarked(row, ok, max, now), LogMark(l, ok, true), max)
    ensures RowSafe(row, LogMark(l, ok, false), max)
  {
  }

  lemma SafeMark(s: State, r: nat, applied: bool, s': State, max: int)
    requires Safe(s, max) && Next(s, Mark(r, applied), s', max)
    ensures Safe(s', max)
  {
    var id := s.relays[r].queue[0];
    assert RelaySafe(s.relays[r], s.rows) && RowSafe(s.rows[id], s.log[id], max);
    MarkedRowSafe(s.rows[id], s.log[id], s.relays[r].phase == WroteOk, max, s.now);
    assert forall x :: x in s'.relays[r].queue ==> x in s.relays[r].queue;
    SafeHead(s, r, s', id, max);
  }

  lemma SafeCrash(s: State, r: nat, s': State, max: int)
    requires Safe(s, max) && Next(s, Crash(r), s', max)
    ensures Safe(s', max)
  {
    var id := s.relays[r].queue[0];
    assert RelaySafe(s.relays[r], s.rows) && RowSafe(s.rows[id], s.log[id], max);
    SafeHead(s, r, s', id, max);
  }

  lemma SafeNext(s: State, step: Step, s': State, max: int)
    requires max > 0 && Safe(s, max) && Next(s, step, s', max)
    ensures Safe(s', max)
  {
    match step
    case Enqueue(id, createdAt) => SafeEnqueue(s, id, createdAt, s', max);
    case Advance(seconds) =>
    case Fetch(r, ids) => SafeFetch(s, r, ids, s', max);
    case Write(r, ok) => SafeWrite(s, r, ok, s', max);
    case Mark(r, applied) => SafeMark(s, r, applied, s', max);
    case Crash(r) => SafeCrash(s, r, s', max);
  }

  lemma {:induction false} NoneInPhase(relays: seq<Relay>, phase: Phase, id: int)
    requires forall r :: 0 <= r < |relays| ==> AtHead(relays[r], phase, id) == 0
    ensures InPhase(relays, phase, id) == 0
  {
    if relays != [] {
      NoneInPhase(relays[1..], phase, id);
    }
  }

  lemma {:induction false} RunIsSafe(states: seq<State>, steps: seq<Step>, max: int, i: nat)
    requires max > 0 && IsRun(states, steps, max) && i < |states|
    ensures Safe(states[i], max)
  {
    if i == 0 {
      forall id, phase ensures InPhase(states[0].relays, phase, id) == 0 {
        NoneInPhase(states[0].relays, phase, id);
      }
    } else {
      RunIsSafe(states, steps, max, i - 1);
      assert Next(states[i - 1], steps[i - 1], states[i], max);
      SafeNext(states[i - 1], steps[i - 1], states[i], max);
    }
  }

  /**
   Under any interleaving: a sent row was written successfully, an unfinished row is below
   the retry bound, a failed row has reached it, and the retry count is the number of
   failed writes that were recorded.
   */
  lemma OutboxSafety(states: seq<State>, steps: seq<Step>, max: int, i: nat, id: int)
    requires max > 0 && IsRun(states, steps, max) && i < |states| && id in states[i].rows
    ensures id in states[i].log
    ensures var row, l := states[i].rows[id], states[i].log[id];
      && (row.status == Sent ==> l.okWrites > 0)
      && (row.status == Pending || row.status == Processing ==> row.retryCount < max)
      && (row.status == Failed ==> row.retryCount >= max)
      && row.retryCount == l.failMarks <= l.errWrites
  {
    RunIsSafe(states, steps, max, i);
    assert RowSafe(states[i].rows[id], states[i].log[id], max);
    assert Accounted(states[i].log[id], states[i].relays, id);
  }

  lemma RetriesGrow(s: State, step: Step, s': State, max: int, id: int)
    requires Next(s, step, s', max) && id in s.rows
    ensures id in s'.rows && s'.rows[id].retryCount >= s.rows[id].retryCount
  {
  }

  /** Once the retry count reaches the bound the row is never fetched again. */
  lemma {:induction false} ExhaustedNeverFetched(states: seq<State>, steps: seq<Step>, max: int, i: nat, j: nat, id: int)
    requires max > 0 && IsRun(states, steps, max) && i <= j < |steps|
    requires id in states[i].rows && states[i].rows[id].retryCount >= max
    ensures id in states[j].rows && states[j].rows[id].retryCount >= max
    ensures steps[j].Fetch? ==> id !in steps[j].ids
  {
    if i < j {
      ExhaustedNeverFetched(states, steps, max, i, j - 1, id);
      assert Next(states[j - 1], steps[j - 1], states[j], max);
      RetriesGrow(states[j - 1], steps[j - 1], states[j], max, id);
    }
    assert Next(states[j], steps[j], states[j + 1], max);
    RunIsSafe(states, steps, max, j);
    NotFetched(states[j], steps[j], max, id);
  }

  lemma NotFetched(s: State, step: Step, max: int, id: int)
    requires Safe(s, max) && Enabled(s, step) && id in s.rows && s.rows[id].retryCount >= max
    ensures step.Fetch? ==> id !in step.ids
  {
    assert RowSafe(s.rows[id], s.log[id], max);
  }
}
