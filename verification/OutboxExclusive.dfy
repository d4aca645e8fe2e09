/** The outbox while every relay lets go of a fetched row before it can be reclaimed. */
module OutboxExclusive {
  import opened Outbox
  import opened OutboxSystem

  /** Every fetched row still held was fetched no more than a minute ago. */
  ghost predicate Timely(s: State) {
    forall r :: 0 <= r < |s.relays| ==> s.relays[r].queue != [] ==> s.now <= s.relays[r].since + 60
  }

  ghost predicate Holds(s: State, r: nat, id: int) {
    r < |s.relays| && id in s.relays[r].queue
  }

  /** A held row is processing and was last updated by the fetch of its holder. */
  ghost predicate HeldAsFetched(s: State) {
    forall r: nat, id :: Holds(s, r, id) ==>
      id in s.rows && s.rows[id].status == Processing && s.rows[id].updatedAt == s.relays[r].since
  }

  ghost predicate OneHolder(s: State) {
    forall r: nat, q: nat, id :: Holds(s, r, id) && Holds(s, q, id) ==> r == q
  }

  ghost predicate SettledOnce(row: Row, l: Log, max: int) {
    && l.sentMarks == (if row.status == Sent then 1 else 0)
    && (row.status == Failed ==> row.retryCount == max)
    && (row.status != Failed ==> row.retryCount < max)
  }

  ghost predicate Exclusive(s: State, max: int) {
    && HeldAsFetched(s) && OneHolder(s)
    && s.rows.Keys == s.log.Keys
    && forall id :: id in s.rows ==> SettledOnce(s.rows[id], s.log[id], max)
  }

  /** A sent or failed row is left as it is. */
  ghost predicate SettledStay(s: State, s': State) {
    forall id :: id in s.rows && (s.rows[id].status == Sent || s.rows[id].status == Failed) ==>
      id in s'.rows && s'.rows[id] == s.rows[id]
  }

  lemma FetchTakesUnheld(s: State, ids: seq<int>, r: nat, id: int)
    requires HeldAsFetched(s) && Timely(s) && Pickable(s.rows, ids, s.now) && Holds(s, r, id)
    ensures id !in ids
  {
    assert s.relays[r].queue != [];
  }

  lemma ExclusiveFetch(s: State, r: nat, ids: seq<int>, s': State, max: int)
    requires Safe(s, max) && Exclusive(s, max) && Timely(s) && Next(s, Fetch(r, ids), s', max)
    ensures Exclusive(s', max) && SettledStay(s, s')
  {
    forall q: nat, id | Holds(s, q, id) ensures id !in ids {
      FetchTakesUnheld(s, ids, q, id);
    }
    forall q: nat, id | Holds(s', q, id) ensures
      id in s'.rows && s'.rows[id].status == Processing && s'.rows[id].updatedAt == s'.relays[q].since
    {
      if q != r {
        assert Holds(s, q, id);
      }
    }
    forall q: nat, p: nat, id | Holds(s', q, id) && Holds(s', p, id) ensures q == p {
      assert q != r ==> Holds(s, q, id);
      assert p != r ==> Holds(s, p, id);
    }
    forall id | id in ids ensures SettledOnce(s'.rows[id], s'.log[id], max) {
      assert SettledOnce(s.rows[id], s.log[id], max);
    }
  }

  /** A relay that keeps or shortens its queue takes nothing from anyone. */
  lemma HoldersShrink(s: State, s': State, r: nat)
    requires HeldAsFetched(s) && OneHolder(s) && r < |s.relays|
    requires |s'.relays| == |s.relays| && s'.relays == s.relays[r := s'.relays[r]]
    requires s'.relays[r].since == s.relays[r].since
    requires forall id :: id in s'.relays[r].queue ==> id in s.relays[r].queue
    requires forall q: nat, id :: Holds(s', q, id) && Holds(s, q, id) ==> id in s'.rows && id in s.rows ==> s'.rows[id] == s.rows[id]
    requires s'.rows.Keys == s.rows.Keys
    ensures HeldAsFetched(s') && OneHolder(s')
  {
    forall q: nat, id | Holds(s', q, id) ensures Holds(s, q, id) {
    }
  }

  lemma ExclusiveMark(s: State, r: nat, applied: bool, s': State, max: int)
    requires Safe(s, max) && Exclusive(s, max) && Next(s, Mark(r, applied), s', max)
    ensures Exclusive(s', max) && SettledStay(s, s')
  {
    var relay := s.relays[r];
    var id := relay.queue[0];
    assert RelaySafe(relay, s.rows) && Holds(s, r, id);
    assert RowSafe(s.rows[id], s.log[id], max) && SettledOnce(s.rows[id], s.log[id], max);
    forall x | x in s'.relays[r].queue ensures x in relay.queue && x != id {
      var i :| 0 <= i < |relay.queue[1..]| && relay.queue[1..][i] == x;
      assert relay.queue[i + 1] == x;
    }
    forall q: nat, x | Holds(s', q, x) ensures x != id {
      assert q != r ==> Holds(s, q, x);
    }
    HoldersShrink(s, s', r);
    forall x | x in s'.rows ensures SettledOnce(s'.rows[x], s'.log[x], max) {
      assert x != id ==> SettledOnce(s.rows[x], s.log[x], max);
    }
  }

  lemma ExclusiveWriteOrCrash(s: State, step: Step, s': State, max: int)
    requires Safe(s, max) && Exclusive(s, max) && (step.Write? || step.Crash?) && Next(s, step, s', max)
    ensures Exclusive(s', max) && SettledStay(s, s')
  {
    HoldersShrink(s, s', step.relay);
    forall x | x in s'.rows ensures SettledOnce(s'.rows[x], s'.log[x], max) {
      assert SettledOnce(s.rows[x], s.log[x], max);
    }
  }

  lemma ExclusiveNext(s: State, step: Step, s': State, max: int)
    requires max > 0 && Safe(s, max) && Exclusive(s, max) && Timely(s) && Next(s, step, s', max)
    ensures Exclusive(s', max) && SettledStay(s, s')
  {
    match step
    case Enqueue(id, createdAt) =>
      forall q: nat, x | Holds(s', q, x) ensures Holds(s, q, x) {
      }
    case Advance(seconds) =>
      forall q: nat, x | Holds(s', q, x) ensures Holds(s, q, x) {
      }
    case Fetch(r, ids) => ExclusiveFetch(s, r, ids, s', max);
    case Write(r, ok) => ExclusiveWriteOrCrash(s, step, s', max);
    case Mark(r, applied) => ExclusiveMark(s, r, applied, s', max);
    case Crash(r) => ExclusiveWriteOrCrash(s, step, s', max);
  }

  ghost predicate TimelyRun(states: seq<State>, steps: seq<Step>, max: int) {
    && IsRun(states, steps, max)
    && forall i :: 0 <= i < |states| ==> Timely(states[i])
  }

  lemma {:induction false} RunIsExclusive(states: seq<State>, steps: seq<Step>, max: int, i: nat)
    requires max > 0 && TimelyRun(states, steps, max) && i < |states|
    ensures Exclusive(states[i], max)
  {
    if i > 0 {
      RunIsExclusive(states, steps, max, i - 1);
      RunIsSafe(states, steps, max, i - 1);
      assert Next(states[i - 1], steps[i - 1], states[i], max);
      ExclusiveNext(states[i - 1], steps[i - 1], states[i], max);
    }
  }

  /** No row has two holders, and the retry count stays within the bound. */
  lemma ExclusiveOwnership(states: seq<State>, steps: seq<Step>, max: int, i: nat, r: nat, q: nat, id: int)
    requires max > 0 && TimelyRun(states, steps, max) && i < |states|
    ensures Holds(states[i], r, id) && Holds(states[i], q, id) ==> r == q
    ensures id in states[i].rows ==> states[i].rows[id].retryCount <= max
  {
    RunIsExclusive(states, steps, max, i);
    if id in states[i].rows {
      assert SettledOnce(states[i].rows[id], states[i].log[id], max);
    }
  }

  /** Sent and failed are final. */
  lemma {:induction false} SettledForever(states: seq<State>, steps: seq<Step>, max: int, i: nat, j: nat, id: int)
    requires max > 0 && TimelyRun(states, steps, max) && i <= j < |states| && id in states[i].rows
    requires states[i].rows[id].status == Sent || states[i].rows[id].status == Failed
    ensures id in states[j].rows && states[j].rows[id] == states[i].rows[id]
  {
    if i < j {
      SettledForever(states, steps, max, i, j - 1, id);
      RunIsExclusive(states, steps, max, j - 1);
      RunIsSafe(states, steps, max, j - 1);
      assert Next(states[j - 1], steps[j - 1], states[j], max);
      ExclusiveNext(states[j - 1], steps[j - 1], states[j], max);
    }
  }

  lemma {:induction false} AtMostOneInPhase(relays: seq<Relay>, phase: Phase, id: int)
    requires forall i, j :: 0 <= i < j < |relays| ==> id !in relays[i].queue || id !in relays[j].queue
    ensures InPhase(relays, phase, id) <= 1
    ensures InPhase(relays, phase, id) > 0 ==> exists i :: 0 <= i < |relays| && id in relays[i].queue
  {
    if relays != [] {
      var rest := relays[1..];
      AtMostOneInPhase(rest, phase, id);
      if InPhase(rest, phase, id) > 0 {
        var i :| 0 <= i < |rest| && id in rest[i].queue;
        assert id in relays[i + 1].queue;
        assert id !in relays[0].queue;
      } else if AtHead(relays[0], phase, id) > 0 {
        assert id in relays[0].queue;
      }
    }
  }

  /** A row is written successfully at most once, plus once per lost sent-mark and per crash before the mark. */
  lemma WritesBounded(states: seq<State>, steps: seq<Step>, max: int, i: nat, id: int)
    requires max > 0 && TimelyRun(states, steps, max) && i < |states| && id in states[i].rows
    ensures id in states[i].log
    ensures states[i].log[id].okWrites <= 1 + states[i].log[id].lostSent + states[i].log[id].crashedOk
  {
    RunIsSafe(states, steps, max, i);
    RunIsExclusive(states, steps, max, i);
    var s := states[i];
    assert Accounted(s.log[id], s.relays, id) && SettledOnce(s.rows[id], s.log[id], max);
    forall a, b | 0 <= a < b < |s.relays| ensures id !in s.relays[a].queue || id !in s.relays[b].queue {
      assert Holds(s, a, id) && Holds(s, b, id) ==> a == b;
    }
    AtMostOneInPhase(s.relays, WroteOk, id);
    if InPhase(s.relays, WroteOk, id) > 0 {
      var a :| 0 <= a < |s.relays| && id in s.relays[a].queue;
      assert Holds(s, a, id);
    }
  }

  /**
   The condition is exact: from a state with exclusive holders, some held row can be taken
   by another relay if and only if some relay is late.
   */
  lemma StealableIffLate(s: State)
    requires HeldAsFetched(s)
    ensures (exists r: nat, id :: Holds(s, r, id) && id in s.rows && Fetchable(s.rows[id], s.now)) <==> !Timely(s)
  {
    if !Timely(s) {
      var r: nat :| r < |s.relays| && s.relays[r].queue != [] && s.now > s.relays[r].since + 60;
      var id := s.relays[r].queue[0];
      assert Holds(s, r, id);
    }
    if exists r: nat, id :: Holds(s, r, id) && id in s.rows && Fetchable(s.rows[id], s.now) {
      var r: nat, id :| Holds(s, r, id) && id in s.rows && Fetchable(s.rows[id], s.now);
      assert s.relays[r].queue != [];
    }
  }

  // ---------------------------------------------------------------- what a late relay can do

  /** `steps` are enabled one after the other from `s` and lead to `s'`. */
  ghost predicate Reaches(s: State, steps: seq<Step>, s': State, max: int)
    decreases |steps|
  {
    if steps == [] then s' == s
    else Enabled(s, steps[0]) && Reaches(Do(s, steps[0], max), steps[1..], s', max)
  }

  lemma {:induction false} ReachesConcat(s: State, a: seq<Step>, mid: State, b: seq<Step>, s': State, max: int)
    requires Reaches(s, a, mid, max) && Reaches(mid, b, s', max)
    ensures Reaches(s, a + b, s', max)
    decreases |a|
  {
    if a == [] {
      assert a + b == b;
    } else {
      ReachesConcat(Do(s, a[0], max), a[1..], mid, b, s', max);
      assert (a + b)[1..] == a[1..] + b;
    }
  }

  lemma ReachesTwo(s: State, a: Step, b: Step, max: int)
    requires Enabled(s, a) && Enabled(Do(s, a, max), b)
    ensures Reaches(s, [a, b], Do(Do(s, a, max), b, max), max)
  {
    assert [a, b][1..] == [b] && [b][1..] == [];
  }

  /** A relay writes the first row of its queue and its mark is applied or lost. */
  lemma WriteAndMark(s: State, r: nat, written: bool, applied: bool, max: int) returns (s': State)
    requires Safe(s, max) && r < |s.relays| && s.relays[r].queue != [] && s.relays[r].phase == ToWrite
    ensures Reaches(s, [Write(r, written), Mark(r, applied)], s', max)
    ensures var id := s.relays[r].queue[0];
      && id in s.rows
      && s'.rows == if applied then s.rows[id := AsMarked(s.rows[id], written, max, s.now)] else s.rows
    ensures s'.now == s.now && |s'.relays| == |s.relays|
    ensures s'.relays[r] == s.relays[r].(queue := s.relays[r].queue[1..])
    ensures forall q :: 0 <= q < |s.relays| && q != r ==> s'.relays[q] == s.relays[q]
  {
    var id := s.relays[r].queue[0];
    assert RelaySafe(s.relays[r], s.rows) && id in s.rows && id in s.log;
    var s1 := Do(s, Write(r, written), max);
    assert s1.relays[r].queue == s.relays[r].queue && id in s1.log && Enabled(s1, Mark(r, applied));
    s' := Do(s1, Mark(r, applied), max);
    ReachesTwo(s, Write(r, written), Mark(r, applied), max);
  }

  lemma FetchOne(s: State, q: nat, ids: seq<int>, max: int) returns (s': State)
    requires Safe(s, max) && Enabled(s, Fetch(q, ids))
    ensures Reaches(s, [Fetch(q, ids)], s', max) && Safe(s', max)
    ensures s'.rows == TakeAll(s.rows, ids, s.now) && s'.now == s.now
    ensures s'.relays == s.relays[q := Relay(ids, ToWrite, s.now)]
  {
    s' := Do(s, Fetch(q, ids), max);
    assert [Fetch(q, ids)][1..] == [];
    SafeFetch(s, q, ids, s', max);
  }

  lemma {:induction false} ReachesSafe(s: State, steps: seq<Step>, s': State, max: int)
    requires max > 0 && Safe(s, max) && Reaches(s, steps, s', max)
    ensures Safe(s', max)
    decreases |steps|
  {
    if steps != [] {
      SafeNext(s, steps[0], Do(s, steps[0], max), max);
      ReachesSafe(Do(s, steps[0], max), steps[1..], s', max);
    }
  }

  /** Relay `q` takes row `id`, writes it and marks it; nobody else moves. */
  lemma DeliverBy(s: State, q: nat, id: int, written: bool, max: int) returns (s': State)
    requires max > 0 && Safe(s, max) && q < |s.relays| && s.relays[q].queue == []
    requires id in s.rows && Fetchable(s.rows[id], s.now)
    ensures Reaches(s, Delivering(q, id, written), s', max) && Safe(s', max)
    ensures s'.now == s.now && |s'.relays| == |s.relays| && s'.relays[q].queue == []
    ensures forall r :: 0 <= r < |s.relays| && r != q ==> s'.relays[r] == s.relays[r]
    ensures id in s'.rows && s'.rows[id] == AsMarked(Take(s.rows[id], s.now), written, max, s.now)
  {
    var last := [Write(q, written), Mark(q, true)];
    var s1 := FetchOne(s, q, [id], max);
    s' := WriteAndMark(s1, q, written, true, max);
    ReachesConcat(s, [Fetch(q, [id])], s1, last, s', max);
    ReachesSafe(s1, last, s', max);
  }

  function Delivering(q: nat, id: int, written: bool): seq<Step> {
    [Fetch(q, [id])] + [Write(q, written), Mark(q, true)]
  }

  /** Relay `q` fails a row again and again until it is given up. */
  lemma {:induction false} FailForGood(s: State, q: nat, id: int, max: int) returns (steps: seq<Step>, s': State)
    requires max > 0 && Safe(s, max) && q < |s.relays| && s.relays[q].queue == []
    requires id in s.rows && Fetchable(s.rows[id], s.now)
    ensures Reaches(s, steps, s', max) && Safe(s', max)
    ensures s'.now == s.now && |s'.relays| == |s.relays|
    ensures forall r :: 0 <= r < |s.relays| && r != q ==> s'.relays[r] == s.relays[r]
    ensures id in s'.rows && s'.rows[id].status == Failed
    decreases max - s.rows[id].retryCount
  {
    assert RowSafe(s.rows[id], s.log[id], max);
    var s1 := DeliverBy(s, q, id, false, max);
    if s1.rows[id].status == Failed {
      steps, s' := Delivering(q, id, false), s1;
    } else {
      var rest;
      rest, s' := FailForGood(s1, q, id, max);
      ReachesConcat(s, Delivering(q, id, false), s1, rest, s', max);
      steps := Delivering(q, id, false) + rest;
    }
  }

  /** The mark that relay `r` still owes for its first row, after a write if it has not tried yet. */
  lemma OwedMark(s: State, r: nat, max: int) returns (steps: seq<Step>, s': State)
    requires max > 0 && Safe(s, max) && r < |s.relays| && s.relays[r].queue != []
    ensures Reaches(s, steps, s', max)
    ensures var id := s.relays[r].queue[0];
      && id in s.rows && id in s'.rows
      && s'.rows[id] == AsMarked(s.rows[id], s.relays[r].phase == WroteOk, max, s.now)
  {
    var id := s.relays[r].queue[0];
    assert RelaySafe(s.relays[r], s.rows) && id in s.relays[r].queue && id in s.rows && id in s.log;
    if s.relays[r].phase == ToWrite {
      steps := [Write(r, false), Mark(r, true)];
      s' := WriteAndMark(s, r, false, true, max);
    } else {
      steps := [Mark(r, true)];
      s' := Do(s, Mark(r, true), max);
      assert steps[1..] == [];
    }
  }

  /** What another relay can make of a row before its late holder marks it. */
  function Undone(phase: Phase): Status {
    if phase == WroteOk then Failed else Sent
  }

  /**
   Without timeliness sent and failed are not final. Take any state in which the first row of
   one relay can be fetched again while another relay is idle. Then the row can be settled by
   the second relay and unsettled by the first: if the first has not written it or its write
   failed, a sent row becomes pending or failed; if its write succeeded, a failed row becomes sent.
   */
  lemma LateRelayReverts(s: State, r: nat, q: nat, max: int)
    returns (settling: seq<Step>, settled: State, reverting: seq<Step>, end: State)
    requires max > 0 && Safe(s, max)
    requires r < |s.relays| && q < |s.relays| && r != q && s.relays[q].queue == []
    requires s.relays[r].queue != []
    requires var id := s.relays[r].queue[0]; id in s.rows && Fetchable(s.rows[id], s.now)
    ensures Reaches(s, settling, settled, max) && Reaches(settled, reverting, end, max)
    ensures var id := s.relays[r].queue[0];
      && id in settled.rows && id in end.rows
      && settled.rows[id].status == Undone(s.relays[r].phase)
      && (s.relays[r].phase == WroteOk <==> end.rows[id].status == Sent)
      && (s.relays[r].phase != WroteOk ==> end.rows[id].retryCount == s.rows[id].retryCount + 1)
  {
    var id := s.relays[r].queue[0];
    if s.relays[r].phase == WroteOk {
      settling, settled := FailForGood(s, q, id, max);
    } else {
      settling := Delivering(q, id, true);
      settled := DeliverBy(s, q, id, true, max);
    }
    reverting, end := OwedMark(settled, r, max);
  }

  // ---------------------------------------------------------------- runs in which it happens

  lemma OneMoreStep(states: seq<State>, steps: seq<Step>, step: Step, max: int)
    requires IsRun(states, steps, max) && Enabled(states[|states| - 1], step)
    ensures IsRun(states + [Do(states[|states| - 1], step, max)], steps + [step], max)
  {
    var states', steps' := states + [Do(states[|states| - 1], step, max)], steps + [step];
    forall i | 0 <= i < |steps'| ensures Next(states'[i], steps'[i], states'[i + 1], max) {
      if i < |steps| {
        assert Next(states[i], steps[i], states[i + 1], max);
      }
    }
  }

  /** A run goes on with whatever its last state reaches. */
  lemma {:induction false} RunGoesOn(states: seq<State>, steps: seq<Step>, more: seq<Step>, s': State, max: int)
    returns (states': seq<State>)
    requires IsRun(states, steps, max) && Reaches(states[|states| - 1], more, s', max)
    ensures IsRun(states', steps + more, max) && states <= states' && states'[|states'| - 1] == s'
    decreases |more|
  {
    if more == [] {
      assert steps + more == steps;
      states' := states;
    } else {
      OneMoreStep(states, steps, more[0], max);
      var next := Do(states[|states| - 1], more[0], max);
      states' := RunGoesOn(states + [next], steps + [more[0]], more[1..], s', max);
      assert steps + [more[0]] + more[1..] == steps + more;
    }
  }

  /** A relay takes a row, gets as far as `phase` with it and stalls for a minute and a second. */
  lemma LateIsReachable(phase: Phase, max: int) returns (states: seq<State>, steps: seq<Step>)
    requires max > 0
    ensures IsRun(states, steps, max)
    ensures var s := states[|states| - 1];
      && Safe(s, max) && HeldAsFetched(s) && !Timely(s)
      && |s.relays| == 2 && s.relays[0].queue == [0] && s.relays[0].phase == phase && s.relays[1].queue == []
      && 0 in s.rows && Fetchable(s.rows[0], s.now)
  {
    var s0 := State(map[], map[], 0, [Relay([], ToWrite, 0), Relay([], ToWrite, 0)]);
    var s1 := Do(s0, Enqueue(0, 0), max);
    assert 0 in s1.rows;
    var s2 := Do(s1, Fetch(0, [0]), max);
    var s3 := Do(s2, Advance(61), max);
    steps := [Enqueue(0, 0), Fetch(0, [0]), Advance(61)];
    states := [s0, s1, s2, s3];
    if phase != ToWrite {
      OneMoreStep(states, steps, Write(0, phase == WroteOk), max);
      states, steps := states + [Do(s3, Write(0, phase == WroteOk), max)], steps + [Write(0, phase == WroteOk)];
    }
    RunIsSafe(states, steps, max, |states| - 1);
    assert Holds(states[|states| - 1], 0, 0);
  }

  /**
   For every retry bound there are runs in which a sent row stops being sent (the late relay
   has not written it, or in vain) and in which a failed row becomes sent (it has written it).
   */
  lemma SettledReverts(phase: Phase, max: int) returns (states: seq<State>, steps: seq<Step>, i: nat, j: nat)
    requires max > 0
    ensures IsRun(states, steps, max) && i < j < |states|
    ensures 0 in states[i].rows && 0 in states[j].rows
    ensures states[i].rows[0].status == Undone(phase)
    ensures phase == WroteOk <==> states[j].rows[0].status == Sent
  {
    var first, begin := LateIsReachable(phase, max);
    var settling, settled, reverting, end := LateRelayReverts(first[|first| - 1], 0, 1, max);
    var second := RunGoesOn(first, begin, settling, settled, max);
    states := RunGoesOn(second, begin + settling, reverting, end, max);
    steps := begin + settling + reverting;
    i, j := |second| - 1, |states| - 1;
  }

  // ---------------------------------------------------------------- the relay's loop is a run

  /** The steps of the loop of `flush`: for each message, time passes, a write, a mark. */
  function LoopSteps(r: nat, start: int, ds: seq<Delivery>): seq<Step>
    requires Ordered(start, ds)
  {
    if ds == [] then []
    else
      var n := |ds| - 1;
      LoopSteps(r, start, ds[..n]) + TurnSteps(r, ds[n].at - EndOf(start, ds[..n]), ds[n])
  }

  function EndOf(start: int, ds: seq<Delivery>): int {
    if ds == [] then start else ds[|ds| - 1].at
  }

  /** The clock does not run backwards during the flush. */
  predicate Ordered(start: int, ds: seq<Delivery>) {
    ds == [] || (Ordered(start, ds[..|ds| - 1]) && EndOf(start, ds[..|ds| - 1]) <= ds[|ds| - 1].at)
  }

  lemma DeliverOne(s: State, r: nat, d: Delivery, max: int) returns (s': State)
    requires max > 0 && Safe(s, max) && r < |s.relays| && s.relays[r].queue != [] && s.relays[r].phase == ToWrite
    requires s.now <= d.at
    ensures Reaches(s, TurnSteps(r, d.at - s.now, d), s', max) && Safe(s', max)
    ensures s'.rows == AfterDelivery(s.rows, s.relays[r].queue[0], d, max)
    ensures s'.now == d.at && |s'.relays| == |s.relays|
    ensures s'.relays[r] == s.relays[r].(queue := s.relays[r].queue[1..])
  {
    var pass := Advance(d.at - s.now);
    var last := [Write(r, d.written), Mark(r, d.marked)];
    var s1 := Do(s, pass, max);
    assert Reaches(s, [pass], s1, max) by { assert [pass][1..] == []; }
    ReachesSafe(s, [pass], s1, max);
    s' := WriteAndMark(s1, r, d.written, d.marked, max);
    ReachesConcat(s, [pass], s1, last, s', max);
    ReachesSafe(s1, last, s', max);
  }

  /** After `i` messages the relay still holds the rest and the table is as the loop left it. */
  ghost predicate AfterLoop(s: State, r: nat, ids: seq<int>, ds: seq<Delivery>, i: nat, max: int, s': State)
    requires r < |s.relays| && |ids| == |ds| && i <= |ds|
  {
    && Safe(s', max)
    && s'.rows == AfterDeliveries(s.rows, ids[..i], ds[..i], max)
    && s'.now == EndOf(s.now, ds[..i]) && |s'.relays| == |s.relays|
    && s'.relays[r].queue == ids[i..] && s'.relays[r].phase == ToWrite
  }

  /** The three steps for one message. */
  function TurnSteps(r: nat, wait: nat, d: Delivery): seq<Step> {
    [Advance(wait)] + [Write(r, d.written), Mark(r, d.marked)]
  }

  lemma LoopStepsSnoc(r: nat, start: int, ds: seq<Delivery>, i: nat)
    requires 0 < i <= |ds| && Ordered(start, ds[..i])
    ensures Ordered(start, ds[..i - 1]) && EndOf(start, ds[..i - 1]) <= ds[i - 1].at
    ensures LoopSteps(r, start, ds[..i])
         == LoopSteps(r, start, ds[..i - 1]) + TurnSteps(r, ds[i - 1].at - EndOf(start, ds[..i - 1]), ds[i - 1])
  {
    assert ds[..i][..i - 1] == ds[..i - 1];
  }

  lemma AfterLoopTurn(s: State, r: nat, ids: seq<int>, ds: seq<Delivery>, i: nat, max: int, s1: State, s': State)
    requires r < |s.relays| && |ids| == |ds| && 0 < i <= |ds| && AfterLoop(s, r, ids, ds, i - 1, max, s1)
    requires Safe(s', max) && |s'.relays| == |s1.relays| && s'.now == ds[i - 1].at
    requires s'.rows == AfterDelivery(s1.rows, ids[i - 1], ds[i - 1], max)
    requires s'.relays[r] == s1.relays[r].(queue := s1.relays[r].queue[1..])
    ensures AfterLoop(s, r, ids, ds, i, max, s')
  {
    assert ds[..i][..i - 1] == ds[..i - 1] && ids[..i][..i - 1] == ids[..i - 1];
    assert ids[i - 1..][1..] == ids[i..];
  }

  lemma LoopStep(
    s: State, before: seq<Step>, s1: State, r: nat, d: Delivery, max: int, all: seq<Step>) returns (s': State)
    requires max > 0 && Safe(s1, max) && Reaches(s, before, s1, max)
    requires r < |s1.relays| && s1.relays[r].queue != [] && s1.relays[r].phase == ToWrite && s1.now <= d.at
    requires all == before + TurnSteps(r, d.at - s1.now, d)
    ensures Reaches(s, all, s', max) && Safe(s', max)
    ensures s'.rows == AfterDelivery(s1.rows, s1.relays[r].queue[0], d, max)
    ensures s'.now == d.at && |s'.relays| == |s1.relays|
    ensures s'.relays[r] == s1.relays[r].(queue := s1.relays[r].queue[1..])
  {
    s' := DeliverOne(s1, r, d, max);
    ReachesConcat(s, before, s1, TurnSteps(r, d.at - s1.now, d), s', max);
  }

  lemma {:induction false} LoopIsRun(s: State, r: nat, ids: seq<int>, ds: seq<Delivery>, i: nat, max: int) returns (s': State)
    requires max > 0 && Safe(s, max) && r < |s.relays| && s.relays[r].queue == ids && s.relays[r].phase == ToWrite
    requires |ids| == |ds| && i <= |ds| && Ordered(s.now, ds[..i])
    ensures Reaches(s, LoopSteps(r, s.now, ds[..i]), s', max)
    ensures AfterLoop(s, r, ids, ds, i, max, s')
  {
    if i == 0 {
      s' := s;
    } else {
      LoopStepsSnoc(r, s.now, ds, i);
      var s1 := LoopIsRun(s, r, ids, ds, i - 1, max);
      s' := LoopStep(s, LoopSteps(r, s.now, ds[..i - 1]), s1, r, ds[i - 1], max, LoopSteps(r, s.now, ds[..i]));
      AfterLoopTurn(s, r, ids, ds, i, max, s1, s');
    }
  }

  /** What `Flush` computes on the table is what these steps of the system compute. */
  lemma FlushIsRun(s: State, r: nat, ids: seq<int>, ds: seq<Delivery>, max: int) returns (s': State)
    requires max > 0 && Safe(s, max) && r < |s.relays| && s.relays[r].queue == [] && s.relays[r].phase == ToWrite
    requires Pickable(s.rows, ids, s.now) && |ids| == |ds| && Ordered(s.now, ds)
    ensures Reaches(s, [Fetch(r, ids)] + LoopSteps(r, s.now, ds), s', max)
    ensures s'.rows == AfterDeliveries(TakeAll(s.rows, ids, s.now), ids, ds, max)
    ensures |s'.relays| == |s.relays| && s'.relays[r].queue == []
  {
    var s1 := FetchOne(s, r, ids, max);
    assert ds[..|ds|] == ds && ids[..|ids|] == ids;
    s' := LoopIsRun(s1, r, ids, ds, |ds|, max);
    ReachesConcat(s, [Fetch(r, ids)], s1, LoopSteps(r, s.now, ds), s', max);
  }
}
