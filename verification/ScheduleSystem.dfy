/**
 Several replicas over one stored schedule. Reading the key, writing it and applying a
 schedule are separate steps, so operations of different replicas, and several requests on
 one replica, interleave freely.
 */
module ScheduleSystem {
  import opened Options
  import opened Schedule

  /** An operation under way, with the normalised expression it carries. */
  datatype Op =
    | WillInit(expr: string)    // bootstrap found no key
    | WillPut(expr: string)     // a change request has read a different current expression
    | WillApply(expr: string)   // the change is stored, or a sync has read the key

  datatype Replica = Replica(spec: string, ops: seq<Op>)

  datatype State = State(key: Option<string>, replicas: seq<Replica>)

  datatype Step =
    | BootRead(replica: nat, defaultExpr: string)
    | SetRead(replica: nat, expr: string)
    | SyncRead(replica: nat)
    | Put(replica: nat, op: nat, applied: bool, ok: bool)
    | Apply(replica: nat, op: nat)
    | Crash(replica: nat)

  function Without(ops: seq<Op>, i: nat): seq<Op>
    requires i < |ops|
  {
    ops[..i] + ops[i + 1..]
  }

  /** Replica `r` starts an operation. */
  function Begin(s: State, r: nat, op: Op): State
    requires r < |s.replicas|
  {
    s.(replicas := s.replicas[r := s.replicas[r].(ops := s.replicas[r].ops + [op])])
  }

  ghost predicate HasOp(s: State, r: nat, i: nat) {
    r < |s.replicas| && i < |s.replicas[r].ops|
  }

  ghost predicate Next(accepts: Grammar, s: State, step: Step, s': State) {
    match step
    case BootRead(r, expr) =>
      && r < |s.replicas| && s.key.None? && Normalise(accepts, expr).Some?
      && s' == Begin(s, r, WillInit(Normalise(accepts, expr).value))
    case SetRead(r, expr) =>
      && r < |s.replicas| && s.key.Some?
      && var n, current := Normalise(accepts, expr), Normalise(accepts, s.key.value);
         n.Some? && current.Some? && n != current && s' == Begin(s, r, WillPut(n.value))
    case SyncRead(r) =>
      && r < |s.replicas| && s.key.Some? && Normalise(accepts, s.key.value).Some?
      && s' == Begin(s, r, WillApply(Normalise(accepts, s.key.value).value))
    case Put(r, i, applied, ok) =>
      && HasOp(s, r, i) && (s.replicas[r].ops[i].WillPut? || s.replicas[r].ops[i].WillInit?) && (ok ==> applied)
      && var replica := s.replicas[r];
         var op := replica.ops[i];
         s' == State(
           if applied then Some(op.expr) else s.key,
           s.replicas[r := replica.(ops :=
             if ok && op.WillPut? then replica.ops[i := WillApply(op.expr)] else Without(replica.ops, i))])
    case Apply(r, i) =>
      && HasOp(s, r, i) && s.replicas[r].ops[i].WillApply?
      && var replica := s.replicas[r];
         s' == s.(replicas := s.replicas[r := Replica(replica.ops[i].expr, Without(replica.ops, i))])
    case Crash(r) =>
      && r < |s.replicas|
      && s' == s.(replicas := s.replicas[r := Replica("", [])])
  }

  // ---------------------------------------------------------------- what is stored is always valid

  ghost predicate AllNormal(accepts: Grammar, replica: Replica) {
    && (replica.spec == "" || IsNormal(accepts, replica.spec))
    && forall i :: 0 <= i < |replica.ops| ==> IsNormal(accepts, replica.ops[i].expr)
  }

  ghost predicate Inv(accepts: Grammar, s: State) {
    && (s.key.Some? ==> IsNormal(accepts, s.key.value))
    && forall r :: 0 <= r < |s.replicas| ==> AllNormal(accepts, s.replicas[r])
  }

  lemma NextKeepsInv(accepts: Grammar, s: State, step: Step, s': State)
    requires Inv(accepts, s) && Next(accepts, s, step, s')
    ensures Inv(accepts, s')
  {
    match step {
      case BootRead(_, expr) => NormaliseLaw(accepts, expr);
      case SetRead(_, expr) => NormaliseLaw(accepts, expr);
      case SyncRead(_) => NormaliseLaw(accepts, s.key.value);
      case _ => assert AllNormal(accepts, s.replicas[step.replica]);
    }
    forall q | 0 <= q < |s'.replicas| ensures AllNormal(accepts, s'.replicas[q]) {
      assert AllNormal(accepts, s.replicas[q]);
    }
  }

  ghost predicate IsRun(accepts: Grammar, states: seq<State>, steps: seq<Step>) {
    && |states| == |steps| + 1
    && forall i :: 0 <= i < |steps| ==> Next(accepts, states[i], steps[i], states[i + 1])
  }

  /**
   From an absent or normalised key and idle replicas, the stored schedule and every running
   one stay normalised and acceptable, so applying and syncing them never fails.
   */
  lemma {:induction false} StoredAlwaysValid(accepts: Grammar, states: seq<State>, steps: seq<Step>, i: nat)
    requires IsRun(accepts, states, steps) && Inv(accepts, states[0]) && i < |states|
    ensures Inv(accepts, states[i])
  {
    if i > 0 {
      StoredAlwaysValid(accepts, states, steps, i - 1);
      assert Next(accepts, states[i - 1], steps[i - 1], states[i]);
      NextKeepsInv(accepts, states[i - 1], steps[i - 1], states[i]);
    }
  }

  // ---------------------------------------------------------------- convergence

  /** The key holds `v` and nothing under way would store or apply anything else. */
  ghost predicate Settled(s: State, v: string) {
    && s.key == Some(v)
    && forall r: nat, i: nat :: HasOp(s, r, i) ==> s.replicas[r].ops[i] == WillApply(v)
  }

  /** No new change request is made. */
  predicate IsSyncStep(step: Step) {
    step.SyncRead? || step.Apply? || step.Crash?
  }

  lemma WithoutOp(ops: seq<Op>, i: nat, j: nat)
    requires i < |ops| && j < |Without(ops, i)|
    ensures Without(ops, i)[j] in ops
    ensures exists k :: 0 <= k < |ops| && ops[k] == Without(ops, i)[j]
  {
    assert Without(ops, i)[j] == ops[if j < i then j else j + 1];
  }

  lemma SettledStep(accepts: Grammar, s: State, step: Step, s': State, v: string)
    requires Settled(s, v) && IsNormal(accepts, v) && IsSyncStep(step) && Next(accepts, s, step, s')
    ensures Settled(s', v) && |s'.replicas| == |s.replicas|
    ensures forall r :: 0 <= r < |s.replicas| ==>
      s'.replicas[r].spec ==
        if step.replica != r || step.SyncRead? then s.replicas[r].spec else if step.Apply? then v else ""
  {
    NormaliseLaw(accepts, v);
    forall q: nat, j: nat | HasOp(s', q, j) ensures s'.replicas[q].ops[j] == WillApply(v) {
      if q != step.replica {
        assert HasOp(s, q, j);
      } else if step.SyncRead? {
        if j < |s.replicas[q].ops| {
          assert HasOp(s, q, j);
        }
      } else if step.Apply? {
        WithoutOp(s.replicas[q].ops, step.op, j);
        var k: nat :| k < |s.replicas[q].ops| && s.replicas[q].ops[k] == s'.replicas[q].ops[j];
        assert HasOp(s, q, k);
      }
    }
    if step.Apply? {
      assert HasOp(s, step.replica, step.op);
    }
  }

  lemma {:induction false} SettledRun(accepts: Grammar, states: seq<State>, steps: seq<Step>, v: string, j: nat)
    requires IsRun(accepts, states, steps) && j < |states| && IsNormal(accepts, v) && Settled(states[0], v)
    requires forall i :: 0 <= i < |steps| ==> IsSyncStep(steps[i])
    ensures Settled(states[j], v) && |states[j].replicas| == |states[0].replicas|
  {
    if j > 0 {
      SettledRun(accepts, states, steps, v, j - 1);
      assert Next(accepts, states[j - 1], steps[j - 1], states[j]);
      SettledStep(accepts, states[j - 1], steps[j - 1], states[j], v);
    }
  }

  /**
   Once writes and in-flight applies have stopped, a replica that has completed one sync runs
   the stored schedule, and from then on for as long as it does not crash.
   */
  lemma {:induction false} SyncConverges(
    accepts: Grammar, states: seq<State>, steps: seq<Step>, v: string, r: nat, m: nat, j: nat)
    requires IsRun(accepts, states, steps) && IsNormal(accepts, v) && Settled(states[0], v)
    requires forall i :: 0 <= i < |steps| ==> IsSyncStep(steps[i])
    requires r < |states[0].replicas| && m < j < |states| && steps[m].Apply? && steps[m].replica == r
    requires forall i :: m < i < j ==> steps[i] != Crash(r)
    ensures r < |states[j].replicas| && states[j].key == Some(v) && states[j].replicas[r].spec == v
  {
    SettledRun(accepts, states, steps, v, j - 1);
    assert Next(accepts, states[j - 1], steps[j - 1], states[j]);
    SettledStep(accepts, states[j - 1], steps[j - 1], states[j], v);
    if m < j - 1 {
      SyncConverges(accepts, states, steps, v, r, m, j - 1);
    }
  }

  /** Replica `r` has completed a sync within the first `j` steps and not crashed since. */
  ghost predicate HasSynced(steps: seq<Step>, j: nat, r: int) {
    exists m :: SyncedAt(steps, j, r, m)
  }

  ghost predicate SyncedAt(steps: seq<Step>, j: nat, r: int, m: int) {
    && 0 <= m < j <= |steps| && steps[m].Apply? && steps[m].replica == r
    && forall i :: m < i < j ==> !(steps[i].Crash? && steps[i].replica == r)
  }

  /** When every replica has completed a sync since its last crash, every scheduler equals the store. */
  lemma AllConverge(accepts: Grammar, states: seq<State>, steps: seq<Step>, v: string, j: nat)
    requires IsRun(accepts, states, steps) && IsNormal(accepts, v) && Settled(states[0], v) && j < |states|
    requires forall i :: 0 <= i < |steps| ==> IsSyncStep(steps[i])
    requires forall r :: 0 <= r < |states[0].replicas| ==> HasSynced(steps, j, r)
    ensures |states[j].replicas| == |states[0].replicas|
    ensures forall r :: 0 <= r < |states[j].replicas| ==> Some(states[j].replicas[r].spec) == states[j].key
  {
    SettledRun(accepts, states, steps, v, j);
    forall r | 0 <= r < |states[j].replicas| ensures Some(states[j].replicas[r].spec) == states[j].key {
      assert HasSynced(steps, j, r);
      var m :| SyncedAt(steps, j, r, m);
      SyncConverges(accepts, states, steps, v, r, m, j);
    }
  }

  // ---------------------------------------------------------------- divergence

  ghost predicate Agrees(s: State, r: nat) {
    r < |s.replicas| && s.key == Some(s.replicas[r].spec)
  }

  ghost predicate Idle(s: State) {
    forall r :: 0 <= r < |s.replicas| ==> s.replicas[r].ops == []
  }

  /**
   Nothing serialises the write of a change request and its apply. Two requests on one replica
   can store `b` and then `c` and apply them the other way round: the run ends with nothing
   under way, `c` stored and `b` running, and stays so until a later sync.
   */
  lemma CrossedRequestsDiverge(accepts: Grammar, a: string, b: string, c: string, running: string)
    returns (states: seq<State>, steps: seq<Step>)
    requires IsNormal(accepts, a) && IsNormal(accepts, b) && IsNormal(accepts, c) && a != b && a != c && b != c
    ensures IsRun(accepts, states, steps) && states[0] == State(Some(a), [Replica(running, [])])
    ensures states[|states| - 1] == State(Some(c), [Replica(b, [])])
    ensures Idle(states[|states| - 1]) && !Agrees(states[|states| - 1], 0)
  {
    var puts, mixed, applies := [WillPut(b), WillPut(c)], [WillApply(b), WillPut(c)], [WillApply(b), WillApply(c)];
    RequestAlone(accepts, a, running, [], b, [WillPut(b)]);
    RequestAlone(accepts, a, running, [WillPut(b)], c, puts);
    PutAlone(accepts, a, running, puts, 0, mixed);
    PutAlone(accepts, b, running, mixed, 1, applies);
    ApplyAlone(accepts, c, running, applies, 1, [WillApply(b)]);
    ApplyAlone(accepts, c, c, [WillApply(b)], 0, []);
    states, steps := [Alone(a, running, [])], [];
    states, steps := Extend(accepts, states, steps, SetRead(0, b), Alone(a, running, [WillPut(b)]));
    states, steps := Extend(accepts, states, steps, SetRead(0, c), Alone(a, running, puts));
    states, steps := Extend(accepts, states, steps, Put(0, 0, true, true), Alone(b, running, mixed));
    states, steps := Extend(accepts, states, steps, Put(0, 1, true, true), Alone(c, running, applies));
    states, steps := Extend(accepts, states, steps, Apply(0, 1), Alone(c, c, [WillApply(b)]));
    states, steps := Extend(accepts, states, steps, Apply(0, 0), Alone(c, b, []));
  }

  /** A run goes on with one more step. */
  lemma Extend(accepts: Grammar, states: seq<State>, steps: seq<Step>, step: Step, s': State)
    returns (states': seq<State>, steps': seq<Step>)
    requires IsRun(accepts, states, steps) && Next(accepts, states[|states| - 1], step, s')
    ensures IsRun(accepts, states', steps')
    ensures states'[0] == states[0] && states'[|states'| - 1] == s'
  {
    states', steps' := states + [s'], steps + [step];
    forall i | 0 <= i < |steps'| ensures Next(accepts, states'[i], steps'[i], states'[i + 1]) {
      if i < |steps| {
        assert Next(accepts, states[i], steps[i], states[i + 1]);
      }
    }
  }

  function Alone(key: string, spec: string, ops: seq<Op>): State {
    State(Some(key), [Replica(spec, ops)])
  }

  lemma RequestAlone(accepts: Grammar, key: string, spec: string, ops: seq<Op>, expr: string, ops': seq<Op>)
    requires IsNormal(accepts, key) && IsNormal(accepts, expr) && expr != key && ops' == ops + [WillPut(expr)]
    ensures Next(accepts, Alone(key, spec, ops), SetRead(0, expr), Alone(key, spec, ops'))
  {
    NormaliseLaw(accepts, key);
    NormaliseLaw(accepts, expr);
  }

  lemma PutAlone(accepts: Grammar, key: string, spec: string, ops: seq<Op>, i: nat, ops': seq<Op>)
    requires i < |ops| && ops[i].WillPut? && ops' == ops[i := WillApply(ops[i].expr)]
    ensures Next(accepts, Alone(key, spec, ops), Put(0, i, true, true), Alone(ops[i].expr, spec, ops'))
  {
    assert HasOp(Alone(key, spec, ops), 0, i);
  }

  lemma ApplyAlone(accepts: Grammar, key: string, spec: string, ops: seq<Op>, i: nat, ops': seq<Op>)
    requires i < |ops| && ops[i].WillApply? && ops' == Without(ops, i)
    ensures Next(accepts, Alone(key, spec, ops), Apply(0, i), Alone(key, ops[i].expr, ops'))
  {
    assert HasOp(Alone(key, spec, ops), 0, i);
  }

  /** A step of an operation under way; no new one begins and no replica crashes. */
  predicate IsCompletion(step: Step) {
    step.Put? || step.Apply?
  }

  /** A run that starts in `s` and lets everything under way end, one way or another. */
  ghost predicate Completes(accepts: Grammar, s: State, states: seq<State>, steps: seq<Step>) {
    && IsRun(accepts, states, steps) && states[0] == s
    && (forall i :: 0 <= i < |steps| ==> IsCompletion(steps[i]))
    && Idle(states[|states| - 1])
  }

  /** A write under way that would change the stored value, or an apply that would leave `r` with another one. */
  ghost predicate Harmful(s: State, r: nat, q: nat, i: nat) {
    && HasOp(s, q, i) && (s.replicas[q].ops[i].WillApply? ==> q == r)
    && s.key != Some(s.replicas[q].ops[i].expr)
  }

  ghost predicate Applying(s: State, r: nat) {
    exists i: nat :: HasOp(s, r, i) && s.replicas[r].ops[i].WillApply?
  }

  /**
   Something is stored; nothing under way would store or, on `r`, apply another value; and
   `r` runs the stored value already or is about to.
   */
  ghost predicate Sure(s: State, r: nat) {
    s.key.Some? && (forall q: nat, i: nat :: !Harmful(s, r, q, i)) && (Agrees(s, r) || Applying(s, r))
  }

  lemma SureStep(accepts: Grammar, s: State, step: Step, s': State, r: nat)
    requires r < |s.replicas| && Sure(s, r) && IsCompletion(step) && Next(accepts, s, step, s')
    ensures |s'.replicas| == |s.replicas| && Sure(s', r)
  {
    var p, i := step.replica, step.op;
    assert HasOp(s, p, i) && !Harmful(s, r, p, i);
    assert s'.key == s.key;
    forall q: nat, j: nat ensures !Harmful(s', r, q, j) {
      if HasOp(s', q, j) {
        var k := OriginOf(accepts, s, step, s', q, j);
        assert !Harmful(s, r, q, k);
      }
    }
    if !(step.Apply? && p == r) && !Agrees(s, r) {
      StillApplying(accepts, s, step, s', r);
    }
  }

  /** An operation under way after the step was under way before, perhaps as the write that led to it. */
  lemma OriginOf(accepts: Grammar, s: State, step: Step, s': State, q: nat, j: nat) returns (k: nat)
    requires IsCompletion(step) && Next(accepts, s, step, s') && HasOp(s', q, j)
    ensures HasOp(s, q, k) && s.replicas[q].ops[k].expr == s'.replicas[q].ops[j].expr
    ensures s.replicas[q].ops[k] == s'.replicas[q].ops[j] || !s.replicas[q].ops[k].WillApply?
  {
    k := j;
    if q == step.replica && |s'.replicas[q].ops| < |s.replicas[q].ops| && j >= step.op {
      k := j + 1;
    }
  }

  lemma StillApplying(accepts: Grammar, s: State, step: Step, s': State, r: nat)
    requires IsCompletion(step) && Next(accepts, s, step, s') && Applying(s, r)
    requires !(step.Apply? && step.replica == r)
    ensures Applying(s', r)
  {
    var i: nat :| HasOp(s, r, i) && s.replicas[r].ops[i].WillApply?;
    var j: nat := if step.replica == r && |s'.replicas[r].ops| < |s.replicas[r].ops| && i > step.op then i - 1 else i;
    assert HasOp(s', r, j) && s'.replicas[r].ops[j].WillApply?;
  }

  lemma {:induction false} SureRun(accepts: Grammar, states: seq<State>, steps: seq<Step>, r: nat, j: nat)
    requires IsRun(accepts, states, steps) && r < |states[0].replicas| && Sure(states[0], r) && j < |states|
    requires forall i :: 0 <= i < |steps| ==> IsCompletion(steps[i])
    ensures r < |states[j].replicas| && Sure(states[j], r)
  {
    if j > 0 {
      SureRun(accepts, states, steps, r, j - 1);
      assert Next(accepts, states[j - 1], steps[j - 1], states[j]);
      SureStep(accepts, states[j - 1], steps[j - 1], states[j], r);
    }
  }

  function OpCount(replicas: seq<Replica>): nat {
    if replicas == [] then 0 else |replicas[0].ops| + OpCount(replicas[1..])
  }

  lemma {:induction false} OpCountUpdate(replicas: seq<Replica>, r: nat, replica: Replica)
    requires r < |replicas|
    ensures OpCount(replicas[r := replica]) == OpCount(replicas) - |replicas[r].ops| + |replica.ops|
  {
    if r == 0 {
      assert replicas[r := replica][1..] == replicas[1..];
    } else {
      OpCountUpdate(replicas[1..], r - 1, replica);
      assert replicas[r := replica][1..] == replicas[1..][r - 1 := replica];
    }
  }

  lemma StepFirst(accepts: Grammar, s: State, step: Step, s': State, states: seq<State>, steps: seq<Step>)
    requires IsCompletion(step) && Next(accepts, s, step, s') && Completes(accepts, s', states, steps)
    ensures Completes(accepts, s, [s] + states, [step] + steps)
  {
    var states', steps' := [s] + states, [step] + steps;
    forall i | 0 <= i < |steps'| ensures Next(accepts, states'[i], steps'[i], states'[i + 1]) {
      if i > 0 {
        assert Next(accepts, states[i - 1], steps[i - 1], states[i]);
      }
    }
  }

  /** One operation ends without changing the store: an apply is made, a write fails. */
  lemma Finish(accepts: Grammar, s: State, q: nat, i: nat) returns (step: Step, s': State)
    requires HasOp(s, q, i)
    ensures IsCompletion(step) && Next(accepts, s, step, s') && s'.key == s.key
    ensures |s'.replicas| == |s.replicas| && s'.replicas[q].ops == Without(s.replicas[q].ops, i)
    ensures s'.replicas[q].spec ==
      if s.replicas[q].ops[i].WillApply? then s.replicas[q].ops[i].expr else s.replicas[q].spec
    ensures forall p :: 0 <= p < |s.replicas| && p != q ==> s'.replicas[p] == s.replicas[p]
    ensures OpCount(s'.replicas) < OpCount(s.replicas)
  {
    var replica := s.replicas[q];
    var op, rest := replica.ops[i], Without(replica.ops, i);
    var replica' := Replica(if op.WillApply? then op.expr else replica.spec, rest);
    step := if op.WillApply? then Apply(q, i) else Put(q, i, false, false);
    s' := s.(replicas := s.replicas[q := replica']);
    OpCountUpdate(s.replicas, q, replica');
  }

  /** If nothing is stored, or nothing will be applied on `r`, failed writes leave things as they are. */
  lemma {:induction false} NothingHelps(accepts: Grammar, s: State, r: nat) returns (states: seq<State>, steps: seq<Step>)
    requires r < |s.replicas| && !Agrees(s, r) && (s.key.None? || !Applying(s, r))
    ensures Completes(accepts, s, states, steps) && !Agrees(states[|states| - 1], r)
    decreases OpCount(s.replicas)
  {
    if Idle(s) {
      states, steps := [s], [];
    } else {
      var q :| 0 <= q < |s.replicas| && s.replicas[q].ops != [];
      assert HasOp(s, q, 0);
      var step, s' := Finish(accepts, s, q, 0);
      if i: nat :| HasOp(s', r, i) && s'.replicas[r].ops[i].WillApply? {
        assert HasOp(s, r, if q == r then i + 1 else i);
      }
      states, steps := NothingHelps(accepts, s', r);
      StepFirst(accepts, s, step, s', states, steps);
      states, steps := [s] + states, [step] + steps;
    }
  }

  /** A harmful operation does its harm when it is the last one to end. */
  lemma {:induction false} HarmLast(accepts: Grammar, s: State, r: nat, q: nat, i: nat)
    returns (states: seq<State>, steps: seq<Step>)
    requires r < |s.replicas| && s.key.Some? && Harmful(s, r, q, i)
    ensures Completes(accepts, s, states, steps) && !Agrees(states[|states| - 1], r)
    decreases OpCount(s.replicas)
  {
    var step, s';
    if OnlyOne(s, q) {
      step, s' := LastHarm(accepts, s, r, q);
      states, steps := [s'], [];
    } else {
      var i';
      step, s', i' := OtherFirst(accepts, s, r, q, i);
      states, steps := HarmLast(accepts, s', r, q, i');
    }
    StepFirst(accepts, s, step, s', states, steps);
    states, steps := [s] + states, [step] + steps;
  }

  /** Nothing is under way but one operation on `q`. */
  ghost predicate OnlyOne(s: State, q: nat) {
    && q < |s.replicas| && |s.replicas[q].ops| == 1
    && forall p :: 0 <= p < |s.replicas| && p != q ==> s.replicas[p].ops == []
  }

  /** An operation other than the harmful one ends first. */
  lemma OtherFirst(accepts: Grammar, s: State, r: nat, q: nat, i: nat) returns (step: Step, s': State, i': nat)
    requires r < |s.replicas| && s.key.Some? && Harmful(s, r, q, i) && !OnlyOne(s, q)
    ensures IsCompletion(step) && Next(accepts, s, step, s') && s'.key == s.key && |s'.replicas| == |s.replicas|
    ensures Harmful(s', r, q, i') && OpCount(s'.replicas) < OpCount(s.replicas)
  {
    if |s.replicas[q].ops| > 1 {
      var j := if i == 0 then 1 else 0;
      assert HasOp(s, q, j);
      step, s' := Finish(accepts, s, q, j);
      i' := if i == 0 then 0 else i - 1;
      assert s'.replicas[q].ops[i'] == s.replicas[q].ops[i];
    } else {
      var p: nat :| p < |s.replicas| && p != q && s.replicas[p].ops != [];
      assert HasOp(s, p, 0);
      step, s' := Finish(accepts, s, p, 0);
      i' := i;
    }
  }

  lemma LastHarm(accepts: Grammar, s: State, r: nat, q: nat) returns (step: Step, s': State)
    requires r < |s.replicas| && s.key.Some? && Harmful(s, r, q, 0) && OnlyOne(s, q)
    ensures IsCompletion(step) && Next(accepts, s, step, s') && Idle(s') && !Agrees(s', r)
  {
    var op := s.replicas[q].ops[0];
    if op.WillApply? || !Agrees(s, r) {
      step, s' := Finish(accepts, s, q, 0);
    } else {
      step := Put(q, 0, true, false);
      s' := State(Some(op.expr), s.replicas[q := s.replicas[q].(ops := Without(s.replicas[q].ops, 0))]);
    }
  }

  /**
   When nothing new begins, replica `r` is sure to run the stored value once everything under
   way has ended, in whatever order and whichever writes fail, if and only if something is
   stored, nothing under way would store another value or apply another one on `r`, and `r` runs
   the stored value now or is about to apply it.
   */
  lemma SureToAgreeIff(accepts: Grammar, s: State, r: nat)
    requires r < |s.replicas|
    ensures (forall states: seq<State>, steps: seq<Step> ::
               Completes(accepts, s, states, steps) ==> Agrees(states[|states| - 1], r))
            <==> Sure(s, r)
  {
    if Sure(s, r) {
      forall states: seq<State>, steps: seq<Step> | Completes(accepts, s, states, steps)
        ensures Agrees(states[|states| - 1], r)
      {
        SureRun(accepts, states, steps, r, |states| - 1);
      }
    } else if q: nat, i: nat :| s.key.Some? && Harmful(s, r, q, i) {
      var states, steps := HarmLast(accepts, s, r, q, i);
    } else {
      var states, steps := NothingHelps(accepts, s, r);
    }
  }

  /** Right after a request has stored its value the replica is sure to agree, if no other request is under way. */
  lemma StoredIsSure(accepts: Grammar, a: string, b: string, running: string)
    returns (states: seq<State>, steps: seq<Step>)
    requires IsNormal(accepts, a) && IsNormal(accepts, b) && a != b && running != b
    ensures IsRun(accepts, states, steps) && states[0] == Alone(a, running, [])
    ensures !Agrees(states[|states| - 1], 0) && Sure(states[|states| - 1], 0)
  {
    states, steps := [Alone(a, running, [])], [];
    RequestAlone(accepts, a, running, [], b, [WillPut(b)]);
    PutAlone(accepts, a, running, [WillPut(b)], 0, [WillApply(b)]);
    states, steps := Extend(accepts, states, steps, SetRead(0, b), Alone(a, running, [WillPut(b)]));
    states, steps := Extend(accepts, states, steps, Put(0, 0, true, true), Alone(b, running, [WillApply(b)]));
    assert HasOp(states[|states| - 1], 0, 0);
  }
}
