/**
 The produce-tasks schedule: the cron manager (pkg/cron/cron.go), the scheduler that owns one
 task in it (internal/scrapetask/scheduler.go) and the runtime setting behind it
 (internal/runtimeconfig/service.go).

 The cron parser is a fixed predicate on strings that rejects the empty one; the manager and
 the service are configured with the same grammar, so they share it. Strings are sequences of
 code points here, because that is what trimming looks at.
 */
module Schedule {
  import opened Options
  import opened Processor
  import opened ReportLaws

  /** The cron parser, given as the predicate it decides. */
  type Grammar = string -> bool

  predicate Accepted(accepts: Grammar, spec: string) {
    accepts(spec)
  }

  // ---------------------------------------------------------------- normalisation

  /** `unicode.IsSpace` */
  predicate IsSpace(c: char) {
    var n := c as int;
    || 9 <= n <= 13 || n == 0x20 || n == 0x85 || n == 0xA0 || n == 0x1680 || 0x2000 <= n <= 0x200A
    || n == 0x2028 || n == 0x2029 || n == 0x202F || n == 0x205F || n == 0x3000
  }

  function TrimLeft(s: string): string {
    if s != "" && IsSpace(s[0]) then TrimLeft(s[1..]) else s
  }

  function TrimRight(s: string): string {
    if s != "" && IsSpace(s[|s| - 1]) then TrimRight(s[..|s| - 1]) else s
  }

  /** `strings.TrimSpace` */
  function Trim(s: string): string {
    TrimRight(TrimLeft(s))
  }

  predicate Trimmed(s: string) {
    s == "" || (!IsSpace(s[0]) && !IsSpace(s[|s| - 1]))
  }

  lemma {:induction false} TrimLeftStarts(s: string)
    ensures TrimLeft(s) == "" || !IsSpace(TrimLeft(s)[0])
  {
    if s != "" && IsSpace(s[0]) {
      TrimLeftStarts(s[1..]);
    }
  }

  lemma {:induction false} TrimRightEnds(s: string)
    ensures TrimRight(s) <= s
    ensures TrimRight(s) == "" || !IsSpace(TrimRight(s)[|TrimRight(s)| - 1])
  {
    if s != "" && IsSpace(s[|s| - 1]) {
      TrimRightEnds(s[..|s| - 1]);
    }
  }

  /** Trimming is idempotent: its results are trimmed, and trimmed strings are left alone. */
  lemma TrimIdempotent(s: string)
    ensures Trimmed(Trim(s))
    ensures Trimmed(s) ==> Trim(s) == s
    ensures Trim(Trim(s)) == Trim(s)
  {
    TrimLeftStarts(s);
    TrimRightEnds(TrimLeft(s));
  }

  predicate AllSpace(s: string) {
    forall i :: 0 <= i < |s| ==> IsSpace(s[i])
  }

  /** `s` is `inner` with any run of white space before and after it. */
  ghost predicate Padded(s: string, inner: string) {
    exists i, j :: PaddedAt(s, inner, i, j)
  }

  ghost predicate PaddedAt(s: string, inner: string, i: int, j: int) {
    0 <= i <= j <= |s| && s[i..j] == inner && AllSpace(s[..i]) && AllSpace(s[j..])
  }

  lemma {:induction false} TrimLeftAt(s: string) returns (i: nat)
    ensures i <= |s| && TrimLeft(s) == s[i..] && AllSpace(s[..i])
  {
    if s != "" && IsSpace(s[0]) {
      var k := TrimLeftAt(s[1..]);
      i := k + 1;
      assert forall j :: 0 < j < i ==> s[..i][j] == s[1..][..k][j - 1];
    } else {
      i := 0;
    }
  }

  lemma {:induction false} TrimRightAt(s: string) returns (j: nat)
    ensures j <= |s| && TrimRight(s) == s[..j] && AllSpace(s[j..])
  {
    if s != "" && IsSpace(s[|s| - 1]) {
      var front := s[..|s| - 1];
      j := TrimRightAt(front);
      assert forall k :: 0 <= k < |front| - j ==> s[j..][k] == front[j..][k];
    } else {
      j := |s|;
    }
  }

  /** Trimming takes away white space and nothing else. */
  lemma TrimRemovesSpace(s: string)
    ensures Padded(s, Trim(s))
  {
    var i := TrimLeftAt(s);
    var k := TrimRightAt(s[i..]);
    var j := i + k;
    assert s[i..][..k] == s[i..j] && s[i..][k..] == s[j..];
    assert PaddedAt(s, Trim(s), i, j);
  }

  /** It is determined by that: a padded expression has only one trimmed core. */
  lemma TrimIsCore(s: string, inner: string)
    requires Padded(s, inner) && Trimmed(inner)
    ensures Trim(s) == inner
  {
    TrimRemovesSpace(s);
    TrimIdempotent(s);
    var i, j :| PaddedAt(s, inner, i, j);
    var k, l :| PaddedAt(s, Trim(s), k, l);
    if inner != "" {
      CoreInside(s, inner, i, j, Trim(s), k, l);
    }
    if Trim(s) != "" {
      CoreInside(s, Trim(s), k, l, inner, i, j);
    }
  }

  /** A trimmed non-empty core lies within whatever padding leaves of the string. */
  lemma CoreInside(s: string, inner: string, i: int, j: int, other: string, k: int, l: int)
    requires PaddedAt(s, inner, i, j) && PaddedAt(s, other, k, l) && Trimmed(inner) && inner != ""
    ensures k <= i && j <= l
  {
    assert inner[0] == s[i] && inner[|inner| - 1] == s[j - 1];
    assert forall x :: 0 <= x < k ==> s[x] == s[..k][x];
    assert forall x :: l <= x < |s| ==> s[x] == s[l..][x - l];
  }

  /** `normalizeAndValidateCronExpr` */
  function Normalise(accepts: Grammar, spec: string): Option<string> {
    var trimmed := Trim(spec);
    if trimmed == "" || !Accepted(accepts, trimmed) then None else Some(trimmed)
  }

  predicate IsNormal(accepts: Grammar, spec: string) {
    spec != "" && Trimmed(spec) && Accepted(accepts, spec)
  }

  /**
   Normalisation succeeds when the trimmed expression is normal and returns that; normal
   expressions are its fixed points.
   */
  lemma NormaliseLaw(accepts: Grammar, spec: string)
    ensures Normalise(accepts, spec).Some? <==> IsNormal(accepts, Trim(spec))
    ensures Normalise(accepts, spec).Some? ==> IsNormal(accepts, Normalise(accepts, spec).value)
    ensures IsNormal(accepts, spec) <==> Normalise(accepts, spec) == Some(spec)
  {
    TrimIdempotent(spec);
  }

  /** Normalisation finds the normal expression under the padding, and fails exactly when there is none. */
  lemma NormaliseFinds(accepts: Grammar, spec: string)
    ensures forall e :: IsNormal(accepts, e) && Padded(spec, e) <==> Normalise(accepts, spec) == Some(e)
    ensures Normalise(accepts, spec).None? <==> forall e :: Padded(spec, e) ==> !IsNormal(accepts, e)
  {
    TrimIdempotent(spec);
    TrimRemovesSpace(spec);
    forall e | Padded(spec, e) && IsNormal(accepts, e) ensures Trim(spec) == e {
      TrimIsCore(spec, e);
    }
  }

  /** An expression that begins and ends with visible ASCII characters is left alone. */
  lemma VisibleStays(s: string)
    requires s != "" && '!' <= s[0] <= '~' && '!' <= s[|s| - 1] <= '~'
    ensures Trim(s) == s
  {
    TrimIdempotent(s);
  }

  /** Blanks, tabs and line ends around an expression do not matter. */
  lemma AsciiPadding(accepts: Grammar, e: string, before: string, after: string)
    requires IsNormal(accepts, e)
    requires forall c :: c in before || c in after ==> c == ' ' || c == '\t' || c == '\n' || c == '\r'
    ensures Normalise(accepts, before + e + after) == Some(e)
  {
    var s, i := before + e + after, |before|;
    assert s[i..i + |e|] == e && s[..i] == before && s[i + |e|..] == after;
    assert AllSpace(before) by { assert forall k :: 0 <= k < |before| ==> before[k] in before; }
    assert AllSpace(after) by { assert forall k :: 0 <= k < |after| ==> after[k] in after; }
    assert PaddedAt(s, e, i, i + |e|);
    NormaliseFinds(accepts, s);
  }

  // ---------------------------------------------------------------- the cron manager

  datatype Entry = Entry(spec: string, name: string)

  class CronManager {
    const accepts: Grammar
    var entries: map<string, int>
    var live: map<int, Entry>     // the entries of the cron library, by id
    var nextId: int

    /** `entries` is a bijection between task names and the ids of the live cron entries. */
    ghost predicate Valid()
      reads this
    {
      && !Accepted(accepts, "")
      && (forall name :: name in entries ==> entries[name] in live && live[entries[name]].name == name)
      && (forall id :: id in live ==>
            id < nextId && live[id].name in entries && entries[live[id].name] == id && Accepted(accepts, live[id].spec))
    }

    /** The schedule in force for each task. */
    ghost function Schedules(): map<string, string>
      requires Valid()
      reads this
    {
      map name | name in entries :: live[entries[name]].spec
    }

    lemma RunningIsAccepted(name: string)
      requires Valid()
      ensures name in Schedules() ==> Accepted(accepts, Schedules()[name])
    {
      if name in entries {
        var id := entries[name];
        assert id in live && live[id].name == name;
        assert Accepted(accepts, live[id].spec);
      }
    }

    constructor (accepts: Grammar)
      requires !Accepted(accepts, "")
      ensures Valid() && this.accepts == accepts && Schedules() == map[]
    {
      this.accepts, entries, live, nextId := accepts, map[], map[], 1;
    }

    method AddTask(spec: string, name: string) returns (ok: bool)
      requires Valid()
      modifies this
      ensures Valid()
      ensures ok <==> name !in old(Schedules()) && Accepted(accepts, spec)
      ensures Schedules() == if ok then old(Schedules())[name := spec] else old(Schedules())
      ensures ok ==> name in entries && entries[name] !in old(live)
    {
      if name in entries {
        return false;
      }
      if !Accepted(accepts, spec) {
        return false;
      }
      live := live[nextId := Entry(spec, name)];
      entries := entries[name := nextId];
      nextId := nextId + 1;
      return true;
    }

    /** False stands for ErrSpecifiedTaskNotFound, the only error. */
    method RemoveTask(name: string) returns (found: bool)
      requires Valid()
      modifies this
      ensures Valid()
      ensures found <==> name in old(Schedules())
      ensures Schedules() == old(Schedules()) - {name}
    {
      if name !in entries {
        return false;
      }
      live := live - {entries[name]};
      entries := entries - {name};
      return true;
    }
  }

  // ---------------------------------------------------------------- the scheduler

  class Scheduler {
    const manager: CronManager
    const task: string
    var currentSpec: string

    /** A non-empty `currentSpec` holds exactly when the task is live with that schedule. */
    ghost predicate Valid()
      reads this, manager
    {
      && manager.Valid()
      && (currentSpec == "" ==> task !in manager.Schedules())
      && (currentSpec != "" ==> task in manager.Schedules() && manager.Schedules()[task] == currentSpec)
    }

    constructor (manager: CronManager, task: string)
      requires manager.Valid() && task !in manager.Schedules()
      ensures Valid() && this.manager == manager && this.task == task && currentSpec == ""
    {
      this.manager, this.task, currentSpec := manager, task, "";
    }

    /** The first half of an update: the task is taken out and, if possible, put in again with `spec`. */
    method Replace(spec: string) returns (ok: bool)
      requires manager.Valid()
      modifies manager
      ensures manager.Valid()
      ensures ok <==> Accepted(manager.accepts, spec)
      ensures manager.Schedules() ==
        if ok then old(manager.Schedules())[task := spec] else old(manager.Schedules()) - {task}
    {
      ghost var before := manager.Schedules();
      var found := manager.RemoveTask(task);
      ok := manager.AddTask(spec, task);
      assert (before - {task})[task := spec] == before[task := spec];
    }

    /**
     `UpdateSchedule`: remove, add, and on failure add the previous schedule back. The rollback
     never fails, and a failed update leaves every schedule as it was.
     */
    method UpdateSchedule(spec: string) returns (ok: bool, rollbackFailed: bool)
      requires Valid()
      modifies this, manager
      ensures Valid()
      ensures ok <==> spec == old(currentSpec) || Accepted(manager.accepts, spec)
      ensures !rollbackFailed
      ensures currentSpec == if ok then spec else old(currentSpec)
      ensures manager.Schedules() ==
        if ok && spec != "" then old(manager.Schedules())[task := spec] else old(manager.Schedules())
    {
      rollbackFailed := false;
      if spec == currentSpec {
        return true, false;
      }
      var prevSpec := currentSpec;
      ghost var before := manager.Schedules();
      manager.RunningIsAccepted(task);
      ok := Replace(spec);
      if !ok {
        if prevSpec != "" {
          var restored := manager.AddTask(prevSpec, task);
          rollbackFailed := !restored;
          assert (before - {task})[task := prevSpec] == before;
        } else {
          assert before - {task} == before;
        }
        return;
      }
      currentSpec := spec;
    }
  }

  // ---------------------------------------------------------------- the runtime setting

  /** What becomes of a write: it may be stored although an error is reported. */
  datatype Write = Stored | StoredSilently | Refused

  /** An etcd key. */
  class StoredKey<T> {
    var value: Option<T>

    constructor (value: Option<T>)
      ensures this.value == value
    {
      this.value := value;
    }

    method Put(v: T, write: Write) returns (ok: bool)
      modifies this
      ensures ok <==> write.Stored?
      ensures value == if write.Refused? then old(value) else Some(v)
    {
      if !write.Refused? {
        value := Some(v);
      }
      return write.Stored?;
    }

    /** `ensureKey`: the default is written only over an absent key. */
    method Ensure(v: T, readable: bool, write: Write) returns (ok: bool)
      modifies this
      ensures ok <==> readable && (old(value).Some? || write.Stored?)
      ensures value == if readable && old(value).None? && !write.Refused? then Some(v) else old(value)
    {
      if !readable {
        return false;
      }
      if value.Some? {
        return true;
      }
      ok := Put(v, write);
    }
  }

  /** What becomes of the storage calls of an operation. */
  datatype Reach = Reach(get: bool, put: Write, restore: Write)

  class ConfigService {
    const accepts: Grammar
    const key: StoredKey<string>
    const limitsKey: StoredKey<Limits>
    const applier: Scheduler?

    ghost predicate Valid()
      reads this, applier, if applier == null then {} else {applier.manager}
    {
      applier != null ==> applier.Valid()
    }

    /** Whether the applier, if there is one, will take `expr`. */
    ghost predicate Applicable(expr: string)
      reads this, applier, if applier == null then {} else {applier.manager}
    {
      applier == null || applier.currentSpec == expr || Accepted(applier.manager.accepts, expr)
    }

    /** `expr` is the normal expression `e`, with or without white space around it. */
    ghost predicate Wants(expr: string, e: string) {
      IsNormal(accepts, e) && Padded(expr, e)
    }

    /** And so is the stored value. */
    ghost predicate Holds(e: string)
      reads key
    {
      key.value.Some? && Wants(key.value.value, e)
    }

    /** The cron grammar of the scheduler is the service's own. */
    ghost predicate SharedGrammar()
      reads applier, if applier == null then {} else {applier.manager}
    {
      applier == null || applier.manager.accepts == accepts
    }

    ghost function RunningSpec(): string
      reads this, applier
    {
      if applier == null then "" else applier.currentSpec
    }

    constructor (accepts: Grammar, key: StoredKey<string>, limitsKey: StoredKey<Limits>, applier: Scheduler?)
      requires applier != null ==> applier.Valid()
      ensures Valid() && this.accepts == accepts && this.key == key && this.limitsKey == limitsKey && this.applier == applier
    {
      this.accepts, this.key, this.limitsKey, this.applier := accepts, key, limitsKey, applier;
    }

    /**
     `Bootstrap`: both defaults are checked before anything is touched; then the limits and after
     them the schedule are written, each only over an absent key. From absent or valid keys it
     leaves absent or valid keys, and when it succeeds both are there.
     */
    method Bootstrap(defaultLimits: Limits, defaultExpr: string, limits: Reach, reach: Reach) returns (ok: bool)
      modifies key, limitsKey
      ensures var n := Normalise(accepts, defaultExpr);
        var checked :=
          && defaultLimits.maxMetricNameLen > 0 && defaultLimits.maxLabelNameLen > 0
          && defaultLimits.maxLabelValueLen > 0 && defaultLimits.maxMetricCardinality > 0
          && defaultLimits.maxHistogramBuckets > 0 && defaultLimits.maxBytesWeight > 0 && n.Some?;
        var first := checked && limits.get && (old(limitsKey.value).Some? || limits.put.Stored?);
        && (ok <==> first && reach.get && (old(key.value).Some? || reach.put.Stored?))
        && limitsKey.value ==
           (if checked && limits.get && old(limitsKey.value).None? && !limits.put.Refused? then Some(defaultLimits)
            else old(limitsKey.value))
        && key.value ==
           (if first && reach.get && old(key.value).None? && !reach.put.Refused? then n else old(key.value))
      ensures ok ==> key.value.Some? && limitsKey.value.Some?
      ensures ok && old(key.value).None? ==> Padded(defaultExpr, key.value.value) && IsNormal(accepts, key.value.value)
      ensures old(LimitsHeld()) ==> LimitsHeld()
      ensures old(CronHeld()) ==> CronHeld()
    {
      if !ValidLimits(defaultLimits) {
        return false;
      }
      NormaliseFinds(accepts, defaultExpr);
      NormaliseLaw(accepts, defaultExpr);
      var normalised := Normalise(accepts, defaultExpr);
      if normalised.None? {
        return false;
      }
      ok := limitsKey.Ensure(defaultLimits, limits.get, limits.put);
      if !ok {
        return;
      }
      ok := key.Ensure(normalised.value, reach.get, reach.put);
    }

    ghost predicate LimitsHeld()
      reads limitsKey
    {
      limitsKey.value.Some? ==> ValidLimits(limitsKey.value.value)
    }

    ghost predicate CronHeld()
      reads key
    {
      key.value.Some? ==> IsNormal(accepts, key.value.value)
    }

    /**
     `GetProduceTasksCronExpr`: returns the normal expression that is stored, with or without
     white space around it, and fails exactly when there is none.
     */
    method GetCronExpr(reachable: bool) returns (r: Option<string>)
      ensures forall e :: r == Some(e) <==> reachable && Holds(e)
      ensures reachable && key.value.Some? && IsNormal(accepts, key.value.value) ==> r == key.value
    {
      if !reachable || key.value.None? {
        return None;
      }
      NormaliseFinds(accepts, key.value.value);
      NormaliseLaw(accepts, key.value.value);
      return Normalise(accepts, key.value.value);
    }

    /**
     `SetProduceTasksCronExpr`. It succeeds exactly when the new expression is acceptable, the
     stored one is present and acceptable too, the write, if one is needed, is acknowledged, and
     the scheduler takes the expression. With a shared grammar the scheduler always does, so
     the compensating write is never made; then a failed call leaves store and scheduler as they
     were, unless its write was stored silently.
     */
    method SetCronExpr(expr: string, reach: Reach) returns (ok: bool, compensated: bool)
      requires Valid()
      modifies key, applier, if applier == null then {} else {applier.manager}
      ensures Valid()
      ensures var n := Normalise(accepts, expr);
        var current := if old(key.value).Some? then Normalise(accepts, old(key.value).value) else None;
        var wanted := n.Some? && reach.get && current.Some?;
        var writes := wanted && current != n;
        && (ok <==> wanted && (current == n || (reach.put.Stored? && old(Applicable(n.value)))))
        && (compensated <==> writes && reach.put.Stored? && !old(Applicable(n.value)))
        && key.value ==
           (if !writes || reach.put.Refused? then old(key.value)
            else if compensated && !reach.restore.Refused? then current
            else n)
        && RunningSpec() == (if ok && current != n && applier != null then n.value else old(RunningSpec()))
      ensures SharedGrammar() ==> !compensated
      ensures reach.get && reach.put.Stored? && SharedGrammar() ==>
        forall e, d :: Wants(expr, e) && old(Holds(d)) && e != d ==>
          ok && key.value == Some(e) && (applier != null ==> applier.currentSpec == e)
      ensures forall e :: Wants(expr, e) && old(Holds(e)) && reach.get ==> ok && key.value == old(key.value)
      ensures (forall e :: Padded(expr, e) ==> !IsNormal(accepts, e)) ==> !ok && key.value == old(key.value)
      ensures SharedGrammar() && !ok && !reach.put.StoredSilently? ==>
        key.value == old(key.value) && RunningSpec() == old(RunningSpec())
    {
      compensated := false;
      NormaliseFinds(accepts, expr);
      var normalised := Normalise(accepts, expr);
      if normalised.None? {
        return false, false;
      }
      var cronExpr := normalised.value;
      if key.value.Some? {
        NormaliseFinds(accepts, key.value.value);
      }
      var loaded := GetCronExpr(reach.get);
      if loaded.None? {
        return false, false;
      }
      if loaded.value == cronExpr {
        return true, false;
      }
      ok := key.Put(cronExpr, reach.put);
      if !ok {
        return;
      }
      if applier != null {
        var applied, _ := applier.UpdateSchedule(cronExpr);
        if !applied {
          var _ := key.Put(loaded.value, reach.restore);
          return false, true;
        }
      }
      return true, false;
    }
  }

  /** `Sync`, and `Init` at start: load the stored expression and run it. */
  method Sync(scheduler: Scheduler, service: ConfigService, reachable: bool) returns (ok: bool)
    requires scheduler.Valid() && scheduler.manager.accepts == service.accepts
    modifies scheduler, scheduler.manager
    ensures scheduler.Valid()
    ensures var stored := if service.key.value.Some? then Normalise(service.accepts, service.key.value.value) else None;
      && (ok <==> reachable && stored.Some?)
      && scheduler.currentSpec == if ok then stored.value else old(scheduler.currentSpec)
  {
    if service.key.value.Some? {
      NormaliseFinds(service.accepts, service.key.value.value);
    }
    var spec := service.GetCronExpr(reachable);
    if spec.None? {
      return false;
    }
    var applied, _ := scheduler.UpdateSchedule(spec.value);
    return applied;
  }
}
