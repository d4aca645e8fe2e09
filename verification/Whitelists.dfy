/**
 The whitelist tables and what a scrape sees of them
 (internal/storage/postgres/whitelist.go, internal/scraper/whitelist.go).

 The unique indexes of migration 00007 make each table a map from its key columns.
 */
module Whitelists {
  import opened Options
  import opened CheckLists

  datatype MetricKey = MetricKey(targetGroup: string, env: string, metric: string)

  datatype TargetKey = TargetKey(targetGroup: string, env: string)

  type Limits = map<string, int>

  datatype Tables = Tables(metrics: map<MetricKey, Limits>, targets: map<TargetKey, seq<string>>)

  datatype Request =
    | UpsertMetric(mkey: MetricKey, limits: Limits)
    | DeleteMetric(mkey: MetricKey)
    | UpsertTarget(tkey: TargetKey, checks: seq<string>)
    | DeleteTarget(tkey: TargetKey)

  predicate ValidLimits(limits: Limits) {
    limits != map[] && forall c :: c in limits ==> c in METRIC_CHECKS && limits[c] > 0
  }

  predicate ValidMetricKey(k: MetricKey) {
    k.targetGroup != "" && k.env != "" && k.metric != ""
  }

  predicate ValidTargetKey(k: TargetKey) {
    k.targetGroup != "" && k.env != ""
  }

  /** The validation in front of each statement. */
  predicate Admitted(r: Request) {
    match r
    case UpsertMetric(k, limits) => ValidMetricKey(k) && ValidLimits(limits)
    case DeleteMetric(k) => ValidMetricKey(k)
    case UpsertTarget(k, checks) => ValidTargetKey(k) && MarshalTargetChecks(checks).Ok?
    case DeleteTarget(k) => ValidTargetKey(k)
  }

  function Apply(t: Tables, r: Request): Tables {
    if !Admitted(r) then t
    else
      match r
      case UpsertMetric(k, limits) => t.(metrics := t.metrics[k := limits])
      case DeleteMetric(k) => t.(metrics := t.metrics - {k})
      case UpsertTarget(k, checks) => t.(targets := t.targets[k := Normal(checks)])
      case DeleteTarget(k) => t.(targets := t.targets - {k})
  }

  function After(rs: seq<Request>): Tables {
    if rs == [] then Tables(map[], map[]) else Apply(After(rs[..|rs| - 1]), rs[|rs| - 1])
  }

  class WhitelistStore {
    var tables: Tables

    constructor ()
      ensures tables == Tables(map[], map[])
    {
      tables := Tables(map[], map[]);
    }

    method UpsertMetricWhitelist(k: MetricKey, limits: Limits, reachable: bool) returns (ok: bool)
      modifies this
      ensures ok <==>
        && reachable && k.targetGroup != "" && k.env != "" && k.metric != "" && limits != map[]
        && forall c :: c in limits ==>
             && limits[c] > 0
             && (c == "metric_name_length" || c == "label_name_length" || c == "label_value_length"
                 || c == "cardinality" || c == "histogram_buckets")
      ensures ok ==> tables == Tables(old(tables).metrics[k := limits], old(tables).targets)
      ensures ok <==> Admitted(UpsertMetric(k, limits)) && reachable
      ensures tables == if ok then Apply(old(tables), UpsertMetric(k, limits)) else old(tables)
    {
      if k.targetGroup == "" || k.env == "" || k.metric == "" || |limits| == 0 {
        return false;
      }
      if exists c :: c in limits && (c !in METRIC_CHECKS || limits[c] <= 0) {
        return false;
      }
      if !reachable {
        return false;
      }
      tables := tables.(metrics := tables.metrics[k := limits]);
      return true;
    }

    method DeleteMetricWhitelist(k: MetricKey, reachable: bool) returns (ok: bool)
      modifies this
      ensures ok <==> reachable && k.targetGroup != "" && k.env != "" && k.metric != ""
      ensures ok ==> tables == Tables(old(tables).metrics - {k}, old(tables).targets)
      ensures ok <==> Admitted(DeleteMetric(k)) && reachable
      ensures tables == if ok then Apply(old(tables), DeleteMetric(k)) else old(tables)
    {
      if k.targetGroup == "" || k.env == "" || k.metric == "" {
        return false;
      }
      if !reachable {
        return false;
      }
      tables := tables.(metrics := tables.metrics - {k});
      return true;
    }

    method UpsertTargetWhitelist(k: TargetKey, checks: seq<string>, reachable: bool) returns (ok: bool)
      modifies this
      ensures ok <==>
        && reachable && k.targetGroup != "" && k.env != "" && checks != []
        && forall c :: c in checks ==>
             || c == "metric_name_length" || c == "label_name_length" || c == "label_value_length"
             || c == "cardinality" || c == "histogram_buckets" || c == "response_weight"
      ensures ok ==> tables.metrics == old(tables).metrics && k in tables.targets
      ensures ok ==> StrictlySorted(tables.targets[k]) && SameMembers(tables.targets[k], checks)
      ensures ok ==> tables.targets - {k} == old(tables).targets - {k}
      ensures ok <==> Admitted(UpsertTarget(k, checks)) && reachable
      ensures tables == if ok then Apply(old(tables), UpsertTarget(k, checks)) else old(tables)
    {
      if k.targetGroup == "" || k.env == "" || |checks| == 0 {
        return false;
      }
      var normalised := NormalizeTargetChecks(checks);
      if normalised.Err? {
        return false;
      }
      if !reachable {
        return false;
      }
      tables := tables.(targets := tables.targets[k := normalised.value]);
      return true;
    }

    method DeleteTargetWhitelist(k: TargetKey, reachable: bool) returns (ok: bool)
      modifies this
      ensures ok <==> reachable && k.targetGroup != "" && k.env != ""
      ensures ok ==> tables == Tables(old(tables).metrics, old(tables).targets - {k})
      ensures ok <==> Admitted(DeleteTarget(k)) && reachable
      ensures tables == if ok then Apply(old(tables), DeleteTarget(k)) else old(tables)
    {
      if k.targetGroup == "" || k.env == "" {
        return false;
      }
      if !reachable {
        return false;
      }
      tables := tables.(targets := tables.targets - {k});
      return true;
    }

    /**
     `GetEffectiveWhitelists`: the loops over the listed rows, in whatever order they come. The
     target rules are listed by a second query, when the tables may be `later`. For a non-empty
     group and env the result is determined by what the tables held.
     */
    method GetEffective(
      targetGroup: string, env: string, metricRows: seq<MetricRow>, targetRows: seq<TargetRow>, ghost later: Tables)
      returns (e: Effective)
      requires ListsMetrics(tables, targetGroup, env, metricRows) && ListsTargets(later, targetGroup, env, targetRows)
      ensures IsEffective(Tables(tables.metrics, later.targets), targetGroup, env, e)
      ensures Collected(metricRows, e.metricChecks)
      ensures targetGroup != "" && env != "" ==>
        e == EffectiveOf(Tables(tables.metrics, later.targets), targetGroup, env)
    {
      var metricChecks := CollectMetricChecks(metricRows);
      var disabledChecks := CollectDisabled(targetRows);
      e := Effective(metricChecks, disabledChecks);
      CollectedIsEffective(tables, later, targetGroup, env, metricRows, targetRows, e);
      EffectiveIsDetermined(Tables(tables.metrics, later.targets), targetGroup, env, e);
    }
  }

  lemma CollectedIsEffective(
    t: Tables, later: Tables, targetGroup: string, env: string,
    metricRows: seq<MetricRow>, targetRows: seq<TargetRow>, e: Effective)
    requires ListsMetrics(t, targetGroup, env, metricRows) && ListsTargets(later, targetGroup, env, targetRows)
    requires Collected(metricRows, e.metricChecks)
    requires forall c :: c in e.disabledChecks <==> exists j :: 0 <= j < |targetRows| && c in targetRows[j].checks
    ensures IsEffective(Tables(t.metrics, later.targets), targetGroup, env, e)
  {
    var both := Tables(t.metrics, later.targets);
    assert ListsMetrics(both, targetGroup, env, metricRows);
    assert ListsTargets(both, targetGroup, env, targetRows);
    MetricsFromRows(both, targetGroup, env, metricRows, e.metricChecks);
    DisabledFromRows(both, targetGroup, env, targetRows, e.disabledChecks);
  }

  method CollectMetricChecks(rows: seq<MetricRow>) returns (checks: map<string, Limits>)
    ensures Collected(rows, checks)
  {
    checks := map[];
    for i := 0 to |rows|
      invariant Collected(rows[..i], checks)
    {
      if rows[i].limits == map[] {
        CollectedSkip(rows, i, checks);
        continue;
      }
      CollectedAdd(rows, i, checks);
      checks := checks[rows[i].key.metric := rows[i].limits];
    }
    assert rows[..|rows|] == rows;
  }

  method CollectDisabled(rows: seq<TargetRow>) returns (checks: set<string>)
    ensures forall c :: c in checks <==> exists j :: 0 <= j < |rows| && c in rows[j].checks
  {
    checks := {};
    for i := 0 to |rows|
      invariant forall c :: c in checks <==> exists j :: 0 <= j < i && c in rows[j].checks
    {
      checks := checks + set c | c in rows[i].checks;
    }
  }

  // ---------------------------------------------------------------- what a scrape sees

  datatype MetricRow = MetricRow(key: MetricKey, limits: Limits)

  datatype TargetRow = TargetRow(key: TargetKey, checks: seq<string>)

  datatype Effective = Effective(metricChecks: map<string, Limits>, disabledChecks: set<string>) {
    predicate IsCheckDisabled(c: string) {
      c in disabledChecks
    }

    function MetricCustomLimit(metric: string, c: string): Option<int> {
      if metric in metricChecks && c in metricChecks[metric] then Some(metricChecks[metric][c]) else None
    }
  }

  /** The WHERE clause of the list queries: an empty argument stands for every value. */
  predicate Selected(targetGroup: string, env: string, rowGroup: string, rowEnv: string) {
    (targetGroup == "" || rowGroup == targetGroup) && (env == "" || rowEnv == env)
  }

  predicate SelectsMetric(targetGroup: string, env: string, k: MetricKey) {
    Selected(targetGroup, env, k.targetGroup, k.env)
  }

  predicate SelectsTarget(targetGroup: string, env: string, k: TargetKey) {
    Selected(targetGroup, env, k.targetGroup, k.env)
  }

  /** The rows a list query returns, in any order. */
  ghost predicate ListsMetrics(t: Tables, targetGroup: string, env: string, rows: seq<MetricRow>) {
    && (forall i, j :: 0 <= i < j < |rows| ==> rows[i].key != rows[j].key)
    && (forall r :: r in rows ==> SelectsMetric(targetGroup, env, r.key) && r.key in t.metrics && t.metrics[r.key] == r.limits)
    && (forall k :: k in t.metrics && SelectsMetric(targetGroup, env, k) ==> MetricRow(k, t.metrics[k]) in rows)
  }

  ghost predicate ListsTargets(t: Tables, targetGroup: string, env: string, rows: seq<TargetRow>) {
    && (forall i, j :: 0 <= i < j < |rows| ==> rows[i].key != rows[j].key)
    && (forall r :: r in rows ==> SelectsTarget(targetGroup, env, r.key) && r.key in t.targets && t.targets[r.key] == r.checks)
    && (forall k :: k in t.targets && SelectsTarget(targetGroup, env, k) ==> TargetRow(k, t.targets[k]) in rows)
  }

  /** Row `i` is the last one about its metric that has limits. */
  ghost predicate Decides(rows: seq<MetricRow>, i: nat) {
    && i < |rows| && rows[i].limits != map[]
    && forall j :: i < j < |rows| && rows[j].limits != map[] ==> rows[j].key.metric != rows[i].key.metric
  }

  /** A metric has the limits of the last row about it that has any. */
  ghost predicate Collected(rows: seq<MetricRow>, checks: map<string, Limits>) {
    && (forall i: nat :: Decides(rows, i) ==> rows[i].key.metric in checks && checks[rows[i].key.metric] == rows[i].limits)
    && (forall m :: m in checks ==> exists i: nat :: Decides(rows, i) && rows[i].key.metric == m)
  }

  lemma CollectedSkip(rows: seq<MetricRow>, n: nat, checks: map<string, Limits>)
    requires n < |rows| && Collected(rows[..n], checks) && rows[n].limits == map[]
    ensures Collected(rows[..n + 1], checks)
  {
    forall i: nat ensures Decides(rows[..n + 1], i) <==> Decides(rows[..n], i) {
      DecidesLater(rows, n, i);
    }
  }

  lemma CollectedAdd(rows: seq<MetricRow>, n: nat, checks: map<string, Limits>)
    requires n < |rows| && Collected(rows[..n], checks) && rows[n].limits != map[]
    ensures Collected(rows[..n + 1], checks[rows[n].key.metric := rows[n].limits])
  {
    var all, checks' := rows[..n + 1], checks[rows[n].key.metric := rows[n].limits];
    forall i: nat ensures Decides(rows[..n], i) && rows[i].key.metric != rows[n].key.metric ==> Decides(all, i) {
      DecidesLater(rows, n, i);
    }
    CollectedKept(rows, n, checks);
    DecidesLater(rows, n, n);
    assert Decides(all, n) && all[n] == rows[n];
    forall i: nat | Decides(all, i) ensures all[i].key.metric in checks' && checks'[all[i].key.metric] == all[i].limits {
      DecidesLater(rows, n, i);
      assert i < n ==> all[i] == rows[..n][i];
    }
  }

  lemma CollectedKept(rows: seq<MetricRow>, n: nat, checks: map<string, Limits>)
    requires n < |rows| && Collected(rows[..n], checks)
    requires forall i: nat :: Decides(rows[..n], i) && rows[i].key.metric != rows[n].key.metric ==> Decides(rows[..n + 1], i)
    ensures var all := rows[..n + 1];
      forall m :: m in checks && m != rows[n].key.metric ==> exists i: nat :: Decides(all, i) && all[i].key.metric == m
  {
    var all := rows[..n + 1];
    forall m | m in checks && m != rows[n].key.metric ensures exists i: nat :: Decides(all, i) && all[i].key.metric == m {
      var i: nat :| Decides(rows[..n], i) && rows[..n][i].key.metric == m;
      assert Decides(all, i) && all[i] == rows[..n][i];
    }
  }

  lemma DecidesLater(rows: seq<MetricRow>, n: nat, i: nat)
    requires n < |rows|
    ensures Decides(rows[..n + 1], i) <==>
      (i == n && rows[n].limits != map[])
      || (Decides(rows[..n], i) && (rows[n].limits == map[] || rows[i].key.metric != rows[n].key.metric))
  {
    var before, all := rows[..n], rows[..n + 1];
    assert all[n] == rows[n] && forall j :: 0 <= j < n ==> all[j] == before[j];
    if Decides(all, i) && i < n {
      forall j | i < j < |before| && before[j].limits != map[] ensures before[j].key.metric != before[i].key.metric {
        assert all[j].key.metric != all[i].key.metric;
      }
    }
  }

  /** A rule that the list query selects and that has limits for metric `m`. */
  ghost predicate RuleFor(t: Tables, targetGroup: string, env: string, m: string, k: MetricKey) {
    k in t.metrics && SelectsMetric(targetGroup, env, k) && k.metric == m && t.metrics[k] != map[]
  }

  /**
   What a scrape may see of the tables: each metric has the limits of one selected rule about
   it, if there is one; a check is disabled if some selected target rule names it.
   */
  ghost predicate IsEffective(t: Tables, targetGroup: string, env: string, e: Effective) {
    && (forall m :: m in e.metricChecks ==>
          exists k :: RuleFor(t, targetGroup, env, m, k) && t.metrics[k] == e.metricChecks[m])
    && (forall m, k :: RuleFor(t, targetGroup, env, m, k) ==> m in e.metricChecks)
    && (forall c :: c in e.disabledChecks <==>
          exists k :: k in t.targets && SelectsTarget(targetGroup, env, k) && c in t.targets[k])
  }

  /** The rules of one group and env. */
  ghost function EffectiveOf(t: Tables, targetGroup: string, env: string): Effective {
    Effective(
      map k | k in t.metrics && k.targetGroup == targetGroup && k.env == env && t.metrics[k] != map[] ::
        k.metric := t.metrics[k],
      if TargetKey(targetGroup, env) in t.targets then set c | c in t.targets[TargetKey(targetGroup, env)] else {})
  }

  /** For a non-empty group and env a scrape sees the rules of that group and env, and no other. */
  lemma EffectiveIsDetermined(t: Tables, targetGroup: string, env: string, e: Effective)
    ensures targetGroup != "" && env != "" ==>
      (IsEffective(t, targetGroup, env, e) <==> e == EffectiveOf(t, targetGroup, env))
  {
    if targetGroup != "" && env != "" {
      DeterminedBy(t, targetGroup, env, e);
    }
  }

  lemma DeterminedBy(t: Tables, targetGroup: string, env: string, e: Effective)
    requires targetGroup != "" && env != ""
    ensures IsEffective(t, targetGroup, env, e) <==> e == EffectiveOf(t, targetGroup, env)
  {
    var own := EffectiveOf(t, targetGroup, env);
    OwnIsEffective(t, targetGroup, env);
    if IsEffective(t, targetGroup, env, e) {
      forall m | m in e.metricChecks ensures m in own.metricChecks && own.metricChecks[m] == e.metricChecks[m] {
        var k :| RuleFor(t, targetGroup, env, m, k) && t.metrics[k] == e.metricChecks[m];
        assert k == MetricKey(targetGroup, env, m);
      }
      forall m | m in own.metricChecks ensures m in e.metricChecks {
        assert RuleFor(t, targetGroup, env, m, MetricKey(targetGroup, env, m));
      }
      assert forall c :: c in e.disabledChecks <==> c in own.disabledChecks;
      assert e.disabledChecks == own.disabledChecks && e.metricChecks == own.metricChecks;
    }
  }

  lemma OwnIsEffective(t: Tables, targetGroup: string, env: string)
    requires targetGroup != "" && env != ""
    ensures IsEffective(t, targetGroup, env, EffectiveOf(t, targetGroup, env))
  {
    var own := EffectiveOf(t, targetGroup, env);
    forall m | m in own.metricChecks
      ensures exists k :: RuleFor(t, targetGroup, env, m, k) && t.metrics[k] == own.metricChecks[m]
    {
      assert RuleFor(t, targetGroup, env, m, MetricKey(targetGroup, env, m));
    }
    forall c ensures c in own.disabledChecks <==>
      exists k :: k in t.targets && SelectsTarget(targetGroup, env, k) && c in t.targets[k]
    {
      if k :| k in t.targets && SelectsTarget(targetGroup, env, k) && c in t.targets[k] {
        assert k == TargetKey(targetGroup, env);
      }
      if c in own.disabledChecks {
        assert SelectsTarget(targetGroup, env, TargetKey(targetGroup, env));
      }
    }
  }

  lemma MetricsFromRows(t: Tables, targetGroup: string, env: string, rows: seq<MetricRow>, checks: map<string, Limits>)
    requires ListsMetrics(t, targetGroup, env, rows) && Collected(rows, checks)
    ensures forall m :: m in checks ==> exists k :: RuleFor(t, targetGroup, env, m, k) && t.metrics[k] == checks[m]
    ensures forall m, k :: RuleFor(t, targetGroup, env, m, k) ==> m in checks
  {
    forall m | m in checks ensures exists k :: RuleFor(t, targetGroup, env, m, k) && t.metrics[k] == checks[m] {
      var i: nat :| Decides(rows, i) && rows[i].key.metric == m;
      assert rows[i] in rows;
      assert RuleFor(t, targetGroup, env, m, rows[i].key);
    }
    forall m, k | RuleFor(t, targetGroup, env, m, k) ensures m in checks {
      var j :| 0 <= j < |rows| && rows[j] == MetricRow(k, t.metrics[k]);
      var i := LastAbout(rows, j);
    }
  }

  /** Among the rows about a metric one decides. */
  lemma {:induction false} LastAbout(rows: seq<MetricRow>, j: nat) returns (i: nat)
    requires j < |rows| && rows[j].limits != map[]
    ensures Decides(rows, i) && rows[i].key.metric == rows[j].key.metric
    decreases |rows| - j
  {
    if Decides(rows, j) {
      i := j;
    } else {
      var n :| j < n < |rows| && rows[n].limits != map[] && rows[n].key.metric == rows[j].key.metric;
      i := LastAbout(rows, n);
    }
  }

  lemma DisabledFromRows(t: Tables, targetGroup: string, env: string, rows: seq<TargetRow>, checks: set<string>)
    requires ListsTargets(t, targetGroup, env, rows)
    requires forall c :: c in checks <==> exists j :: 0 <= j < |rows| && c in rows[j].checks
    ensures forall c :: c in checks <==>
      exists k :: k in t.targets && SelectsTarget(targetGroup, env, k) && c in t.targets[k]
  {
    forall c ensures c in checks <==> exists k :: k in t.targets && SelectsTarget(targetGroup, env, k) && c in t.targets[k] {
      if c in checks {
        var j :| 0 <= j < |rows| && c in rows[j].checks;
        assert rows[j] in rows;
      }
      if k :| k in t.targets && SelectsTarget(targetGroup, env, k) && c in t.targets[k] {
        var j :| 0 <= j < |rows| && rows[j] == TargetRow(k, t.targets[k]);
      }
    }
  }

  // ---------------------------------------------------------------- histories

  ghost predicate OnMetric(r: Request, k: MetricKey) {
    Admitted(r) && (r.UpsertMetric? || r.DeleteMetric?) && r.mkey == k
  }

  ghost predicate OnTarget(r: Request, k: TargetKey) {
    Admitted(r) && (r.UpsertTarget? || r.DeleteTarget?) && r.tkey == k
  }

  /** Request `i` is the last admitted one about `k`. */
  ghost predicate LastOnMetric(rs: seq<Request>, k: MetricKey, i: nat) {
    i < |rs| && OnMetric(rs[i], k) && forall j :: i < j < |rs| ==> !OnMetric(rs[j], k)
  }

  ghost predicate LastOnTarget(rs: seq<Request>, k: TargetKey, i: nat) {
    i < |rs| && OnTarget(rs[i], k) && forall j :: i < j < |rs| ==> !OnTarget(rs[j], k)
  }

  lemma LastOnMetricSnoc(rs: seq<Request>, r: Request, k: MetricKey, i: nat)
    requires !OnMetric(r, k)
    ensures LastOnMetric(rs + [r], k, i) <==> LastOnMetric(rs, k, i)
  {
    assert forall j :: 0 <= j < |rs| ==> (rs + [r])[j] == rs[j];
    if LastOnMetric(rs + [r], k, i) {
      forall j | i < j < |rs| ensures !OnMetric(rs[j], k) {
        assert !OnMetric((rs + [r])[j], k);
      }
    }
  }

  lemma LastOnTargetSnoc(rs: seq<Request>, r: Request, k: TargetKey, i: nat)
    requires !OnTarget(r, k)
    ensures LastOnTarget(rs + [r], k, i) <==> LastOnTarget(rs, k, i)
  {
    assert forall j :: 0 <= j < |rs| ==> (rs + [r])[j] == rs[j];
    if LastOnTarget(rs + [r], k, i) {
      forall j | i < j < |rs| ensures !OnTarget(rs[j], k) {
        assert !OnTarget((rs + [r])[j], k);
      }
    }
  }

  /** A request about something else leaves the rule of a key alone. */
  lemma ApplyElsewhere(t: Tables, r: Request, m: MetricKey, k: TargetKey)
    ensures !OnMetric(r, m) ==> (m in Apply(t, r).metrics <==> m in t.metrics)
    ensures !OnMetric(r, m) && m in t.metrics ==> Apply(t, r).metrics[m] == t.metrics[m]
    ensures !OnTarget(r, k) ==> (k in Apply(t, r).targets <==> k in t.targets)
    ensures !OnTarget(r, k) && k in t.targets ==> Apply(t, r).targets[k] == t.targets[k]
  {
  }

  /** The metric rule stored under a key is the last upsert not followed by a delete. */
  lemma {:induction false} MetricHistory(rs: seq<Request>, k: MetricKey, limits: Limits)
    ensures (k in After(rs).metrics && After(rs).metrics[k] == limits) <==>
      exists i: nat :: LastOnMetric(rs, k, i) && rs[i] == UpsertMetric(k, limits)
  {
    if rs != [] {
      var n := |rs| - 1;
      var front, last := rs[..n], rs[n];
      assert rs == front + [last];
      if OnMetric(last, k) {
        assert LastOnMetric(rs, k, n);
      } else {
        MetricHistory(front, k, limits);
        ApplyElsewhere(After(front), last, k, TargetKey("", ""));
        forall i: nat ensures LastOnMetric(rs, k, i) <==> LastOnMetric(front, k, i) {
          LastOnMetricSnoc(front, last, k, i);
        }
      }
    }
  }

  lemma {:induction false} TargetHistory(rs: seq<Request>, k: TargetKey, stored: seq<string>)
    ensures (k in After(rs).targets && After(rs).targets[k] == stored) <==>
      exists i: nat :: LastOnTarget(rs, k, i) && rs[i].UpsertTarget? && Normal(rs[i].checks) == stored
  {
    if rs != [] {
      var n := |rs| - 1;
      var front, last := rs[..n], rs[n];
      assert rs == front + [last];
      if OnTarget(last, k) {
        assert LastOnTarget(rs, k, n);
      } else {
        TargetHistory(front, k, stored);
        ApplyElsewhere(After(front), last, MetricKey("", "", ""), k);
        forall i: nat ensures LastOnTarget(rs, k, i) <==> LastOnTarget(front, k, i) {
          LastOnTargetSnoc(front, last, k, i);
        }
      }
    }
  }

  /**
   After any sequence of requests, for a non-empty group and env, the effective custom limit of
   a metric and check is the one in the last upsert of its rule not followed by a delete.
   */
  lemma EffectiveLimitHistory(
    rs: seq<Request>, t: Tables, targetGroup: string, env: string, e: Effective, metric: string, c: string, limit: int)
    requires t.metrics == After(rs).metrics && IsEffective(t, targetGroup, env, e)
    requires targetGroup != "" && env != ""
    ensures e.MetricCustomLimit(metric, c) == Some(limit) <==>
      exists i: nat ::
        && LastOnMetric(rs, MetricKey(targetGroup, env, metric), i)
        && rs[i].UpsertMetric? && c in rs[i].limits && rs[i].limits[c] == limit
  {
    var k := MetricKey(targetGroup, env, metric);
    EffectiveIsDetermined(t, targetGroup, env, e);
    if k in t.metrics {
      MetricHistory(rs, k, t.metrics[k]);
    }
    if i: nat :| LastOnMetric(rs, k, i) && rs[i].UpsertMetric? && c in rs[i].limits && rs[i].limits[c] == limit {
      MetricHistory(rs, k, rs[i].limits);
    }
  }

  /** The target rule of `k` that survives the requests names check `c`. */
  ghost predicate Names(rs: seq<Request>, k: TargetKey, c: string) {
    exists i: nat :: LastOnTarget(rs, k, i) && rs[i].UpsertTarget? && c in rs[i].checks
  }

  lemma NamedIffStored(rs: seq<Request>, k: TargetKey, c: string)
    ensures Names(rs, k, c) <==> k in After(rs).targets && c in After(rs).targets[k]
  {
    var t := After(rs);
    if k in t.targets {
      TargetHistory(rs, k, t.targets[k]);
      var i: nat :| LastOnTarget(rs, k, i) && rs[i].UpsertTarget? && Normal(rs[i].checks) == t.targets[k];
      NormalLaw(rs[i].checks);
    }
    if i: nat :| LastOnTarget(rs, k, i) && rs[i].UpsertTarget? && c in rs[i].checks {
      TargetHistory(rs, k, Normal(rs[i].checks));
      NormalLaw(rs[i].checks);
    }
  }

  /**
   For every group and env, empty or not: a check is disabled exactly when a surviving target
   rule that the query selects names it.
   */
  lemma DisabledHistory(rs: seq<Request>, t: Tables, targetGroup: string, env: string, e: Effective, c: string)
    requires t.targets == After(rs).targets && IsEffective(t, targetGroup, env, e)
    ensures e.IsCheckDisabled(c) <==> exists k ::
      && Names(rs, k, c)
      && (targetGroup == "" || k.targetGroup == targetGroup) && (env == "" || k.env == env)
  {
    if k :| k in t.targets && SelectsTarget(targetGroup, env, k) && c in t.targets[k] {
      NamedIffStored(rs, k, c);
    }
    if k :| SelectsTarget(targetGroup, env, k) && Names(rs, k, c) {
      NamedIffStored(rs, k, c);
    }
  }

  /** For a non-empty group and env, that rule is the group's and env's own. */
  lemma EffectiveDisabledHistory(rs: seq<Request>, t: Tables, targetGroup: string, env: string, e: Effective, c: string)
    requires t.targets == After(rs).targets && IsEffective(t, targetGroup, env, e)
    requires targetGroup != "" && env != ""
    ensures e.IsCheckDisabled(c) <==> Names(rs, TargetKey(targetGroup, env), c)
  {
    DisabledHistory(rs, t, targetGroup, env, e, c);
    assert SelectsTarget(targetGroup, env, TargetKey(targetGroup, env));
  }

  /**
   With an empty env the rules of every env apply: whatever was requested before, one more rule
   for any env of the group disables its checks for a scrape that has no env, and its own rule
   cannot do so, because a rule needs an env.
   */
  lemma EmptyEnvReadsAll(
    rs: seq<Request>, t: Tables, targetGroup: string, env: string, checks: seq<string>, e: Effective, c: string)
    requires Admitted(UpsertTarget(TargetKey(targetGroup, env), checks)) && c in checks
    requires t.targets == After(rs + [UpsertTarget(TargetKey(targetGroup, env), checks)]).targets
    requires IsEffective(t, targetGroup, "", e)
    ensures e.IsCheckDisabled(c) && env != "" && !Names(rs, TargetKey(targetGroup, ""), c)
  {
    var k, r := TargetKey(targetGroup, env), UpsertTarget(TargetKey(targetGroup, env), checks);
    var all := rs + [r];
    assert all[|rs|] == r && LastOnTarget(all, k, |rs|);
    assert Names(all, k, c) && SelectsTarget(targetGroup, "", k);
    DisabledHistory(all, t, targetGroup, "", e, c);
  }
}
