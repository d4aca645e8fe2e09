/** From whitelist requests and scraped samples to the facts in the outbox. */
module EndToEnd {
  import opened Options
  import opened Violations
  import opened Processor
  import opened ReportLaws
  import opened CheckLaws
  import opened Reports
  import W = Whitelists

  /** The names under which the whitelist tables store the checks. */
  function NameOf(c: CheckType): string {
    match c
    case MetricNameLength => "metric_name_length"
    case LabelNameLength => "label_name_length"
    case LabelValueLength => "label_value_length"
    case Cardinality => "cardinality"
    case HistogramBuckets => "histogram_buckets"
    case ResponseWeight => "response_weight"
  }

  const CHECKS: set<CheckType> := PER_METRIC + {ResponseWeight}

  /** The effective whitelists, with the stored names read as checks. */
  function Read(e: W.Effective): Processor.Whitelists {
    Processor.Whitelists(
      map m | m in e.metricChecks ::
        map c | c in CHECKS && NameOf(c) in e.metricChecks[m] :: e.metricChecks[m][NameOf(c)],
      set c | c in CHECKS && NameOf(c) in e.disabledChecks)
  }

  lemma ReadAgrees(e: W.Effective, metric: string, c: CheckType)
    ensures Read(e).IsCheckDisabled(c) <==> e.IsCheckDisabled(NameOf(c))
    ensures Read(e).MetricCustomLimit(metric, c) == e.MetricCustomLimit(metric, NameOf(c))
  {
    assert c in CHECKS;
  }

  /** Some surviving target rule that a scrape of `group` and `env` reads names the check. */
  ghost predicate DisabledBy(rs: seq<W.Request>, group: string, env: string, c: CheckType) {
    exists k :: W.SelectsTarget(group, env, k) && W.Names(rs, k, NameOf(c))
  }

  /** The surviving rule of the metric, the last admitted request about it, has limit `v` for the named check. */
  ghost predicate RuleLimit(rs: seq<W.Request>, group: string, env: string, metric: string, name: string, v: int) {
    exists i: nat ::
      && W.LastOnMetric(rs, W.MetricKey(group, env, metric), i)
      && rs[i].UpsertMetric? && name in rs[i].limits && rs[i].limits[name] == v
  }

  ghost predicate HasRule(rs: seq<W.Request>, group: string, env: string, metric: string, name: string) {
    exists v :: RuleLimit(rs, group, env, metric, name, v)
  }

  /**
   The load of the whitelists for one scrape: the requests admitted before the metric rules were
   listed, those admitted before the target rules were, and what came of it, if it succeeded.
   */
  datatype Lookup = Lookup(
    metricHistory: seq<W.Request>, targetHistory: seq<W.Request>, group: string, env: string, loaded: Option<W.Effective>)
  {
    ghost function Listed(): W.Tables {
      W.Tables(W.After(metricHistory).metrics, W.After(targetHistory).targets)
    }

    ghost predicate Fits() {
      loaded.Some? ==> W.IsEffective(Listed(), group, env, loaded.value)
    }

    /** A scrape goes on without whitelists when the load fails. */
    function Config(limits: Limits): Config {
      Processor.Config(limits, if loaded.Some? then Read(loaded.value) else Processor.Whitelists(map[], {}))
    }

    /** The check is disabled for the scrape. */
    ghost predicate Disables(c: CheckType) {
      loaded.Some? && DisabledBy(targetHistory, group, env, c)
    }

    /** The own target rule of the scrape's group and env, if it was loaded, names the check. */
    ghost predicate Silences(name: string) {
      loaded.Some? && W.Names(targetHistory, W.TargetKey(group, env), name)
    }

    /** A rule that was loaded gives the metric a limit of its own for the check. */
    ghost predicate Excuses(metric: string, name: string) {
      loaded.Some? && HasRule(metricHistory, group, env, metric, name)
    }
  }

  lemma DisabledIff(l: Lookup, limits: Limits, c: CheckType)
    requires l.Fits()
    ensures l.Config(limits).whitelists.IsCheckDisabled(c) <==> l.Disables(c)
  {
    if l.loaded.Some? {
      ReadAgrees(l.loaded.value, "", c);
      W.DisabledHistory(l.targetHistory, l.Listed(), l.group, l.env, l.loaded.value, NameOf(c));
    }
  }

  /** The custom limit a scrape works with is the one in the surviving rule, if the load succeeded. */
  lemma CustomLimitIs(l: Lookup, limits: Limits, metric: string, c: CheckType)
    requires l.group != "" && l.env != "" && l.Fits()
    ensures var custom := l.Config(limits).whitelists.MetricCustomLimit(metric, c);
      && (custom.Some? <==> l.Excuses(metric, NameOf(c)))
      && (custom.Some? ==> RuleLimit(l.metricHistory, l.group, l.env, metric, NameOf(c), custom.value))
      && (l.loaded.Some? ==> forall v :: RuleLimit(l.metricHistory, l.group, l.env, metric, NameOf(c), v) ==> custom == Some(v))
  {
    if l.loaded.Some? {
      var e := l.loaded.value;
      ReadAgrees(e, metric, c);
      forall v ensures
        e.MetricCustomLimit(metric, NameOf(c)) == Some(v) <==>
        RuleLimit(l.metricHistory, l.group, l.env, metric, NameOf(c), v)
      {
        W.EffectiveLimitHistory(l.metricHistory, l.Listed(), l.group, l.env, e, metric, NameOf(c), v);
      }
      if v :| RuleLimit(l.metricHistory, l.group, l.env, metric, NameOf(c), v) {
        assert e.MetricCustomLimit(metric, NameOf(c)) == Some(v);
      }
      var found := e.MetricCustomLimit(metric, NameOf(c));
      if found.Some? {
        assert RuleLimit(l.metricHistory, l.group, l.env, metric, NameOf(c), found.value);
      }
    }
  }

  /** For a non-empty group and env only their own target rule can disable a check. */
  lemma OwnRuleDisables(rs: seq<W.Request>, group: string, env: string, c: CheckType)
    requires group != "" && env != ""
    ensures DisabledBy(rs, group, env, c) <==> W.Names(rs, W.TargetKey(group, env), NameOf(c))
  {
    assert W.SelectsTarget(group, env, W.TargetKey(group, env));
  }

  /**
   After any history of whitelist requests, saving the report of a scrape with a non-empty group
   and env enqueues a fact for a per-metric check if and only if their surviving target rule does
   not name the check and some sample, observed at a reachable address, exceeds the global limit
   and belongs to a metric whose surviving rule has no limit for the check. When the whitelists
   could not be loaded, no rule counts.
   */
  lemma FactIffUnexcusedSample(
    l: Lookup, limits: Limits, scrapes: seq<Scrape>, report: ReportRow, time: int, c: CheckType)
    requires c in PER_METRIC && l.group != "" && l.env != "" && l.Fits()
    requires report.checks == ChecksOf(l.Config(limits), scrapes)
    ensures (exists f :: f in FactsOf(report, time) && f.violationType == c) <==>
      && !l.Silences(NameOf(c))
      && exists s ::
           && Observed(c, scrapes, s)
           && s.size > limits.For(c)
           && !l.Excuses(s.key.metric, NameOf(c))
  {
    OutboxFactIff(l.Config(limits), scrapes, report, time, c);
    RulesDecide(l, limits, c);
  }

  /** For a non-empty group and env the surviving rules decide which checks and metrics are excused. */
  lemma RulesDecide(l: Lookup, limits: Limits, c: CheckType)
    requires l.group != "" && l.env != "" && l.Fits()
    ensures l.Config(limits).whitelists.IsCheckDisabled(c) <==> l.Silences(NameOf(c))
    ensures forall m :: l.Config(limits).whitelists.MetricCustomLimit(m, c).Some? <==> l.Excuses(m, NameOf(c))
  {
    DisabledIff(l, limits, c);
    OwnRuleDisables(l.targetHistory, l.group, l.env, c);
    forall m ensures l.Config(limits).whitelists.MetricCustomLimit(m, c).Some? <==> l.Excuses(m, NameOf(c)) {
      CustomLimitIs(l, limits, m, c);
    }
  }

  // The same check by check, with the stored names and the configured numbers spelled out.

  /** Metric names: some metric without a rule has a name longer than the limit. */
  lemma MetricNameFact(l: Lookup, limits: Limits, scrapes: seq<Scrape>, report: ReportRow, time: int)
    requires l.group != "" && l.env != "" && l.Fits() && report.checks == ChecksOf(l.Config(limits), scrapes)
    ensures (exists x :: x in FactsOf(report, time) && x.violationType == MetricNameLength) <==>
      && !l.Silences("metric_name_length")
      && exists f ::
           && Seen(scrapes, f) && |f.name| > limits.maxMetricNameLen
           && !l.Excuses(f.name, "metric_name_length")
  {
    FactExistsIff(report, time, MetricNameLength);
    CheckLaws.MetricNameFact(l.Config(limits), scrapes);
    RulesDecide(l, limits, MetricNameLength);
  }

  /** Label names. */
  lemma LabelNameFact(l: Lookup, limits: Limits, scrapes: seq<Scrape>, report: ReportRow, time: int)
    requires l.group != "" && l.env != "" && l.Fits() && report.checks == ChecksOf(l.Config(limits), scrapes)
    ensures (exists x :: x in FactsOf(report, time) && x.violationType == LabelNameLength) <==>
      && !l.Silences("label_name_length")
      && exists f, x ::
           && Seen(scrapes, f) && HasLabel(f, x) && |x.name| > limits.maxLabelNameLen
           && !l.Excuses(f.name, "label_name_length")
  {
    FactExistsIff(report, time, LabelNameLength);
    CheckLaws.LabelNameFact(l.Config(limits), scrapes);
    RulesDecide(l, limits, LabelNameLength);
  }

  /** Label values. */
  lemma LabelValueFact(l: Lookup, limits: Limits, scrapes: seq<Scrape>, report: ReportRow, time: int)
    requires l.group != "" && l.env != "" && l.Fits() && report.checks == ChecksOf(l.Config(limits), scrapes)
    ensures (exists x :: x in FactsOf(report, time) && x.violationType == LabelValueLength) <==>
      && !l.Silences("label_value_length")
      && exists f, x ::
           && Seen(scrapes, f) && HasLabel(f, x) && |x.value| > limits.maxLabelValueLen
           && !l.Excuses(f.name, "label_value_length")
  {
    FactExistsIff(report, time, LabelValueLength);
    CheckLaws.LabelValueFact(l.Config(limits), scrapes);
    RulesDecide(l, limits, LabelValueLength);
  }

  /** Cardinality: the number of series of a metric. */
  lemma CardinalityFact(l: Lookup, limits: Limits, scrapes: seq<Scrape>, report: ReportRow, time: int)
    requires l.group != "" && l.env != "" && l.Fits() && report.checks == ChecksOf(l.Config(limits), scrapes)
    ensures (exists x :: x in FactsOf(report, time) && x.violationType == Cardinality) <==>
      && !l.Silences("cardinality")
      && exists f ::
           && Seen(scrapes, f) && |f.series| > limits.maxMetricCardinality
           && !l.Excuses(f.name, "cardinality")
  {
    FactExistsIff(report, time, Cardinality);
    CheckLaws.CardinalityFact(l.Config(limits), scrapes);
    RulesDecide(l, limits, Cardinality);
  }

  /** Histogram buckets. */
  lemma BucketsFact(l: Lookup, limits: Limits, scrapes: seq<Scrape>, report: ReportRow, time: int)
    requires l.group != "" && l.env != "" && l.Fits() && report.checks == ChecksOf(l.Config(limits), scrapes)
    ensures (exists x :: x in FactsOf(report, time) && x.violationType == HistogramBuckets) <==>
      && !l.Silences("histogram_buckets")
      && exists f, n: nat ::
           && Seen(scrapes, f) && HasBuckets(f, n) && n > limits.maxHistogramBuckets
           && !l.Excuses(f.name, "histogram_buckets")
  {
    FactExistsIff(report, time, HistogramBuckets);
    CheckLaws.BucketsFact(l.Config(limits), scrapes);
    RulesDecide(l, limits, HistogramBuckets);
  }

  /**
   What the value of a custom limit is for. For a metric with a surviving rule that gives the
   check the limit `v`, a violation is listed exactly when some sample exceeds `v`, whether that
   is above or below the global limit; without such a rule the global limit decides.
   */
  lemma ListedByRule(l: Lookup, limits: Limits, scrapes: seq<Scrape>, c: CheckType, metric: string)
    requires c in PER_METRIC && l.group != "" && l.env != "" && l.Fits()
    ensures var listed :=
        exists e :: e in TalliesOf(l.Config(limits), scrapes)[c].entries && e.key.metric == metric;
      && (forall v :: l.loaded.Some? && RuleLimit(l.metricHistory, l.group, l.env, metric, NameOf(c), v) ==>
            (listed <==>
              !l.Silences(NameOf(c)) && exists s :: Observed(c, scrapes, s) && s.key.metric == metric && s.size > v))
      && (!l.Excuses(metric, NameOf(c)) ==>
            (listed <==>
              !l.Silences(NameOf(c))
              && exists s :: Observed(c, scrapes, s) && s.key.metric == metric && s.size > limits.For(c)))
  {
    ListedIff(l.Config(limits), scrapes, c, metric);
    CustomLimitIs(l, limits, metric, c);
    RulesDecide(l, limits, c);
  }

  /**
   The response weight, for every group and env: a fact is enqueued if and only if no surviving
   target rule that the scrape read names the check and some response is heavier than the limit.
   */
  lemma FactIffHeavyResponse(l: Lookup, limits: Limits, scrapes: seq<Scrape>, report: ReportRow, time: int)
    requires l.Fits() && report.checks == ChecksOf(l.Config(limits), scrapes)
    requires exists x :: x in scrapes && x.Scraped?
    ensures (exists f :: f in FactsOf(report, time) && f.violationType == ResponseWeight) <==>
      && !(l.loaded.Some? && exists k :: W.SelectsTarget(l.group, l.env, k) && W.Names(l.targetHistory, k, "response_weight"))
      && exists x :: x in scrapes && x.Scraped? && x.weight > limits.maxBytesWeight
  {
    OutboxWeightFactIff(l.Config(limits), scrapes, report, time);
    DisabledIff(l, limits, ResponseWeight);
  }

  /**
   A scrape without an env: once its whitelists are loaded, a rule made for some other env of the
   group silences the check, so no fact is enqueued however large the samples are.
   */
  lemma EmptyEnvSilences(
    l: Lookup, rs: seq<W.Request>, env: string, checks: seq<string>, limits: Limits,
    scrapes: seq<Scrape>, report: ReportRow, time: int, c: CheckType)
    requires c in PER_METRIC && NameOf(c) in checks
    requires W.Admitted(W.UpsertTarget(W.TargetKey(l.group, env), checks))
    requires l.targetHistory == rs + [W.UpsertTarget(W.TargetKey(l.group, env), checks)]
    requires l.env == "" && l.loaded.Some? && l.Fits() && report.checks == ChecksOf(l.Config(limits), scrapes)
    ensures forall f :: f in FactsOf(report, time) ==> f.violationType != c
  {
    W.EmptyEnvReadsAll(rs, l.Listed(), l.group, env, checks, l.loaded.value, NameOf(c));
    ReadAgrees(l.loaded.value, "", c);
    OutboxFactIff(l.Config(limits), scrapes, report, time, c);
  }
}
