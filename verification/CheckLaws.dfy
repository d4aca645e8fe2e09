/**
 Each check in terms of what was scraped and of the configured numbers by name: which metrics
 are listed, when a check is violated or whitelisted, and when it makes an event.
 (internal/scraper/processor.go:124-312)
 */
module CheckLaws {
  import opened Options
  import opened Violations
  import opened Processor
  import opened ReportLaws

  // ---------------------------------------------------------------- custom limits

  /**
   Which violations a report lists. There is an entry for a metric exactly when the check is
   enabled and some sample of the metric exceeds its custom limit if it has one, the global
   limit otherwise. Entries of metrics with a custom limit are the whitelisted ones, and each
   holds the largest sample of its key.
   */
  lemma ListedIff(cfg: Config, scrapes: seq<Scrape>, c: CheckType, metric: string)
    requires c in PER_METRIC
    ensures var custom := cfg.whitelists.MetricCustomLimit(metric, c);
      (exists e :: e in TalliesOf(cfg, scrapes)[c].entries && e.key.metric == metric) <==>
      && !cfg.whitelists.IsCheckDisabled(c)
      && exists s ::
           && Observed(c, scrapes, s) && s.key.metric == metric
           && (if custom.Some? then s.size > custom.value else s.size > cfg.limits.For(c))
    ensures forall e :: e in TalliesOf(cfg, scrapes)[c].entries ==>
      && (e.whitelisted <==> cfg.whitelists.MetricCustomLimit(e.key.metric, c).Some?)
      && (exists s :: Observed(c, scrapes, s) && s.key == e.key && s.size == e.size)
      && forall s :: Observed(c, scrapes, s) && s.key == e.key ==> s.size <= e.size
  {
    if !cfg.whitelists.IsCheckDisabled(c) {
      EntriesOfMetric(cfg, scrapes, c, metric);
      EntriesObserved(cfg, scrapes, c);
    }
  }

  /** What it means for the policy that a sample violates. */
  lemma PolicyIs(cfg: Config, c: CheckType, s: Sample)
    ensures var custom := cfg.whitelists.MetricCustomLimit(s.key.metric, c);
      && (cfg.PolicyFor(c).Violates(s) <==> if custom.Some? then s.size > custom.value else s.size > cfg.limits.For(c))
      && cfg.PolicyFor(c).ToViolation(s) == Violation(s.key, s.size, custom.Some?)
  {
  }

  lemma SamplesObserved(c: CheckType, scrapes: seq<Scrape>)
    ensures forall s :: s in SamplesOf(c, scrapes) <==> Observed(c, scrapes, s)
  {
    forall s ensures s in SamplesOf(c, scrapes) <==> Observed(c, scrapes, s) {
      SamplesAreObserved(c, scrapes, s);
    }
  }

  lemma EntriesOfMetric(cfg: Config, scrapes: seq<Scrape>, c: CheckType, metric: string)
    requires c in PER_METRIC && !cfg.whitelists.IsCheckDisabled(c)
    ensures var custom := cfg.whitelists.MetricCustomLimit(metric, c);
      (exists e :: e in TalliesOf(cfg, scrapes)[c].entries && e.key.metric == metric) <==>
      exists s ::
        && Observed(c, scrapes, s) && s.key.metric == metric
        && (if custom.Some? then s.size > custom.value else s.size > cfg.limits.For(c))
  {
    var p, samples := cfg.PolicyFor(c), SamplesOf(c, scrapes);
    var entries, custom := TalliesOf(cfg, scrapes)[c].entries, cfg.whitelists.MetricCustomLimit(metric, c);
    TallySummarises(p, samples);
    SamplesObserved(c, scrapes);
    if e :| e in entries && e.key.metric == metric {
      assert WorstOfKey(p, samples, e);
      var s :| s in samples && p.Violates(s) && e == p.ToViolation(s);
      PolicyIs(cfg, c, s);
    }
    if s :| Observed(c, scrapes, s) && s.key.metric == metric
            && (if custom.Some? then s.size > custom.value else s.size > cfg.limits.For(c)) {
      PolicyIs(cfg, c, s);
      assert HasKey(entries, s.key);
    }
  }

  lemma EntriesObserved(cfg: Config, scrapes: seq<Scrape>, c: CheckType)
    requires c in PER_METRIC && !cfg.whitelists.IsCheckDisabled(c)
    ensures forall e :: e in TalliesOf(cfg, scrapes)[c].entries ==>
      && (e.whitelisted <==> cfg.whitelists.MetricCustomLimit(e.key.metric, c).Some?)
      && (exists s :: Observed(c, scrapes, s) && s.key == e.key && s.size == e.size)
      && forall s :: Observed(c, scrapes, s) && s.key == e.key ==> s.size <= e.size
  {
    var p, samples := cfg.PolicyFor(c), SamplesOf(c, scrapes);
    TallySummarises(p, samples);
    SamplesObserved(c, scrapes);
    forall e | e in TalliesOf(cfg, scrapes)[c].entries
      ensures e.whitelisted <==> cfg.whitelists.MetricCustomLimit(e.key.metric, c).Some?
      ensures exists s :: Observed(c, scrapes, s) && s.key == e.key && s.size == e.size
      ensures forall s :: Observed(c, scrapes, s) && s.key == e.key ==> s.size <= e.size
    {
      assert WorstOfKey(p, samples, e);
      var t :| t in samples && p.Violates(t) && e == p.ToViolation(t);
      assert Observed(c, scrapes, t) && t.key == e.key && t.size == e.size;
      PolicyIs(cfg, c, t);
      forall s | Observed(c, scrapes, s) && s.key == e.key ensures s.size <= e.size {
        PolicyIs(cfg, c, s);
        assert s.size > e.size ==> p.Violates(s);
      }
    }
  }

  /**
   When a reported check is violated: some sample exceeds the custom limit of its metric, or the
   global one if it has none. It is whitelisted when that never happens without a custom limit.
   */
  lemma ViolatedIff(cfg: Config, scrapes: seq<Scrape>, r: CheckResult)
    requires r in ChecksOf(cfg, scrapes) && r.checkType in PER_METRIC
    ensures r.violated <==> exists s ::
      && Observed(r.checkType, scrapes, s)
      && var custom := cfg.whitelists.MetricCustomLimit(s.key.metric, r.checkType);
         if custom.Some? then s.size > custom.value else s.size > cfg.limits.For(r.checkType)
    ensures r.whitelisted <==> r.violated && forall s ::
      Observed(r.checkType, scrapes, s) && cfg.whitelists.MetricCustomLimit(s.key.metric, r.checkType).None?
      ==> s.size <= cfg.limits.For(r.checkType)
  {
    var c, tallies := r.checkType, TalliesOf(cfg, scrapes);
    ResultsByType(cfg, tallies, WeightOf(cfg, scrapes), ORDER, r);
    var entries := tallies[c].entries;
    assert r.violated <==> entries != [];
    assert r.whitelisted <==> r.violated && AllWhitelisted(entries);
    SomeListed(cfg, scrapes, c);
    NoneUncovered(cfg, scrapes, c);
  }

  lemma SomeListed(cfg: Config, scrapes: seq<Scrape>, c: CheckType)
    requires c in PER_METRIC && !cfg.whitelists.IsCheckDisabled(c)
    ensures TalliesOf(cfg, scrapes)[c].entries != [] <==> exists s ::
      && Observed(c, scrapes, s)
      && var custom := cfg.whitelists.MetricCustomLimit(s.key.metric, c);
         if custom.Some? then s.size > custom.value else s.size > cfg.limits.For(c)
  {
    var entries := TalliesOf(cfg, scrapes)[c].entries;
    if entries != [] {
      EntriesOfMetric(cfg, scrapes, c, entries[0].key.metric);
      assert entries[0] in entries;
    }
    if s :| Observed(c, scrapes, s)
            && var custom := cfg.whitelists.MetricCustomLimit(s.key.metric, c);
               if custom.Some? then s.size > custom.value else s.size > cfg.limits.For(c) {
      EntriesOfMetric(cfg, scrapes, c, s.key.metric);
    }
  }

  lemma NoneUncovered(cfg: Config, scrapes: seq<Scrape>, c: CheckType)
    requires c in PER_METRIC && !cfg.whitelists.IsCheckDisabled(c)
    ensures AllWhitelisted(TalliesOf(cfg, scrapes)[c].entries) <==> forall s ::
      Observed(c, scrapes, s) && cfg.whitelists.MetricCustomLimit(s.key.metric, c).None? ==> s.size <= cfg.limits.For(c)
  {
    var entries := TalliesOf(cfg, scrapes)[c].entries;
    EntriesObserved(cfg, scrapes, c);
    if e :| e in entries && !e.whitelisted {
      EntriesOfMetric(cfg, scrapes, c, e.key.metric);
    }
    if s :| Observed(c, scrapes, s) && cfg.whitelists.MetricCustomLimit(s.key.metric, c).None? && s.size > cfg.limits.For(c) {
      EntriesOfMetric(cfg, scrapes, c, s.key.metric);
      var e :| e in entries && e.key.metric == s.key.metric;
      assert !e.whitelisted;
    }
  }

  // ---------------------------------------------------------------- the checks by name

  /** Family `f` is in the answer of an address that was scraped. */
  ghost predicate Seen(scrapes: seq<Scrape>, f: Family) {
    exists x :: x in scrapes && x.Scraped? && Some(f) in x.families
  }

  ghost predicate HasLabel(f: Family, l: Label) {
    exists m :: Some(m) in f.series && Some(l) in m.labels
  }

  ghost predicate HasBuckets(f: Family, n: nat) {
    exists m :: Some(m) in f.series && m.buckets == Some(n)
  }

  lemma ObservedIs(c: CheckType, scrapes: seq<Scrape>, s: Sample)
    ensures Observed(c, scrapes, s) <==> exists f :: Seen(scrapes, f) && Measures(c, f, s)
  {
    if x, f :| x in scrapes && x.Scraped? && Some(f) in x.families && Measures(c, f, s) {
      assert Seen(scrapes, f);
    }
    if f :| Seen(scrapes, f) && Measures(c, f, s) {
      var x :| x in scrapes && x.Scraped? && Some(f) in x.families;
    }
  }

  /** A metric-name event: some family without a custom limit has a name longer than the limit. */
  lemma MetricNameFact(cfg: Config, scrapes: seq<Scrape>)
    ensures FactFor(ChecksOf(cfg, scrapes), MetricNameLength) <==>
      && !cfg.whitelists.IsCheckDisabled(MetricNameLength)
      && exists f ::
           && Seen(scrapes, f) && |f.name| > cfg.limits.maxMetricNameLen
           && cfg.whitelists.MetricCustomLimit(f.name, MetricNameLength).None?
  {
    MetricFactIff(cfg, scrapes, MetricNameLength);
    forall s ensures Observed(MetricNameLength, scrapes, s) <==> exists f :: Seen(scrapes, f) && Measures(MetricNameLength, f, s) {
      ObservedIs(MetricNameLength, scrapes, s);
    }
    forall f | Seen(scrapes, f) ensures Observed(MetricNameLength, scrapes, Sample(ByMetric(f.name), |f.name|)) {
      assert Measures(MetricNameLength, f, Sample(ByMetric(f.name), |f.name|));
    }
  }

  /** A cardinality event: some such family has more series than the limit. */
  lemma CardinalityFact(cfg: Config, scrapes: seq<Scrape>)
    ensures FactFor(ChecksOf(cfg, scrapes), Cardinality) <==>
      && !cfg.whitelists.IsCheckDisabled(Cardinality)
      && exists f ::
           && Seen(scrapes, f) && |f.series| > cfg.limits.maxMetricCardinality
           && cfg.whitelists.MetricCustomLimit(f.name, Cardinality).None?
  {
    MetricFactIff(cfg, scrapes, Cardinality);
    forall s ensures Observed(Cardinality, scrapes, s) <==> exists f :: Seen(scrapes, f) && Measures(Cardinality, f, s) {
      ObservedIs(Cardinality, scrapes, s);
    }
    forall f | Seen(scrapes, f) ensures Observed(Cardinality, scrapes, Sample(ByMetric(f.name), |f.series|)) {
      assert Measures(Cardinality, f, Sample(ByMetric(f.name), |f.series|));
    }
  }

  /** A label-name event: some such family has a label whose name is longer than the limit. */
  lemma LabelNameFact(cfg: Config, scrapes: seq<Scrape>)
    ensures FactFor(ChecksOf(cfg, scrapes), LabelNameLength) <==>
      && !cfg.whitelists.IsCheckDisabled(LabelNameLength)
      && exists f, l ::
           && Seen(scrapes, f) && HasLabel(f, l) && |l.name| > cfg.limits.maxLabelNameLen
           && cfg.whitelists.MetricCustomLimit(f.name, LabelNameLength).None?
  {
    MetricFactIff(cfg, scrapes, LabelNameLength);
    forall s ensures Observed(LabelNameLength, scrapes, s) <==> exists f :: Seen(scrapes, f) && Measures(LabelNameLength, f, s) {
      ObservedIs(LabelNameLength, scrapes, s);
    }
    forall f, s | Measures(LabelNameLength, f, s) ensures exists l :: HasLabel(f, l) && s == Sample(ByLabel(f.name, l.name), |l.name|) {
      var m, l :| Some(m) in f.series && Some(l) in m.labels && s == Sample(ByLabel(f.name, l.name), |l.name|);
      assert HasLabel(f, l);
    }
    forall f, l | Seen(scrapes, f) && HasLabel(f, l)
      ensures Observed(LabelNameLength, scrapes, Sample(ByLabel(f.name, l.name), |l.name|))
    {
      assert Measures(LabelNameLength, f, Sample(ByLabel(f.name, l.name), |l.name|));
    }
  }

  /** A label-value event: some such family has a label whose value is longer than the limit. */
  lemma LabelValueFact(cfg: Config, scrapes: seq<Scrape>)
    ensures FactFor(ChecksOf(cfg, scrapes), LabelValueLength) <==>
      && !cfg.whitelists.IsCheckDisabled(LabelValueLength)
      && exists f, l ::
           && Seen(scrapes, f) && HasLabel(f, l) && |l.value| > cfg.limits.maxLabelValueLen
           && cfg.whitelists.MetricCustomLimit(f.name, LabelValueLength).None?
  {
    MetricFactIff(cfg, scrapes, LabelValueLength);
    forall s ensures Observed(LabelValueLength, scrapes, s) <==> exists f :: Seen(scrapes, f) && Measures(LabelValueLength, f, s) {
      ObservedIs(LabelValueLength, scrapes, s);
    }
    forall f, s | Measures(LabelValueLength, f, s)
      ensures exists l :: HasLabel(f, l) && s == Sample(ByValue(f.name, l.name, l.value), |l.value|)
    {
      var m, l :| Some(m) in f.series && Some(l) in m.labels && s == Sample(ByValue(f.name, l.name, l.value), |l.value|);
      assert HasLabel(f, l);
    }
    forall f, l | Seen(scrapes, f) && HasLabel(f, l)
      ensures Observed(LabelValueLength, scrapes, Sample(ByValue(f.name, l.name, l.value), |l.value|))
    {
      assert Measures(LabelValueLength, f, Sample(ByValue(f.name, l.name, l.value), |l.value|));
    }
  }

  /** A bucket event: some such family has a histogram with more buckets than the limit. */
  lemma BucketsFact(cfg: Config, scrapes: seq<Scrape>)
    ensures FactFor(ChecksOf(cfg, scrapes), HistogramBuckets) <==>
      && !cfg.whitelists.IsCheckDisabled(HistogramBuckets)
      && exists f, n: nat ::
           && Seen(scrapes, f) && HasBuckets(f, n) && n > cfg.limits.maxHistogramBuckets
           && cfg.whitelists.MetricCustomLimit(f.name, HistogramBuckets).None?
  {
    MetricFactIff(cfg, scrapes, HistogramBuckets);
    forall s ensures Observed(HistogramBuckets, scrapes, s) <==> exists f :: Seen(scrapes, f) && Measures(HistogramBuckets, f, s) {
      ObservedIs(HistogramBuckets, scrapes, s);
    }
    forall f, s | Measures(HistogramBuckets, f, s) ensures HasBuckets(f, s.size) && s.key == ByMetric(f.name) {
      var m :| Some(m) in f.series && m.buckets.Some? && s == Sample(ByMetric(f.name), m.buckets.value);
      assert m.buckets == Some(s.size);
    }
    forall f, n: nat | Seen(scrapes, f) && HasBuckets(f, n)
      ensures Observed(HistogramBuckets, scrapes, Sample(ByMetric(f.name), n))
    {
      assert Measures(HistogramBuckets, f, Sample(ByMetric(f.name), n));
    }
  }

  /** The results of a report in order, each with its limit: the six checks, without the disabled ones. */
  lemma ChecksAreListed(cfg: Config, scrapes: seq<Scrape>)
    ensures Shown(ChecksOf(cfg, scrapes)) == Enabled(cfg, [
      (MetricNameLength, cfg.limits.maxMetricNameLen), (LabelNameLength, cfg.limits.maxLabelNameLen),
      (LabelValueLength, cfg.limits.maxLabelValueLen), (Cardinality, cfg.limits.maxMetricCardinality),
      (HistogramBuckets, cfg.limits.maxHistogramBuckets), (ResponseWeight, cfg.limits.maxBytesWeight)])
  {
    ResultsShown(cfg, TalliesOf(cfg, scrapes), WeightOf(cfg, scrapes), ORDER);
    var six := [
      (MetricNameLength, cfg.limits.maxMetricNameLen), (LabelNameLength, cfg.limits.maxLabelNameLen),
      (LabelValueLength, cfg.limits.maxLabelValueLen), (Cardinality, cfg.limits.maxMetricCardinality),
      (HistogramBuckets, cfg.limits.maxHistogramBuckets), (ResponseWeight, cfg.limits.maxBytesWeight)];
    assert WithLimits(cfg, ORDER) == six;
  }

  function Shown(checks: seq<CheckResult>): seq<(CheckType, int)> {
    seq(|checks|, i requires 0 <= i < |checks| => (checks[i].checkType, checks[i].limit))
  }

  function Enabled(cfg: Config, lines: seq<(CheckType, int)>): seq<(CheckType, int)> {
    if lines == [] then []
    else
      var last := lines[|lines| - 1];
      Enabled(cfg, lines[..|lines| - 1]) + if cfg.whitelists.IsCheckDisabled(last.0) then [] else [last]
  }

  function WithLimits(cfg: Config, order: seq<CheckType>): seq<(CheckType, int)> {
    seq(|order|, i requires 0 <= i < |order| => (order[i], cfg.limits.For(order[i])))
  }

  lemma {:induction false} ResultsShown(cfg: Config, t: map<CheckType, Tally>, w: int, order: seq<CheckType>)
    requires t.Keys == PER_METRIC
    ensures Shown(Results(cfg, t, w, order)) == Enabled(cfg, WithLimits(cfg, order))
  {
    if order != [] {
      var front := order[..|order| - 1];
      ResultsShown(cfg, t, w, front);
      assert WithLimits(cfg, order)[..|order| - 1] == WithLimits(cfg, front);
    }
  }
}
