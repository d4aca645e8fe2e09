/**
 What holds of every report `Process` can return, in terms of the raw scraped data
 (internal/scraper/processor.go, internal/scraper/report.go and the event filter of
 internal/storage/postgres/reports.go).
 */
module ReportLaws {
  import opened Options
  import opened Violations
  import opened Processor

  // ---------------------------------------------------------------- where samples come from

  /** `s` is what check `c` measures somewhere in family `f`. */
  ghost predicate Measures(c: CheckType, f: Family, s: Sample) {
    match c
    case MetricNameLength => s == Sample(ByMetric(f.name), |f.name|)
    case Cardinality => s == Sample(ByMetric(f.name), |f.series|)
    case LabelNameLength =>
      exists m, l :: Some(m) in f.series && Some(l) in m.labels && s == Sample(ByLabel(f.name, l.name), |l.name|)
    case LabelValueLength =>
      exists m, l :: Some(m) in f.series && Some(l) in m.labels && s == Sample(ByValue(f.name, l.name, l.value), |l.value|)
    case HistogramBuckets =>
      exists m :: Some(m) in f.series && m.buckets.Some? && s == Sample(ByMetric(f.name), m.buckets.value)
    case ResponseWeight => false
  }

  /** `s` was measured in a family of an address that was scraped successfully. */
  ghost predicate Observed(c: CheckType, scrapes: seq<Scrape>, s: Sample) {
    exists x, f :: x in scrapes && x.Scraped? && Some(f) in x.families && Measures(c, f, s)
  }

  lemma {:induction false} LabelsOrigin(c: CheckType, metric: string, labels: seq<Option<Label>>, s: Sample)
    ensures s in LabelsSamples(c, metric, labels) <==> exists l :: l in labels && s in LabelSamples(c, metric, l)
  {
    if labels != [] {
      var front, last := labels[..|labels| - 1], labels[|labels| - 1];
      LabelsOrigin(c, metric, front, s);
      assert last in labels && forall l :: l in labels <==> l in front || l == last;
    }
  }

  lemma {:induction false} SeriesOrigin(c: CheckType, metric: string, series: seq<Option<Series>>, s: Sample)
    ensures s in AllSeriesSamples(c, metric, series) <==> exists m :: m in series && s in SeriesSamples(c, metric, m)
  {
    if series != [] {
      var front, last := series[..|series| - 1], series[|series| - 1];
      SeriesOrigin(c, metric, front, s);
      assert last in series && forall m :: m in series <==> m in front || m == last;
    }
  }

  lemma {:induction false} FamiliesOrigin(c: CheckType, families: seq<Option<Family>>, s: Sample)
    ensures s in FamiliesSamples(c, families) <==> exists f :: f in families && s in FamilySamples(c, f)
  {
    if families != [] {
      var front, last := families[..|families| - 1], families[|families| - 1];
      FamiliesOrigin(c, front, s);
      assert last in families && forall f :: f in families <==> f in front || f == last;
    }
  }

  lemma {:induction false} ScrapesOrigin(c: CheckType, scrapes: seq<Scrape>, s: Sample)
    ensures s in SamplesOf(c, scrapes) <==> exists x :: x in scrapes && s in ScrapeSamples(c, x)
  {
    if scrapes != [] {
      var front, last := scrapes[..|scrapes| - 1], scrapes[|scrapes| - 1];
      ScrapesOrigin(c, front, s);
      assert last in scrapes && forall x :: x in scrapes <==> x in front || x == last;
    }
  }

  lemma FamilyOrigin(c: CheckType, f: Family, s: Sample)
    ensures s in FamilySamples(c, Some(f)) <==> Measures(c, f, s)
  {
    SeriesOrigin(c, f.name, f.series, s);
    forall m | m in f.series && m.Some? ensures s in SeriesSamples(c, f.name, m) <==>
      s in BucketSamples(c, f.name, m.value)
      || exists l :: l in m.value.labels && s in LabelSamples(c, f.name, l)
    {
      LabelsOrigin(c, f.name, m.value.labels, s);
    }
    if s in FamilySamples(c, Some(f)) && s !in HeadSamples(c, f) {
      var m :| m in f.series && s in SeriesSamples(c, f.name, m);
      assert m == Some(m.value);
      if s !in BucketSamples(c, f.name, m.value) {
        var l :| l in m.value.labels && s in LabelSamples(c, f.name, l);
        assert l == Some(l.value);
      }
    }
  }

  /** The samples a check folds are exactly the ones observed in the data. */
  lemma SamplesAreObserved(c: CheckType, scrapes: seq<Scrape>, s: Sample)
    ensures s in SamplesOf(c, scrapes) <==> Observed(c, scrapes, s)
  {
    ScrapesOrigin(c, scrapes, s);
    if s in SamplesOf(c, scrapes) {
      var x :| x in scrapes && s in ScrapeSamples(c, x);
      FamiliesOrigin(c, x.families, s);
      var f :| f in x.families && s in FamilySamples(c, f);
      FamilyOrigin(c, f.value, s);
      assert f == Some(f.value);
    }
    if Observed(c, scrapes, s) {
      var x, f :| x in scrapes && x.Scraped? && Some(f) in x.families && Measures(c, f, s);
      FamilyOrigin(c, f, s);
      FamiliesOrigin(c, x.families, s);
    }
  }

  // ---------------------------------------------------------------- which checks are reported

  lemma {:induction false} ResultsByType(
    cfg: Config, tallies: map<CheckType, Tally>, weight: int, order: seq<CheckType>, r: CheckResult)
    requires tallies.Keys == PER_METRIC
    ensures r in Results(cfg, tallies, weight, order) <==>
      r.checkType in order && !cfg.whitelists.IsCheckDisabled(r.checkType) && r == ResultFor(cfg, tallies, weight, r.checkType)
  {
    if order != [] {
      var front, last := order[..|order| - 1], order[|order| - 1];
      ResultsByType(cfg, tallies, weight, front, r);
      assert forall c :: c in order <==> c in front || c == last;
    }
  }

  /** A check result that `buildViolationOutboxEvents` turns into an outbox event. */
  predicate IsFact(r: CheckResult) {
    r.violated && !r.whitelisted
  }

  ghost predicate FactFor(checks: seq<CheckResult>, c: CheckType) {
    exists r :: r in checks && r.checkType == c && IsFact(r)
  }

  lemma FactIsResult(cfg: Config, scrapes: seq<Scrape>, c: CheckType)
    ensures FactFor(ChecksOf(cfg, scrapes), c) <==>
      !cfg.whitelists.IsCheckDisabled(c) && IsFact(ResultFor(cfg, TalliesOf(cfg, scrapes), WeightOf(cfg, scrapes), c))
  {
    var result := ResultFor(cfg, TalliesOf(cfg, scrapes), WeightOf(cfg, scrapes), c);
    InOrder(c);
    ResultsByType(cfg, TalliesOf(cfg, scrapes), WeightOf(cfg, scrapes), ORDER, result);
    if FactFor(ChecksOf(cfg, scrapes), c) {
      var r :| r in ChecksOf(cfg, scrapes) && r.checkType == c && IsFact(r);
      ResultsByType(cfg, TalliesOf(cfg, scrapes), WeightOf(cfg, scrapes), ORDER, r);
    }
  }

  /**
   A violation fact for a per-metric check is built exactly when the check is enabled and
   some observed sample of a metric without a custom limit exceeds the global limit.
   */
  lemma MetricFactIff(cfg: Config, scrapes: seq<Scrape>, c: CheckType)
    requires c in PER_METRIC
    ensures FactFor(ChecksOf(cfg, scrapes), c) <==>
      && !cfg.whitelists.IsCheckDisabled(c)
      && exists s ::
           && Observed(c, scrapes, s)
           && cfg.whitelists.MetricCustomLimit(s.key.metric, c).None?
           && s.size > cfg.limits.For(c)
  {
    FactIsResult(cfg, scrapes, c);
    var p, samples := cfg.PolicyFor(c), SamplesOf(c, scrapes);
    StatusOfTally(p, samples);
    forall s ensures s in samples <==> Observed(c, scrapes, s) {
      SamplesAreObserved(c, scrapes, s);
    }
    assert forall m :: m in p.custom <==> cfg.whitelists.MetricCustomLimit(m, c).Some?;
    assert SomeUncoveredViolation(p, samples) <==>
      exists s :: Observed(c, scrapes, s) && cfg.whitelists.MetricCustomLimit(s.key.metric, c).None? && s.size > p.limit;
  }

  lemma {:induction false} MaxWeightIsLargest(scrapes: seq<Scrape>)
    ensures forall x :: x in scrapes && x.Scraped? ==> x.weight <= MaxWeight(scrapes)
    ensures MaxWeight(scrapes) == 0 || exists x :: x in scrapes && x.Scraped? && x.weight == MaxWeight(scrapes)
  {
    if scrapes != [] {
      var front, last := scrapes[..|scrapes| - 1], scrapes[|scrapes| - 1];
      MaxWeightIsLargest(front);
      assert last in scrapes && forall x :: x in scrapes <==> x in front || x == last;
    }
  }

  /** The response-weight fact: enabled, and some successful response above the limit. */
  lemma WeightFactIff(cfg: Config, scrapes: seq<Scrape>)
    requires exists x :: x in scrapes && x.Scraped?
    ensures FactFor(ChecksOf(cfg, scrapes), ResponseWeight) <==>
      && !cfg.whitelists.IsCheckDisabled(ResponseWeight)
      && exists x :: x in scrapes && x.Scraped? && x.weight > cfg.limits.maxBytesWeight
  {
    FactIsResult(cfg, scrapes, ResponseWeight);
    MaxWeightIsLargest(scrapes);
  }

  /** A check is reported at most once, so each fact stands for one check. */
  lemma {:induction false} OneResultPerType(
    cfg: Config, tallies: map<CheckType, Tally>, weight: int, order: seq<CheckType>, i: nat, j: nat)
    requires tallies.Keys == PER_METRIC
    requires forall a, b :: 0 <= a < b < |order| ==> order[a] != order[b]
    requires i < j < |Results(cfg, tallies, weight, order)|
    ensures Results(cfg, tallies, weight, order)[i].checkType != Results(cfg, tallies, weight, order)[j].checkType
  {
    var front, last := order[..|order| - 1], order[|order| - 1];
    var rs := Results(cfg, tallies, weight, front);
    if j < |rs| {
      OneResultPerType(cfg, tallies, weight, front, i, j);
    } else {
      ResultsByType(cfg, tallies, weight, front, rs[i]);
    }
  }

  /** The tables of limits and of current values: what each enabled check has, zero for a disabled one. */
  lemma TablesOfReport(cfg: Config, scrapes: seq<Scrape>, limits: map<CheckType, int>, current: map<CheckType, int>, c: CheckType)
    requires Tabulates(ChecksOf(cfg, scrapes), LimitOf, limits)
    requires Tabulates(ChecksOf(cfg, scrapes), CurrentOf, current)
    ensures var off := cfg.whitelists.IsCheckDisabled(c);
      && limits[c] == (if off then 0 else
         (match c
           case MetricNameLength => cfg.limits.maxMetricNameLen
           case LabelNameLength => cfg.limits.maxLabelNameLen
           case LabelValueLength => cfg.limits.maxLabelValueLen
           case Cardinality => cfg.limits.maxMetricCardinality
           case HistogramBuckets => cfg.limits.maxHistogramBuckets
           case ResponseWeight => cfg.limits.maxBytesWeight))
      && current[c] == (if off then 0 else if c == ResponseWeight then MaxWeight(scrapes) else TalliesOf(cfg, scrapes)[c].current)
  {
    if cfg.whitelists.IsCheckDisabled(c) {
      DisabledNotListed(cfg, scrapes, c);
    } else {
      var i := ListedOnce(cfg, scrapes, c);
    }
  }

  lemma DisabledNotListed(cfg: Config, scrapes: seq<Scrape>, c: CheckType)
    requires cfg.whitelists.IsCheckDisabled(c)
    ensures forall i :: 0 <= i < |ChecksOf(cfg, scrapes)| ==> ChecksOf(cfg, scrapes)[i].checkType != c
  {
    var checks := ChecksOf(cfg, scrapes);
    forall i | 0 <= i < |checks| ensures checks[i].checkType != c {
      ResultsByType(cfg, TalliesOf(cfg, scrapes), WeightOf(cfg, scrapes), ORDER, checks[i]);
    }
  }

  lemma ListedOnce(cfg: Config, scrapes: seq<Scrape>, c: CheckType) returns (i: nat)
    requires !cfg.whitelists.IsCheckDisabled(c)
    ensures var checks := ChecksOf(cfg, scrapes);
      && i < |checks| && checks[i] == ResultFor(cfg, TalliesOf(cfg, scrapes), WeightOf(cfg, scrapes), c)
      && forall j :: i < j < |checks| ==> checks[j].checkType != checks[i].checkType
  {
    i := Listed(cfg, scrapes, c);
    forall j | i < j < |ChecksOf(cfg, scrapes)|
      ensures ChecksOf(cfg, scrapes)[j].checkType != ChecksOf(cfg, scrapes)[i].checkType
    {
      OneResultPerType(cfg, TalliesOf(cfg, scrapes), WeightOf(cfg, scrapes), ORDER, i, j);
    }
  }

  lemma Listed(cfg: Config, scrapes: seq<Scrape>, c: CheckType) returns (i: nat)
    requires !cfg.whitelists.IsCheckDisabled(c)
    ensures i < |ChecksOf(cfg, scrapes)|
    ensures ChecksOf(cfg, scrapes)[i] == ResultFor(cfg, TalliesOf(cfg, scrapes), WeightOf(cfg, scrapes), c)
  {
    var checks, result := ChecksOf(cfg, scrapes), ResultFor(cfg, TalliesOf(cfg, scrapes), WeightOf(cfg, scrapes), c);
    InOrder(c);
    ResultsByType(cfg, TalliesOf(cfg, scrapes), WeightOf(cfg, scrapes), ORDER, result);
    i :| 0 <= i < |checks| && checks[i] == result;
  }

  lemma InOrder(c: CheckType)
    ensures c in ORDER
  {
    match c
    case MetricNameLength => assert ORDER[0] == c;
    case LabelNameLength => assert ORDER[1] == c;
    case LabelValueLength => assert ORDER[2] == c;
    case Cardinality => assert ORDER[3] == c;
    case HistogramBuckets => assert ORDER[4] == c;
    case ResponseWeight => assert ORDER[5] == c;
  }

  // ---------------------------------------------------------------- order, repetition, merging

  /** The same answer of one address, up to the iteration order of the family map. */
  ghost predicate SameScrape(x: Scrape, y: Scrape) {
    || (x.Unreachable? && y.Unreachable?)
    || (x.Scraped? && y.Scraped? && x.weight == y.weight && forall f :: f in x.families <==> f in y.families)
  }

  ghost predicate Covers(a: seq<Scrape>, b: seq<Scrape>) {
    forall y :: y in b ==> exists x :: x in a && SameScrape(x, y)
  }

  lemma CoveredSample(c: CheckType, a: seq<Scrape>, b: seq<Scrape>, s: Sample)
    requires Covers(a, b) && s in SamplesOf(c, b)
    ensures s in SamplesOf(c, a)
  {
    SamplesAreObserved(c, b, s);
    var y, f :| y in b && y.Scraped? && Some(f) in y.families && Measures(c, f, s);
    var x :| x in a && SameScrape(x, y);
    SamplesAreObserved(c, a, s);
  }

  lemma CoveredWeight(a: seq<Scrape>, b: seq<Scrape>)
    requires Covers(a, b)
    ensures MaxWeight(b) <= MaxWeight(a)
  {
    MaxWeightIsLargest(a);
    MaxWeightIsLargest(b);
    if MaxWeight(b) > 0 {
      var y :| y in b && y.Scraped? && y.weight == MaxWeight(b);
      var x :| x in a && SameScrape(x, y);
    }
  }

  lemma {:induction false} EqualResults(
    cfg: Config, t: map<CheckType, Tally>, u: map<CheckType, Tally>, weight: int, order: seq<CheckType>)
    requires t.Keys == u.Keys == PER_METRIC
    requires forall c :: c in PER_METRIC ==> Equivalent(t[c], u[c])
    ensures Results(cfg, t, weight, order) == Results(cfg, u, weight, order)
  {
    if order != [] {
      EqualResults(cfg, t, u, weight, order[..|order| - 1]);
      var c := order[|order| - 1];
      if c in PER_METRIC {
        assert Equivalent(t[c], u[c]);
        assert t[c].entries == [] <==> u[c].entries == [];
      }
    }
  }

  /**
   Permuting or repeating addresses, and permuting the families of an address, leaves the
   checks identical, the lists equal as sets and the maxima equal in magnitude.
   */
  lemma ReportOrderIndependent(cfg: Config, a: seq<Scrape>, b: seq<Scrape>)
    requires Covers(a, b) && Covers(b, a)
    ensures ChecksOf(cfg, a) == ChecksOf(cfg, b)
    ensures forall c :: c in PER_METRIC ==> Equivalent(TalliesOf(cfg, a)[c], TalliesOf(cfg, b)[c])
    ensures WeightOf(cfg, a) == WeightOf(cfg, b)
  {
    CoveredWeight(a, b);
    CoveredWeight(b, a);
    forall c | c in PER_METRIC ensures Equivalent(TallyFor(cfg, c, a), TallyFor(cfg, c, b)) {
      forall s ensures s in SamplesOf(c, a) <==> s in SamplesOf(c, b) {
        if s in SamplesOf(c, a) { CoveredSample(c, b, a, s); }
        if s in SamplesOf(c, b) { CoveredSample(c, a, b, s); }
      }
      OrderIndependent(cfg.PolicyFor(c), SamplesOf(c, a), SamplesOf(c, b));
    }
    EqualResults(cfg, TalliesOf(cfg, a), TalliesOf(cfg, b), WeightOf(cfg, a), ORDER);
  }

  lemma PermutationCovers(a: seq<Scrape>, b: seq<Scrape>)
    requires multiset(a) == multiset(b)
    ensures Covers(a, b) && Covers(b, a)
  {
    forall y | y in b ensures exists x :: x in a && SameScrape(x, y) {
      assert y in multiset(b);
      assert y in a && SameScrape(y, y);
    }
    forall y | y in a ensures exists x :: x in b && SameScrape(x, y) {
      assert y in multiset(a);
      assert y in b && SameScrape(y, y);
    }
  }

  /** Scraping the same answers again changes nothing. */
  lemma RepetitionIsIdempotent(cfg: Config, a: seq<Scrape>, again: seq<Scrape>)
    requires forall x :: x in again ==> x in a
    ensures ChecksOf(cfg, a + again) == ChecksOf(cfg, a)
    ensures forall c :: c in PER_METRIC ==> Equivalent(TalliesOf(cfg, a + again)[c], TalliesOf(cfg, a)[c])
  {
    forall y | y in a + again ensures exists x :: x in a && SameScrape(x, y) {
      assert y in a && SameScrape(y, y);
    }
    forall y | y in a ensures exists x :: x in a + again && SameScrape(x, y) {
      assert y in a + again && SameScrape(y, y);
    }
    ReportOrderIndependent(cfg, a + again, a);
  }

  lemma SamplesSnoc(c: CheckType, a: seq<Scrape>, x: Scrape)
    ensures SamplesOf(c, a + [x]) == SamplesOf(c, a) + ScrapeSamples(c, x)
  {
    assert (a + [x])[..|a|] == a;
  }

  lemma SplitLast<T>(a: seq<T>, b: seq<T>)
    requires b != []
    ensures b == b[..|b| - 1] + [b[|b| - 1]]
    ensures a + b == (a + b[..|b| - 1]) + [b[|b| - 1]]
  {
  }

  lemma Associative<T>(x: seq<T>, y: seq<T>, z: seq<T>)
    ensures x + y + z == x + (y + z)
  {
  }

  lemma {:induction false} SamplesConcat(c: CheckType, a: seq<Scrape>, b: seq<Scrape>)
    ensures SamplesOf(c, a + b) == SamplesOf(c, a) + SamplesOf(c, b)
    decreases |b|
  {
    if b == [] {
      assert a + b == a;
    } else {
      var front, last := b[..|b| - 1], b[|b| - 1];
      SamplesConcat(c, a, front);
      SplitLast(a, b);
      SamplesSnoc(c, a + front, last);
      SamplesSnoc(c, front, last);
      Associative(SamplesOf(c, a), SamplesOf(c, front), ScrapeSamples(c, last));
    }
  }

  lemma {:induction false} WeightConcat(a: seq<Scrape>, b: seq<Scrape>)
    ensures MaxWeight(a + b) == if MaxWeight(b) > MaxWeight(a) then MaxWeight(b) else MaxWeight(a)
    decreases |b|
  {
    if b == [] {
      assert a + b == a;
    } else {
      assert (a + b)[..|a + b| - 1] == a + b[..|b| - 1];
      WeightConcat(a, b[..|b| - 1]);
    }
  }

  /** Processing the addresses of A and then of B is merging the two separate reports. */
  lemma ReportMerges(cfg: Config, a: seq<Scrape>, b: seq<Scrape>)
    ensures forall c :: c in PER_METRIC ==>
      TalliesOf(cfg, a + b)[c] == Merge(TalliesOf(cfg, a)[c], TalliesOf(cfg, b)[c])
    ensures WeightOf(cfg, a + b) == MaxOf(WeightOf(cfg, a), WeightOf(cfg, b))
    ensures ChecksOf(cfg, a + b)
         == Results(cfg, MergeAll(TalliesOf(cfg, a), TalliesOf(cfg, b)), MaxOf(WeightOf(cfg, a), WeightOf(cfg, b)), ORDER)
    ensures Reported(cfg, WeightOf(cfg, a + b)) == MaxOf(Reported(cfg, WeightOf(cfg, a)), Reported(cfg, WeightOf(cfg, b)))
  {
    WeightConcat(a, b);
    forall c | c in PER_METRIC ensures TallyFor(cfg, c, a + b) == Merge(TallyFor(cfg, c, a), TallyFor(cfg, c, b)) {
      if !cfg.whitelists.IsCheckDisabled(c) {
        SamplesConcat(c, a, b);
        ConcatIsMerge(cfg.PolicyFor(c), SamplesOf(c, a), SamplesOf(c, b));
      }
    }
    assert TalliesOf(cfg, a + b) == MergeAll(TalliesOf(cfg, a), TalliesOf(cfg, b));
  }

  function MaxOf(x: nat, y: nat): nat {
    if y > x then y else x
  }

  function MergeAll(t: map<CheckType, Tally>, u: map<CheckType, Tally>): map<CheckType, Tally>
    requires t.Keys == u.Keys == PER_METRIC
  {
    map c | c in PER_METRIC :: Merge(t[c], u[c])
  }

  /** The weight shown in the details: only one above the limit. */
  function Reported(cfg: Config, weight: nat): nat {
    if weight > cfg.limits.maxBytesWeight then weight else 0
  }

  // ---------------------------------------------------------------- non-interference

  function Disable(cfg: Config, c: CheckType): Config {
    cfg.(whitelists := cfg.whitelists.(disabledChecks := cfg.whitelists.disabledChecks + {c}))
  }

  function Without(checks: seq<CheckResult>, c: CheckType): seq<CheckResult> {
    if checks == [] then []
    else Without(checks[..|checks| - 1], c) + if checks[|checks| - 1].checkType == c then [] else [checks[|checks| - 1]]
  }

  lemma {:induction false} WithoutConcat(a: seq<CheckResult>, b: seq<CheckResult>, c: CheckType)
    ensures Without(a + b, c) == Without(a, c) + Without(b, c)
    decreases |b|
  {
    if b == [] {
      assert a + b == a;
    } else {
      assert (a + b)[..|a + b| - 1] == a + b[..|b| - 1];
      WithoutConcat(a, b[..|b| - 1], c);
    }
  }

  lemma {:induction false} ResultsWithout(
    cfg: Config, c: CheckType, t: map<CheckType, Tally>, u: map<CheckType, Tally>, v: int, w: int, order: seq<CheckType>)
    requires t.Keys == u.Keys == PER_METRIC
    requires forall d :: d in PER_METRIC && d != c ==> t[d] == u[d]
    requires c == ResponseWeight || v == w
    ensures Results(Disable(cfg, c), u, w, order) == Without(Results(cfg, t, v, order), c)
  {
    if order != [] {
      var front, last := order[..|order| - 1], order[|order| - 1];
      ResultsWithout(cfg, c, t, u, v, w, front);
      var one := ResultIfEnabled(cfg, t, v, last);
      WithoutConcat(Results(cfg, t, v, front), one, c);
      WithoutOne(cfg, c, t, u, v, w, last);
    }
  }

  lemma WithoutOne(
    cfg: Config, c: CheckType, t: map<CheckType, Tally>, u: map<CheckType, Tally>, v: int, w: int, d: CheckType)
    requires t.Keys == u.Keys == PER_METRIC
    requires forall e :: e in PER_METRIC && e != c ==> t[e] == u[e]
    requires c == ResponseWeight || v == w
    ensures ResultIfEnabled(Disable(cfg, c), u, w, d) == Without(ResultIfEnabled(cfg, t, v, d), c)
  {
    var one := ResultIfEnabled(cfg, t, v, d);
    if one != [] {
      assert one[..0] == [];
    }
  }

  /**
   Disabling a check removes exactly its own result and violations and changes no other
   check's result, list or maximum.
   */
  lemma DisablingIsLocal(cfg: Config, c: CheckType, scrapes: seq<Scrape>)
    ensures ChecksOf(Disable(cfg, c), scrapes) == Without(ChecksOf(cfg, scrapes), c)
    ensures forall d :: d in PER_METRIC ==>
      TalliesOf(Disable(cfg, c), scrapes)[d] == if d == c then EMPTY else TalliesOf(cfg, scrapes)[d]
    ensures WeightOf(Disable(cfg, c), scrapes) == if c == ResponseWeight then 0 else WeightOf(cfg, scrapes)
  {
    ResultsWithout(cfg, c, TalliesOf(cfg, scrapes), TalliesOf(Disable(cfg, c), scrapes),
                   WeightOf(cfg, scrapes), WeightOf(Disable(cfg, c), scrapes), ORDER);
  }

  // ---------------------------------------------------------------- the two accumulators

  /** `ValidateLimitsConfig` accepts exactly the configurations with positive limits. */
  predicate ValidLimits(l: Limits) {
    && l.maxMetricNameLen > 0 && l.maxLabelNameLen > 0 && l.maxLabelValueLen > 0
    && l.maxMetricCardinality > 0 && l.maxHistogramBuckets > 0 && l.maxBytesWeight > 0
  }

  /**
   With validated limits and no custom ones, a reported check is violated exactly when its
   current value exceeds its limit; custom limits aside, the current value always bounds
   the listed violations.
   */
  lemma ViolatedIffAboveLimit(cfg: Config, scrapes: seq<Scrape>, r: CheckResult)
    requires ValidLimits(cfg.limits) && cfg.whitelists.metricChecks == map[]
    requires r in ChecksOf(cfg, scrapes)
    ensures r.violated <==> r.current > r.limit
    ensures !r.whitelisted
  {
    ResultsByType(cfg, TalliesOf(cfg, scrapes), WeightOf(cfg, scrapes), ORDER, r);
    var c := r.checkType;
    if c in PER_METRIC {
      var p, samples := cfg.PolicyFor(c), SamplesOf(c, scrapes);
      assert p.custom == map[];
      AccumulatorsAgree(p, samples);
      StatusOfTally(p, samples);
    }
  }

  lemma CurrentBoundsListed(cfg: Config, scrapes: seq<Scrape>, c: CheckType, e: Violation)
    requires c in PER_METRIC && e in TalliesOf(cfg, scrapes)[c].entries
    ensures e.size <= TalliesOf(cfg, scrapes)[c].current
  {
    CurrentBoundsEntries(cfg.PolicyFor(c), SamplesOf(c, scrapes), e);
  }
}
