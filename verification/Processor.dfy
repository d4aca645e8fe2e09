/**
 `Processor.Process` and `handleMetricFamily` (internal/scraper/processor.go), with the
 whitelist lookups they use (internal/scraper/whitelist.go).

 The metrics client is an input: one `Scrape` per address, in the order of the addresses,
 with the families in whatever order the map iteration produced them. Strings stand for
 byte strings, so `|s|` is Go's `len(s)`.
 */
module Processor {
  import opened Options
  import opened Violations

  datatype CheckType =
    | MetricNameLength | LabelNameLength | LabelValueLength
    | Cardinality | HistogramBuckets | ResponseWeight

  /** The five checks made per metric; the response weight is checked per address. */
  const PER_METRIC: set<CheckType> :=
    {MetricNameLength, LabelNameLength, LabelValueLength, Cardinality, HistogramBuckets}

  datatype Limits = Limits(
    maxMetricNameLen: int, maxLabelNameLen: int, maxLabelValueLen: int,
    maxMetricCardinality: int, maxHistogramBuckets: int, maxBytesWeight: int)
  {
    function For(c: CheckType): int {
      match c
      case MetricNameLength => maxMetricNameLen
      case LabelNameLength => maxLabelNameLen
      case LabelValueLength => maxLabelValueLen
      case Cardinality => maxMetricCardinality
      case HistogramBuckets => maxHistogramBuckets
      case ResponseWeight => maxBytesWeight
    }
  }

  datatype Whitelists = Whitelists(
    metricChecks: map<string, map<CheckType, int>>, disabledChecks: set<CheckType>)
  {
    predicate IsCheckDisabled(c: CheckType) {
      c in disabledChecks
    }

    function MetricCustomLimit(metric: string, c: CheckType): Option<int> {
      if metric in metricChecks && c in metricChecks[metric] then Some(metricChecks[metric][c]) else None
    }
  }

  datatype Config = Config(limits: Limits, whitelists: Whitelists) {
    function PolicyFor(c: CheckType): Policy {
      Policy(
        limits.For(c),
        map m | m in whitelists.metricChecks && c in whitelists.metricChecks[m] :: whitelists.metricChecks[m][c])
    }
  }

  /** What a scrape task says about its target group; the addresses are in the scrapes. */
  datatype Task = Task(targetGroup: string, env: string, cluster: string, job: string, teamName: string)

  // ---------------------------------------------------------------- scraped data

  datatype Label = Label(name: string, value: string)

  datatype Series = Series(labels: seq<Option<Label>>, buckets: Option<nat>)

  datatype Family = Family(name: string, series: seq<Option<Series>>)

  datatype Scrape = Unreachable | Scraped(families: seq<Option<Family>>, weight: nat)

  // The samples each check takes, in processing order.

  function LabelSamples(c: CheckType, metric: string, lab: Option<Label>): seq<Sample> {
    match lab
    case None => []
    case Some(l) =>
      if c == LabelNameLength then [Sample(ByLabel(metric, l.name), |l.name|)]
      else if c == LabelValueLength then [Sample(ByValue(metric, l.name, l.value), |l.value|)]
      else []
  }

  function LabelsSamples(c: CheckType, metric: string, labels: seq<Option<Label>>): seq<Sample> {
    if labels == [] then []
    else LabelsSamples(c, metric, labels[..|labels| - 1]) + LabelSamples(c, metric, labels[|labels| - 1])
  }

  function BucketSamples(c: CheckType, metric: string, s: Series): seq<Sample> {
    if c == HistogramBuckets && s.buckets.Some? then [Sample(ByMetric(metric), s.buckets.value)] else []
  }

  function SeriesSamples(c: CheckType, metric: string, series: Option<Series>): seq<Sample> {
    match series
    case None => []
    case Some(s) => LabelsSamples(c, metric, s.labels) + BucketSamples(c, metric, s)
  }

  function AllSeriesSamples(c: CheckType, metric: string, series: seq<Option<Series>>): seq<Sample> {
    if series == [] then []
    else AllSeriesSamples(c, metric, series[..|series| - 1]) + SeriesSamples(c, metric, series[|series| - 1])
  }

  function HeadSamples(c: CheckType, f: Family): seq<Sample> {
    if c == MetricNameLength then [Sample(ByMetric(f.name), |f.name|)]
    else if c == Cardinality then [Sample(ByMetric(f.name), |f.series|)]
    else []
  }

  function FamilySamples(c: CheckType, family: Option<Family>): seq<Sample> {
    match family
    case None => []
    case Some(f) => HeadSamples(c, f) + AllSeriesSamples(c, f.name, f.series)
  }

  function FamiliesSamples(c: CheckType, families: seq<Option<Family>>): seq<Sample> {
    if families == [] then []
    else FamiliesSamples(c, families[..|families| - 1]) + FamilySamples(c, families[|families| - 1])
  }

  function ScrapeSamples(c: CheckType, scrape: Scrape): seq<Sample> {
    if scrape.Scraped? then FamiliesSamples(c, scrape.families) else []
  }

  function SamplesOf(c: CheckType, scrapes: seq<Scrape>): seq<Sample> {
    if scrapes == [] then []
    else SamplesOf(c, scrapes[..|scrapes| - 1]) + ScrapeSamples(c, scrapes[|scrapes| - 1])
  }

  function MaxWeight(scrapes: seq<Scrape>): nat {
    if scrapes == [] then 0
    else
      var rest, last := MaxWeight(scrapes[..|scrapes| - 1]), scrapes[|scrapes| - 1];
      if last.Scraped? && last.weight > rest then last.weight else rest
  }

  function Reached(scrapes: seq<Scrape>): nat {
    if scrapes == [] then 0
    else Reached(scrapes[..|scrapes| - 1]) + if scrapes[|scrapes| - 1].Scraped? then 1 else 0
  }

  // ---------------------------------------------------------------- the specification of a report

  datatype CheckResult = CheckResult(
    checkType: CheckType, limit: int, current: int, violated: bool, whitelisted: bool)

  function TallyFor(cfg: Config, c: CheckType, scrapes: seq<Scrape>): Tally {
    if cfg.whitelists.IsCheckDisabled(c) then EMPTY else TallyOf(cfg.PolicyFor(c), SamplesOf(c, scrapes))
  }

  function TalliesOf(cfg: Config, scrapes: seq<Scrape>): map<CheckType, Tally> {
    map c | c in PER_METRIC :: TallyFor(cfg, c, scrapes)
  }

  function WeightOf(cfg: Config, scrapes: seq<Scrape>): nat {
    if cfg.whitelists.IsCheckDisabled(ResponseWeight) then 0 else MaxWeight(scrapes)
  }

  function ResultFor(cfg: Config, tallies: map<CheckType, Tally>, weight: int, c: CheckType): CheckResult
    requires c in PER_METRIC ==> c in tallies
  {
    var limit := cfg.limits.For(c);
    if c == ResponseWeight then CheckResult(c, limit, weight, weight > limit, false)
    else
      var t := tallies[c];
      CheckResult(c, limit, t.current, t.entries != [], t.entries != [] && AllWhitelisted(t.entries))
  }

  function ResultIfEnabled(cfg: Config, tallies: map<CheckType, Tally>, weight: int, c: CheckType): seq<CheckResult>
    requires c in PER_METRIC ==> c in tallies
  {
    if cfg.whitelists.IsCheckDisabled(c) then [] else [ResultFor(cfg, tallies, weight, c)]
  }

  /** The order in which `buildCheckResults` reports the checks. */
  const ORDER: seq<CheckType> :=
    [MetricNameLength, LabelNameLength, LabelValueLength, Cardinality, HistogramBuckets, ResponseWeight]

  function Results(cfg: Config, tallies: map<CheckType, Tally>, weight: int, order: seq<CheckType>): seq<CheckResult>
    requires tallies.Keys == PER_METRIC
  {
    if order == [] then []
    else Results(cfg, tallies, weight, order[..|order| - 1])
         + ResultIfEnabled(cfg, tallies, weight, order[|order| - 1])
  }

  function ChecksOf(cfg: Config, scrapes: seq<Scrape>): seq<CheckResult> {
    Results(cfg, TalliesOf(cfg, scrapes), WeightOf(cfg, scrapes), ORDER)
  }

  // ---------------------------------------------------------------- the code

  /** `metricCheckLimit`: the limit in force, whether it is a custom one, whether it is exceeded. */
  function MetricCheckLimit(cfg: Config, metric: string, c: CheckType, current: int): (r: (int, bool, bool))
    ensures r.0 == cfg.PolicyFor(c).LimitFor(metric)
    ensures r.1 <==> metric in cfg.PolicyFor(c).custom
    ensures r.2 <==> current > r.0
  {
    match cfg.whitelists.MetricCustomLimit(metric, c)
    case Some(custom) => (custom, true, current > custom)
    case None => (cfg.limits.For(c), false, current > cfg.limits.For(c))
  }

  lemma {:induction false} UpsertAt(entries: seq<Violation>, v: Violation, i: nat)
    requires i < |entries| && entries[i].key == v.key
    requires forall j :: 0 <= j < i ==> entries[j].key != v.key
    ensures Upsert(entries, v) == entries[i := Larger(entries[i], v)]
  {
    if i > 0 {
      UpsertAt(entries[1..], v, i - 1);
    }
  }

  lemma {:induction false} UpsertAbsent(entries: seq<Violation>, v: Violation)
    requires forall j :: 0 <= j < |entries| ==> entries[j].key != v.key
    ensures Upsert(entries, v) == entries + [v]
  {
    if entries != [] {
      UpsertAbsent(entries[1..], v);
    }
  }

  /** The status of a violation list: is anything listed, and is all of it whitelisted. */
  method WhitelistStatus(entries: seq<Violation>) returns (hasViolation: bool, allWhitelisted: bool)
    ensures hasViolation <==> entries != []
    ensures allWhitelisted <==> entries != [] && AllWhitelisted(entries)
  {
    if |entries| == 0 {
      return false, false;
    }
    for i := 0 to |entries|
      invariant forall j :: 0 <= j < i ==> entries[j].whitelisted
    {
      if !entries[i].whitelisted {
        assert entries[i] in entries;
        return true, false;
      }
    }
    return true, true;
  }

  /** Going from `before` to `after`, check `c` has taken exactly `samples`, if it is enabled. */
  ghost predicate Absorbed(
    cfg: Config, before: map<CheckType, Tally>, after: map<CheckType, Tally>, c: CheckType, samples: seq<Sample>)
  {
    && c in before && c in after
    && after[c] == if cfg.whitelists.IsCheckDisabled(c) then before[c] else ObserveAll(cfg.PolicyFor(c), before[c], samples)
  }

  lemma Chain(
    cfg: Config, s0: map<CheckType, Tally>, s1: map<CheckType, Tally>, s2: map<CheckType, Tally>,
    c: CheckType, a: seq<Sample>, b: seq<Sample>)
    requires Absorbed(cfg, s0, s1, c, a) && Absorbed(cfg, s1, s2, c, b)
    ensures Absorbed(cfg, s0, s2, c, a + b)
  {
    ObserveConcat(cfg.PolicyFor(c), s0[c], a, b);
  }

  function LimitOf(r: CheckResult): int {
    r.limit
  }

  function CurrentOf(r: CheckResult): int {
    r.current
  }

  /**
   The six-field form of the check results, one value per check: the last one listed for the
   check, zero for a check that is not listed.
   */
  ghost predicate Tabulates(checks: seq<CheckResult>, value: CheckResult -> int, t: map<CheckType, int>) {
    && (forall c :: c in t)
    && (forall c :: (forall i :: 0 <= i < |checks| ==> checks[i].checkType != c) ==> t[c] == 0)
    && (forall i :: 0 <= i < |checks| && (forall j :: i < j < |checks| ==> checks[j].checkType != checks[i].checkType) ==>
          t[checks[i].checkType] == value(checks[i]))
  }

  ghost predicate IsTable(checks: seq<CheckResult>, value: CheckResult -> int, r: Option<map<CheckType, int>>) {
    (r.None? <==> checks == []) && (r.Some? ==> Tabulates(checks, value, r.value))
  }

  /** `buildCheckLimits` and `buildCheckCurrent`, which differ in the field they copy. */
  method BuildTable(checks: seq<CheckResult>, value: CheckResult -> int) returns (r: Option<map<CheckType, int>>)
    ensures IsTable(checks, value, r)
  {
    if |checks| == 0 {
      return None;
    }
    var t: map<CheckType, int> := map c | c in PER_METRIC + {ResponseWeight} :: 0;
    forall c: CheckType ensures c in t && t[c] == 0 {
      match c {
        case ResponseWeight =>
        case _ => assert c in PER_METRIC;
      }
    }
    assert Tabulates(checks[..0], value, t);
    for i := 0 to |checks|
      invariant Tabulates(checks[..i], value, t)
    {
      TabulatesOneMore(checks, i, value, t);
      t := t[checks[i].checkType := value(checks[i])];
    }
    assert checks[..|checks|] == checks;
    return Some(t);
  }

  lemma TabulatesOneMore(checks: seq<CheckResult>, n: nat, value: CheckResult -> int, t: map<CheckType, int>)
    requires n < |checks| && Tabulates(checks[..n], value, t)
    ensures Tabulates(checks[..n + 1], value, t[checks[n].checkType := value(checks[n])])
  {
    var before, all, t' := checks[..n], checks[..n + 1], t[checks[n].checkType := value(checks[n])];
    assert forall i :: 0 <= i < n ==> all[i] == before[i];
    assert all[n] == checks[n];
    forall c | forall i :: 0 <= i < |all| ==> all[i].checkType != c ensures t'[c] == 0 {
      assert forall i :: 0 <= i < |before| ==> all[i].checkType != c && before[i].checkType != c;
    }
    forall i | 0 <= i < |all| && (forall j :: i < j < |all| ==> all[j].checkType != all[i].checkType)
      ensures t'[all[i].checkType] == value(all[i])
    {
      if i < n {
        assert all[n].checkType != all[i].checkType;
        assert forall j :: i < j < |before| ==> all[j].checkType != all[i].checkType && before[j] == all[j];
      }
    }
  }

  class Report {
    const task: Task
    var tallies: map<CheckType, Tally>
    var maxResponseWeight: int
    var responseWeight: int
    var checks: seq<CheckResult>
    var limits: Option<map<CheckType, int>>
    var current: Option<map<CheckType, int>>

    constructor (task: Task)
      ensures this.task == task && limits == None && current == None
      ensures tallies == map c | c in PER_METRIC :: EMPTY
      ensures maxResponseWeight == 0 && responseWeight == 0 && checks == []
    {
      this.task, limits, current := task, None, None;
      tallies := map c | c in PER_METRIC :: EMPTY;
      maxResponseWeight, responseWeight, checks := 0, 0, [];
    }

    /** `updateMax*` */
    method UpdateMax(c: CheckType, v: Violation)
      requires c in tallies
      modifies this`tallies
      ensures tallies == old(tallies)[c := old(tallies[c]).(max := RaiseMax(old(tallies[c]).max, v))]
    {
      if tallies[c].max.None? || v.size > tallies[c].max.value.size {
        tallies := tallies[c := tallies[c].(max := Some(v))];
      }
    }

    /** `add*Violation`: scan for the key, keep the larger entry or append. */
    method AddViolation(c: CheckType, v: Violation)
      requires c in tallies
      modifies this`tallies
      ensures tallies == old(tallies)[c := Add(old(tallies[c]), v)]
    {
      var entries := tallies[c].entries;
      for i := 0 to |entries|
        invariant tallies == old(tallies)
        invariant forall j :: 0 <= j < i ==> entries[j].key != v.key
      {
        if entries[i].key == v.key {
          UpsertAt(entries, v, i);
          if v.size > entries[i].size {
            tallies := tallies[c := tallies[c].(entries := entries[i := v])];
          }
          assert tallies[c].entries == Upsert(entries, v);
          UpdateMax(c, v);
          return;
        }
      }
      UpsertAbsent(entries, v);
      tallies := tallies[c := tallies[c].(entries := entries + [v])];
      UpdateMax(c, v);
    }

    /** The block each check repeats: raise the running maximum, then record a violation. */
    method Take(cfg: Config, c: CheckType, s: Sample)
      requires c in tallies
      modifies this`tallies
      ensures tallies.Keys == old(tallies.Keys)
      ensures Absorbed(cfg, old(tallies), tallies, c, [s])
      ensures forall d :: d in tallies && d != c ==> Absorbed(cfg, old(tallies), tallies, d, [])
    {
      ObserveOneMore(cfg.PolicyFor(c), tallies[c], [], s);
      assert [] + [s] == [s];
      if !cfg.whitelists.IsCheckDisabled(c) {
        if s.size > tallies[c].current {
          tallies := tallies[c := tallies[c].(current := s.size)];
        }
        var (_, whitelisted, violated) := MetricCheckLimit(cfg, s.key.metric, c, s.size);
        if violated {
          AddViolation(c, Violation(s.key, s.size, whitelisted));
        }
      }
    }

    method HandleLabel(cfg: Config, metric: string, lab: Option<Label>)
      requires tallies.Keys == PER_METRIC
      modifies this`tallies
      ensures tallies.Keys == PER_METRIC
      ensures forall c :: c in PER_METRIC ==> Absorbed(cfg, old(tallies), tallies, c, LabelSamples(c, metric, lab))
    {
      if lab.Some? {
        var l := lab.value;
        Take(cfg, LabelNameLength, Sample(ByLabel(metric, l.name), |l.name|));
        ghost var t1 := tallies;
        Take(cfg, LabelValueLength, Sample(ByValue(metric, l.name, l.value), |l.value|));
        LabelTaken(cfg, metric, lab, old(tallies), t1, tallies);
      }
    }

    method HandleLabels(cfg: Config, metric: string, labels: seq<Option<Label>>)
      requires tallies.Keys == PER_METRIC
      modifies this`tallies
      ensures tallies.Keys == PER_METRIC
      ensures forall c :: c in PER_METRIC ==>
        Absorbed(cfg, old(tallies), tallies, c, LabelsSamples(c, metric, labels))
    {
      ghost var t0 := tallies;
      for i := 0 to |labels|
        invariant tallies.Keys == PER_METRIC
        invariant forall c :: c in PER_METRIC ==>
          Absorbed(cfg, t0, tallies, c, LabelsSamples(c, metric, labels[..i]))
      {
        ghost var t1 := tallies;
        HandleLabel(cfg, metric, labels[i]);
        OneMoreLabel(cfg, metric, labels, i, t0, t1, tallies);
      }
      assert labels[..|labels|] == labels;
    }

    method HandleOneSeries(cfg: Config, metric: string, series: Option<Series>)
      requires tallies.Keys == PER_METRIC
      modifies this`tallies
      ensures tallies.Keys == PER_METRIC
      ensures forall c :: c in PER_METRIC ==> Absorbed(cfg, old(tallies), tallies, c, SeriesSamples(c, metric, series))
    {
      if series.Some? {
        var m := series.value;
        HandleLabels(cfg, metric, m.labels);
        ghost var t1 := tallies;
        if m.buckets.Some? {
          Take(cfg, HistogramBuckets, Sample(ByMetric(metric), m.buckets.value));
        }
        BucketsTaken(cfg, metric, m, old(tallies), t1, tallies);
      }
    }

    method HandleSeries(cfg: Config, metric: string, series: seq<Option<Series>>)
      requires tallies.Keys == PER_METRIC
      modifies this`tallies
      ensures tallies.Keys == PER_METRIC
      ensures forall c :: c in PER_METRIC ==>
        Absorbed(cfg, old(tallies), tallies, c, AllSeriesSamples(c, metric, series))
    {
      ghost var t0 := tallies;
      for i := 0 to |series|
        invariant tallies.Keys == PER_METRIC
        invariant forall c :: c in PER_METRIC ==>
          Absorbed(cfg, t0, tallies, c, AllSeriesSamples(c, metric, series[..i]))
      {
        ghost var t1 := tallies;
        HandleOneSeries(cfg, metric, series[i]);
        OneMoreSeries(cfg, metric, series, i, t0, t1, tallies);
      }
      assert series[..|series|] == series;
    }

    method HandleMetricFamily(cfg: Config, family: Option<Family>)
      requires tallies.Keys == PER_METRIC
      modifies this`tallies
      ensures tallies.Keys == PER_METRIC
      ensures forall c :: c in PER_METRIC ==>
        Absorbed(cfg, old(tallies), tallies, c, FamilySamples(c, family))
    {
      if family.None? {
        return;
      }
      var mf := family.value;
      ghost var t0 := tallies;
      Take(cfg, MetricNameLength, Sample(ByMetric(mf.name), |mf.name|));
      ghost var t1 := tallies;
      Take(cfg, Cardinality, Sample(ByMetric(mf.name), |mf.series|));
      ghost var t2 := tallies;
      HeadTaken(cfg, mf, t0, t1, t2);
      HandleSeries(cfg, mf.name, mf.series);
      forall c | c in PER_METRIC ensures Absorbed(cfg, t0, tallies, c, FamilySamples(c, family)) {
        Chain(cfg, t0, t2, tallies, c, HeadSamples(c, mf), AllSeriesSamples(c, mf.name, mf.series));
      }
    }

    method HandleFamilies(cfg: Config, families: seq<Option<Family>>)
      requires tallies.Keys == PER_METRIC
      modifies this`tallies
      ensures tallies.Keys == PER_METRIC
      ensures forall c :: c in PER_METRIC ==>
        Absorbed(cfg, old(tallies), tallies, c, FamiliesSamples(c, families))
    {
      ghost var t0 := tallies;
      for i := 0 to |families|
        invariant tallies.Keys == PER_METRIC
        invariant forall c :: c in PER_METRIC ==>
          Absorbed(cfg, t0, tallies, c, FamiliesSamples(c, families[..i]))
      {
        ghost var t1 := tallies;
        HandleMetricFamily(cfg, families[i]);
        OneMoreFamily(cfg, families, i, t0, t1, tallies);
      }
      assert families[..|families|] == families;
    }

    /** One turn of the loop over the addresses. */
    method HandleAddress(cfg: Config, scrape: Scrape) returns (reached: bool)
      requires tallies.Keys == PER_METRIC
      modifies this`tallies, this`maxResponseWeight, this`responseWeight
      ensures reached <==> scrape.Scraped?
      ensures tallies.Keys == PER_METRIC
      ensures forall c :: c in PER_METRIC ==>
        Absorbed(cfg, old(tallies), tallies, c, ScrapeSamples(c, scrape))
      ensures var counted := scrape.Scraped? && !cfg.whitelists.IsCheckDisabled(ResponseWeight);
        && maxResponseWeight ==
           (if counted && scrape.weight > old(maxResponseWeight) then scrape.weight else old(maxResponseWeight))
        && responseWeight ==
           (if counted && scrape.weight > cfg.limits.maxBytesWeight && scrape.weight > old(responseWeight)
            then scrape.weight else old(responseWeight))
    {
      if scrape.Unreachable? {
        return false;
      }
      HandleFamilies(cfg, scrape.families);
      if !cfg.whitelists.IsCheckDisabled(ResponseWeight) {
        var bytesWeight := scrape.weight;
        if bytesWeight > maxResponseWeight {
          maxResponseWeight := bytesWeight;
        }
        if cfg.limits.maxBytesWeight < bytesWeight && responseWeight < bytesWeight {
          responseWeight := bytesWeight;
        }
      }
      return true;
    }

    /** The loop over the addresses, on a new report. */
    method HandleAddresses(cfg: Config, scrapes: seq<Scrape>) returns (totalProcessed: nat)
      requires tallies == (map c | c in PER_METRIC :: EMPTY) && maxResponseWeight == responseWeight == 0
      modifies this`tallies, this`maxResponseWeight, this`responseWeight
      ensures totalProcessed == Reached(scrapes)
      ensures tallies == TalliesOf(cfg, scrapes)
      ensures WeightsOf(cfg, scrapes, maxResponseWeight, responseWeight)
    {
      totalProcessed := 0;
      ghost var t0 := tallies;
      for i := 0 to |scrapes|
        invariant tallies.Keys == PER_METRIC
        invariant forall c :: c in PER_METRIC ==> Absorbed(cfg, t0, tallies, c, SamplesOf(c, scrapes[..i]))
        invariant totalProcessed == Reached(scrapes[..i])
        invariant WeightsOf(cfg, scrapes[..i], maxResponseWeight, responseWeight)
      {
        ghost var t1, m, w := tallies, maxResponseWeight, responseWeight;
        var reached := HandleAddress(cfg, scrapes[i]);
        if reached {
          totalProcessed := totalProcessed + 1;
        }
        AddressTaken(cfg, t0, t1, tallies, scrapes, i);
        WeightTaken(cfg, scrapes, i, m, w, maxResponseWeight, responseWeight);
      }
      assert scrapes[..|scrapes|] == scrapes;
      AbsorbedAll(cfg, t0, tallies, scrapes);
    }

    /** `buildCheckResults` */
    method BuildCheckResults(cfg: Config) returns (results: seq<CheckResult>)
      requires tallies.Keys == PER_METRIC
      ensures results == Results(cfg, tallies, maxResponseWeight, ORDER)
    {
      results := [];
      for i := 0 to |ORDER|
        invariant results == Results(cfg, tallies, maxResponseWeight, ORDER[..i])
      {
        var c := ORDER[i];
        var limit := cfg.limits.For(c);
        if !cfg.whitelists.IsCheckDisabled(c) {
          if c == ResponseWeight {
            results := results + [CheckResult(c, limit, maxResponseWeight, maxResponseWeight > limit, false)];
          } else {
            var hasViolation, allWhitelisted := WhitelistStatus(tallies[c].entries);
            results := results
              + [CheckResult(c, limit, tallies[c].current, hasViolation, hasViolation && allWhitelisted)];
          }
        }
        assert ORDER[..i + 1][..i] == ORDER[..i];
      }
      assert ORDER[..|ORDER|] == ORDER;
    }

    /** The end of `Process`: the results, and the two tables made from them. */
    method Finish(cfg: Config)
      requires tallies.Keys == PER_METRIC
      modifies this`checks, this`limits, this`current
      ensures checks == Results(cfg, tallies, maxResponseWeight, ORDER)
      ensures IsTable(checks, LimitOf, limits) && IsTable(checks, CurrentOf, current)
    {
      checks := BuildCheckResults(cfg);
      limits := BuildTable(checks, LimitOf);
      current := BuildTable(checks, CurrentOf);
    }
  }

  // What the pairs of `Take` calls above amount to.

  lemma LabelTaken(
    cfg: Config, metric: string, lab: Option<Label>,
    t1: map<CheckType, Tally>, t2: map<CheckType, Tally>, t3: map<CheckType, Tally>)
    requires lab.Some? && t1.Keys == t2.Keys == t3.Keys == PER_METRIC
    requires Absorbed(cfg, t1, t2, LabelNameLength, [Sample(ByLabel(metric, lab.value.name), |lab.value.name|)])
    requires forall d :: d in t2 && d != LabelNameLength ==> Absorbed(cfg, t1, t2, d, [])
    requires Absorbed(cfg, t2, t3, LabelValueLength,
                      [Sample(ByValue(metric, lab.value.name, lab.value.value), |lab.value.value|)])
    requires forall d :: d in t3 && d != LabelValueLength ==> Absorbed(cfg, t2, t3, d, [])
    ensures forall c :: c in PER_METRIC ==> Absorbed(cfg, t1, t3, c, LabelSamples(c, metric, lab))
  {
  }

  lemma OneMoreLabel(
    cfg: Config, metric: string, labels: seq<Option<Label>>, i: nat,
    t0: map<CheckType, Tally>, t1: map<CheckType, Tally>, t2: map<CheckType, Tally>)
    requires i < |labels|
    requires forall c :: c in PER_METRIC ==> Absorbed(cfg, t0, t1, c, LabelsSamples(c, metric, labels[..i]))
    requires forall c :: c in PER_METRIC ==> Absorbed(cfg, t1, t2, c, LabelSamples(c, metric, labels[i]))
    ensures forall c :: c in PER_METRIC ==> Absorbed(cfg, t0, t2, c, LabelsSamples(c, metric, labels[..i + 1]))
  {
    assert labels[..i + 1][..i] == labels[..i];
    forall c | c in PER_METRIC ensures Absorbed(cfg, t0, t2, c, LabelsSamples(c, metric, labels[..i + 1])) {
      Chain(cfg, t0, t1, t2, c, LabelsSamples(c, metric, labels[..i]), LabelSamples(c, metric, labels[i]));
    }
  }

  lemma OneMoreSeries(
    cfg: Config, metric: string, series: seq<Option<Series>>, i: nat,
    t0: map<CheckType, Tally>, t1: map<CheckType, Tally>, t2: map<CheckType, Tally>)
    requires i < |series|
    requires forall c :: c in PER_METRIC ==> Absorbed(cfg, t0, t1, c, AllSeriesSamples(c, metric, series[..i]))
    requires forall c :: c in PER_METRIC ==> Absorbed(cfg, t1, t2, c, SeriesSamples(c, metric, series[i]))
    ensures forall c :: c in PER_METRIC ==> Absorbed(cfg, t0, t2, c, AllSeriesSamples(c, metric, series[..i + 1]))
  {
    assert series[..i + 1][..i] == series[..i];
    forall c | c in PER_METRIC ensures Absorbed(cfg, t0, t2, c, AllSeriesSamples(c, metric, series[..i + 1])) {
      Chain(cfg, t0, t1, t2, c, AllSeriesSamples(c, metric, series[..i]), SeriesSamples(c, metric, series[i]));
    }
  }

  lemma OneMoreFamily(
    cfg: Config, families: seq<Option<Family>>, i: nat,
    t0: map<CheckType, Tally>, t1: map<CheckType, Tally>, t2: map<CheckType, Tally>)
    requires i < |families|
    requires forall c :: c in PER_METRIC ==> Absorbed(cfg, t0, t1, c, FamiliesSamples(c, families[..i]))
    requires forall c :: c in PER_METRIC ==> Absorbed(cfg, t1, t2, c, FamilySamples(c, families[i]))
    ensures forall c :: c in PER_METRIC ==> Absorbed(cfg, t0, t2, c, FamiliesSamples(c, families[..i + 1]))
  {
    assert families[..i + 1][..i] == families[..i];
    forall c | c in PER_METRIC ensures Absorbed(cfg, t0, t2, c, FamiliesSamples(c, families[..i + 1])) {
      Chain(cfg, t0, t1, t2, c, FamiliesSamples(c, families[..i]), FamilySamples(c, families[i]));
    }
  }

  lemma BucketsTaken(
    cfg: Config, metric: string, m: Series,
    t1: map<CheckType, Tally>, t2: map<CheckType, Tally>, t3: map<CheckType, Tally>)
    requires t1.Keys == t2.Keys == t3.Keys == PER_METRIC
    requires forall c :: c in PER_METRIC ==> Absorbed(cfg, t1, t2, c, LabelsSamples(c, metric, m.labels))
    requires m.buckets.None? ==> t3 == t2
    requires m.buckets.Some? ==>
      && Absorbed(cfg, t2, t3, HistogramBuckets, [Sample(ByMetric(metric), m.buckets.value)])
      && forall d :: d in t3 && d != HistogramBuckets ==> Absorbed(cfg, t2, t3, d, [])
    ensures forall c :: c in PER_METRIC ==> Absorbed(cfg, t1, t3, c, SeriesSamples(c, metric, Some(m)))
  {
    forall c | c in PER_METRIC ensures Absorbed(cfg, t1, t3, c, SeriesSamples(c, metric, Some(m))) {
      assert Absorbed(cfg, t2, t3, c, BucketSamples(c, metric, m));
      Chain(cfg, t1, t2, t3, c, LabelsSamples(c, metric, m.labels), BucketSamples(c, metric, m));
    }
  }

  lemma HeadTaken(
    cfg: Config, f: Family, t0: map<CheckType, Tally>, t1: map<CheckType, Tally>, t2: map<CheckType, Tally>)
    requires t0.Keys == t1.Keys == t2.Keys == PER_METRIC
    requires Absorbed(cfg, t0, t1, MetricNameLength, [Sample(ByMetric(f.name), |f.name|)])
    requires forall d :: d in t1 && d != MetricNameLength ==> Absorbed(cfg, t0, t1, d, [])
    requires Absorbed(cfg, t1, t2, Cardinality, [Sample(ByMetric(f.name), |f.series|)])
    requires forall d :: d in t2 && d != Cardinality ==> Absorbed(cfg, t1, t2, d, [])
    ensures forall c :: c in PER_METRIC ==> Absorbed(cfg, t0, t2, c, HeadSamples(c, f))
  {
  }

  datatype Outcome = Failed | Processed(report: Report, targetGroup: Task)

  /**
   `Process`: fails exactly when no address could be scraped, and otherwise returns the
   report the specification describes.
   */
  method Process(
    task: Task, defaultLimits: Limits, loadedLimits: Option<Limits>, loadedWhitelists: Option<Whitelists>,
    scrapes: seq<Scrape>)
    returns (r: Outcome)
    ensures r.Failed? <==> forall s :: s in scrapes ==> s.Unreachable?
    ensures r.Processed? ==>
      var cfg := Config(
        if loadedLimits.Some? then loadedLimits.value else defaultLimits,
        if loadedWhitelists.Some? then loadedWhitelists.value else Whitelists(map[], {}));
      && fresh(r.report) && r.report.task == task && r.targetGroup == task
      && r.report.tallies == TalliesOf(cfg, scrapes)
      && r.report.checks == ChecksOf(cfg, scrapes)
      && r.report.maxResponseWeight == WeightOf(cfg, scrapes)
      && r.report.responseWeight ==
         (if WeightOf(cfg, scrapes) > cfg.limits.maxBytesWeight then WeightOf(cfg, scrapes) else 0)
      && IsTable(r.report.checks, LimitOf, r.report.limits) && IsTable(r.report.checks, CurrentOf, r.report.current)
  {
    var whitelists, limits := Whitelists(map[], {}), defaultLimits;
    if loadedLimits.Some? {
      limits := loadedLimits.value;
    }
    if loadedWhitelists.Some? {
      whitelists := loadedWhitelists.value;
    }
    var cfg := Config(limits, whitelists);
    var report := new Report(task);
    var totalProcessed := report.HandleAddresses(cfg, scrapes);
    ReachedNone(scrapes);
    if totalProcessed == 0 {
      return Failed;
    }
    report.Finish(cfg);
    return Processed(report, task);
  }

  /** The running maximum, and the weight shown in the details, which is one above the limit. */
  ghost predicate WeightsOf(cfg: Config, scrapes: seq<Scrape>, max: int, shown: int) {
    && max == WeightOf(cfg, scrapes)
    && shown == if max > cfg.limits.maxBytesWeight then max else 0
  }

  lemma WeightTaken(cfg: Config, scrapes: seq<Scrape>, i: nat, m: int, w: int, m': int, w': int)
    requires i < |scrapes| && WeightsOf(cfg, scrapes[..i], m, w)
    requires var counted := scrapes[i].Scraped? && !cfg.whitelists.IsCheckDisabled(ResponseWeight);
      && m' == (if counted && scrapes[i].weight > m then scrapes[i].weight else m)
      && w' == (if counted && scrapes[i].weight > cfg.limits.maxBytesWeight && scrapes[i].weight > w
                then scrapes[i].weight else w)
    ensures WeightsOf(cfg, scrapes[..i + 1], m', w')
  {
    assert scrapes[..i + 1][..i] == scrapes[..i];
  }

  lemma AddressTaken(
    cfg: Config, t0: map<CheckType, Tally>, t1: map<CheckType, Tally>, t2: map<CheckType, Tally>,
    scrapes: seq<Scrape>, i: nat)
    requires i < |scrapes|
    requires forall c :: c in PER_METRIC ==> Absorbed(cfg, t0, t1, c, SamplesOf(c, scrapes[..i]))
    requires forall c :: c in PER_METRIC ==> Absorbed(cfg, t1, t2, c, ScrapeSamples(c, scrapes[i]))
    ensures scrapes[..i + 1][..i] == scrapes[..i]
    ensures forall c :: c in PER_METRIC ==> Absorbed(cfg, t0, t2, c, SamplesOf(c, scrapes[..i + 1]))
  {
    assert scrapes[..i + 1][..i] == scrapes[..i];
    forall c | c in PER_METRIC ensures Absorbed(cfg, t0, t2, c, SamplesOf(c, scrapes[..i + 1])) {
      Chain(cfg, t0, t1, t2, c, SamplesOf(c, scrapes[..i]), ScrapeSamples(c, scrapes[i]));
    }
  }

  lemma AbsorbedAll(cfg: Config, t0: map<CheckType, Tally>, t: map<CheckType, Tally>, scrapes: seq<Scrape>)
    requires t.Keys == PER_METRIC && t0 == map c | c in PER_METRIC :: EMPTY
    requires forall c :: c in PER_METRIC ==> Absorbed(cfg, t0, t, c, SamplesOf(c, scrapes))
    ensures t == TalliesOf(cfg, scrapes)
  {
    forall c | c in PER_METRIC ensures t[c] == TallyFor(cfg, c, scrapes) {
      assert Absorbed(cfg, t0, t, c, SamplesOf(c, scrapes));
    }
  }

  lemma {:induction false} ReachedNone(scrapes: seq<Scrape>)
    ensures Reached(scrapes) == 0 <==> forall s :: s in scrapes ==> s.Unreachable?
  {
    if scrapes != [] {
      var front, last := scrapes[..|scrapes| - 1], scrapes[|scrapes| - 1];
      ReachedNone(front);
      assert last in scrapes && forall s :: s in scrapes <==> s in front || s == last;
    }
  }
}
