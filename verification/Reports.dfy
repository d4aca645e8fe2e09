/**
 Saving reports together with their violation facts (internal/storage/postgres/reports.go).

 One call is one transaction: it upserts every report and inserts its outbox events, and
 either all of it is committed or nothing is. JSON and protobuf encoding are taken as
 faithful, so an event is represented by the fact it encodes.
 */
module Reports {
  import opened Violations
  import opened Processor
  import opened ReportLaws

  datatype Key = Key(targetGroup: string, env: string, cluster: string)

  datatype ReportRow = ReportRow(key: Key, teamName: string, checks: seq<CheckResult>)

  datatype Stored = Stored(report: ReportRow, createdAt: int)

  datatype Fact = Fact(
    key: Key, teamName: string, violationType: CheckType, limit: int, currentValue: int, checkedAt: int)

  // ---------------------------------------------------------------- facts of one report

  function ToFact(report: ReportRow, check: CheckResult, at: int): Fact {
    Fact(report.key, report.teamName, check.checkType, check.limit, check.current, at)
  }

  function FactsFor(report: ReportRow, checks: seq<CheckResult>, at: int): seq<Fact> {
    if checks == [] then []
    else
      var last := checks[|checks| - 1];
      FactsFor(report, checks[..|checks| - 1], at) + if IsFact(last) then [ToFact(report, last, at)] else []
  }

  function FactsOf(report: ReportRow, at: int): seq<Fact> {
    FactsFor(report, report.checks, at)
  }

  /** None of the steps of a call from the `from`-th on, up to but not including the `to`-th, fails. */
  ghost predicate Passes(fails: nat -> bool, from: nat, to: nat) {
    forall n :: from <= n < to ==> !fails(n)
  }

  /** `buildViolationOutboxEvents`: encoding an event is a step that may fail. */
  method BuildEvents(report: ReportRow, createdAt: int, fails: nat -> bool, from: nat)
    returns (ok: bool, events: seq<Fact>)
    ensures ok <==> Passes(fails, from, from + |FactsOf(report, createdAt)|)
    ensures ok ==> events == FactsOf(report, createdAt)
  {
    events := [];
    var checks := report.checks;
    for i := 0 to |checks|
      invariant events == FactsFor(report, checks[..i], createdAt)
      invariant Passes(fails, from, from + |events|)
    {
      FactsGrow(report, checks, i + 1, createdAt);
      if !checks[i].violated || checks[i].whitelisted {
        continue;
      }
      if fails(from + |events|) {
        return false, [];
      }
      events := events + [ToFact(report, checks[i], createdAt)];
    }
    assert checks[..|checks|] == checks;
    return true, events;
  }

  lemma {:induction false} FactsGrow(report: ReportRow, checks: seq<CheckResult>, i: nat, at: int)
    requires 0 < i <= |checks|
    ensures FactsFor(report, checks[..i], at)
         == FactsFor(report, checks[..i - 1], at) + if IsFact(checks[i - 1]) then [ToFact(report, checks[i - 1], at)] else []
    ensures |FactsFor(report, checks[..i], at)| <= |FactsFor(report, checks, at)|
    decreases |checks| - i
  {
    assert checks[..i][..i - 1] == checks[..i - 1];
    if i == |checks| {
      assert checks[..i] == checks;
    } else {
      FactsGrow(report, checks, i + 1, at);
    }
  }

  /** `at[i]` is the position of the check behind fact `i`: increasing, and complete. */
  ghost predicate Matches(report: ReportRow, checks: seq<CheckResult>, facts: seq<Fact>, time: int, at: seq<int>) {
    && |at| == |facts|
    && (forall i :: 0 <= i < |at| ==> 0 <= at[i] < |checks| && IsFact(checks[at[i]]) && facts[i] == ToFact(report, checks[at[i]], time))
    && (forall i, j :: 0 <= i < j < |at| ==> at[i] < at[j])
    && (forall k :: 0 <= k < |checks| && IsFact(checks[k]) ==> k in at)
  }

  /** Facts correspond one-to-one, in order, with the violated checks that are not whitelisted. */
  lemma {:induction false} FactsMatchChecks(report: ReportRow, checks: seq<CheckResult>, time: int) returns (at: seq<int>)
    ensures Matches(report, checks, FactsFor(report, checks, time), time, at)
  {
    if checks == [] {
      at := [];
    } else {
      var n := |checks| - 1;
      var before := FactsMatchChecks(report, checks[..n], time);
      if IsFact(checks[n]) {
        at := before + [n];
        forall k | 0 <= k < |checks| && IsFact(checks[k]) ensures k in at {
          assert k < n ==> IsFact(checks[..n][k]) && k in before;
          assert at[|before|] == n;
        }
      } else {
        at := before;
        forall k | 0 <= k < |checks| && IsFact(checks[k]) ensures k in at {
          assert IsFact(checks[..n][k]);
        }
      }
    }
  }

  lemma FactExistsIff(report: ReportRow, time: int, c: CheckType)
    ensures (exists f :: f in FactsOf(report, time) && f.violationType == c) <==> FactFor(report.checks, c)
  {
    if f :| f in FactsOf(report, time) && f.violationType == c {
      var r := FactOrigin(report, time, f);
    }
    if r :| r in report.checks && r.checkType == c && IsFact(r) {
      FactFollows(report, time, r);
    }
  }

  lemma FactFollows(report: ReportRow, time: int, r: CheckResult)
    requires r in report.checks && IsFact(r)
    ensures ToFact(report, r, time) in FactsOf(report, time)
  {
    var facts := FactsOf(report, time);
    var at := FactsMatchChecks(report, report.checks, time);
    var k :| 0 <= k < |report.checks| && report.checks[k] == r;
    var i :| 0 <= i < |at| && at[i] == k;
    assert facts[i] == ToFact(report, r, time);
  }

  /**
   End to end, from raw samples to the outbox: saving the report of a scrape enqueues a fact
   for a per-metric check exactly when the check is enabled and some observed sample of a
   metric without a custom limit exceeds the global limit.
   */
  lemma OutboxFactIff(cfg: Config, scrapes: seq<Scrape>, report: ReportRow, time: int, c: CheckType)
    requires report.checks == ChecksOf(cfg, scrapes) && c in PER_METRIC
    ensures (exists f :: f in FactsOf(report, time) && f.violationType == c) <==>
      && !cfg.whitelists.IsCheckDisabled(c)
      && exists s ::
           && Observed(c, scrapes, s)
           && cfg.whitelists.MetricCustomLimit(s.key.metric, c).None?
           && s.size > cfg.limits.For(c)
  {
    FactExistsIff(report, time, c);
    MetricFactIff(cfg, scrapes, c);
  }

  /** The same for the response weight: the check is enabled and some response is heavier than the limit. */
  lemma OutboxWeightFactIff(cfg: Config, scrapes: seq<Scrape>, report: ReportRow, time: int)
    requires report.checks == ChecksOf(cfg, scrapes) && exists x :: x in scrapes && x.Scraped?
    ensures (exists f :: f in FactsOf(report, time) && f.violationType == ResponseWeight) <==>
      && !cfg.whitelists.IsCheckDisabled(ResponseWeight)
      && exists x :: x in scrapes && x.Scraped? && x.weight > cfg.limits.maxBytesWeight
  {
    FactExistsIff(report, time, ResponseWeight);
    WeightFactIff(cfg, scrapes);
  }

  /** `value` is the largest thing a check measured in the successful scrapes. */
  ghost predicate IsLargest(c: CheckType, scrapes: seq<Scrape>, value: int) {
    if c == ResponseWeight then
      && (forall x :: x in scrapes && x.Scraped? ==> x.weight <= value)
      && (value > 0 ==> exists x :: x in scrapes && x.Scraped? && x.weight == value)
    else
      && (forall s :: Observed(c, scrapes, s) ==> s.size <= value)
      && (value > 0 ==> exists s :: Observed(c, scrapes, s) && s.size == value)
  }

  /**
   What a fact says: the global limit of its check, and a current value above it that is the
   largest one measured.
   */
  lemma FactContent(cfg: Config, scrapes: seq<Scrape>, report: ReportRow, time: int, f: Fact)
    requires report.checks == ChecksOf(cfg, scrapes) && f in FactsOf(report, time)
    ensures f.key == report.key && f.teamName == report.teamName && f.checkedAt == time
    ensures f.currentValue > f.limit
    ensures f.limit ==
       (match f.violationType
       case MetricNameLength => cfg.limits.maxMetricNameLen
       case LabelNameLength => cfg.limits.maxLabelNameLen
       case LabelValueLength => cfg.limits.maxLabelValueLen
       case Cardinality => cfg.limits.maxMetricCardinality
       case HistogramBuckets => cfg.limits.maxHistogramBuckets
       case ResponseWeight => cfg.limits.maxBytesWeight)
    ensures IsLargest(f.violationType, scrapes, f.currentValue)
  {
    var r := FactOrigin(report, time, f);
    ResultContent(cfg, scrapes, r);
  }

  lemma ResultContent(cfg: Config, scrapes: seq<Scrape>, r: CheckResult)
    requires r in ChecksOf(cfg, scrapes) && IsFact(r)
    ensures r.limit == cfg.limits.For(r.checkType) && r.current > r.limit
    ensures IsLargest(r.checkType, scrapes, r.current)
  {
    ResultsByType(cfg, TalliesOf(cfg, scrapes), WeightOf(cfg, scrapes), ORDER, r);
    if r.checkType == ResponseWeight {
      MaxWeightIsLargest(scrapes);
    } else {
      CurrentOfResult(cfg, scrapes, r.checkType);
      FactAboveLimit(cfg, scrapes, r.checkType);
    }
  }

  lemma FactOrigin(report: ReportRow, time: int, f: Fact) returns (r: CheckResult)
    requires f in FactsOf(report, time)
    ensures r in report.checks && IsFact(r) && f == ToFact(report, r, time)
  {
    var at := FactsMatchChecks(report, report.checks, time);
    var i :| 0 <= i < |FactsOf(report, time)| && FactsOf(report, time)[i] == f;
    r := report.checks[at[i]];
  }

  lemma FactAboveLimit(cfg: Config, scrapes: seq<Scrape>, c: CheckType)
    requires c in PER_METRIC && FactFor(ChecksOf(cfg, scrapes), c)
    ensures !cfg.whitelists.IsCheckDisabled(c) && TalliesOf(cfg, scrapes)[c].current > cfg.limits.For(c)
  {
    MetricFactIff(cfg, scrapes, c);
    CurrentOfResult(cfg, scrapes, c);
  }

  lemma CurrentOfResult(cfg: Config, scrapes: seq<Scrape>, c: CheckType)
    requires c in PER_METRIC && !cfg.whitelists.IsCheckDisabled(c)
    ensures IsLargest(c, scrapes, TalliesOf(cfg, scrapes)[c].current)
  {
    var samples := SamplesOf(c, scrapes);
    TallySummarises(cfg.PolicyFor(c), samples);
    forall s ensures s in samples <==> Observed(c, scrapes, s) {
      SamplesAreObserved(c, scrapes, s);
    }
  }

  // ---------------------------------------------------------------- the transaction

  function SaveOne(table: map<Key, Stored>, report: ReportRow, at: int): map<Key, Stored> {
    table[report.key := Stored(report, at)]
  }

  function SaveAll(table: map<Key, Stored>, batch: seq<ReportRow>, at: int): map<Key, Stored> {
    if batch == [] then table
    else SaveOne(SaveAll(table, batch[..|batch| - 1], at), batch[|batch| - 1], at)
  }

  function AllFacts(batch: seq<ReportRow>, at: int): seq<Fact> {
    if batch == [] then []
    else AllFacts(batch[..|batch| - 1], at) + FactsOf(batch[|batch| - 1], at)
  }

  /**
   The steps of a call before its commit: a connection and a transaction; for each report its
   encoding and its upsert; for each fact its encoding and its insert.
   */
  function Steps(batch: seq<ReportRow>, at: int): nat {
    2 + 2 * |batch| + 2 * |AllFacts(batch, at)|
  }

  function StepsOf(report: ReportRow, at: int): nat {
    2 + 2 * |FactsOf(report, at)|
  }

  /** What becomes of a commit: it may be applied and still be reported as failed. */
  datatype Commit = Acknowledged | AppliedSilently | Refused

  /** The call takes effect: every step passes and the commit is applied. */
  ghost predicate GoesThrough(batch: seq<ReportRow>, at: int, fails: nat -> bool, commit: Commit) {
    batch == [] || (Passes(fails, 0, Steps(batch, at)) && !commit.Refused?)
  }

  class ReportStore {
    var reports: map<Key, Stored>
    var outbox: seq<Fact>

    constructor ()
      ensures reports == map[] && outbox == []
    {
      reports, outbox := map[], [];
    }

    /**
     `SaveReports`. `fails(n)` says whether the n-th step fails. A failure anywhere before the
     commit leaves both tables as they were, and so does a commit that is not applied.
     */
    method SaveReports(batch: seq<ReportRow>, createdAt: int, fails: nat -> bool, commit: Commit)
      returns (ok: bool, committed: bool)
      modifies this
      ensures ok <==> batch == [] || (Passes(fails, 0, Steps(batch, createdAt)) && commit.Acknowledged?)
      ensures committed <==> GoesThrough(batch, createdAt, fails, commit)
      ensures committed ==>
        && reports == SaveAll(old(reports), batch, createdAt)
        && outbox == old(outbox) + AllFacts(batch, createdAt)
      ensures !committed ==> reports == old(reports) && outbox == old(outbox)
    {
      if |batch| == 0 {
        assert outbox + AllFacts(batch, createdAt) == outbox;
        return true, true;
      }
      if fails(0) || fails(1) {
        return false, false;
      }
      var txReports, txOutbox, done := reports, outbox, 2;
      for i := 0 to |batch|
        invariant reports == old(reports) && outbox == old(outbox)
        invariant txReports == SaveAll(old(reports), batch[..i], createdAt)
        invariant txOutbox == old(outbox) + AllFacts(batch[..i], createdAt)
        invariant done == Steps(batch[..i], createdAt) && Passes(fails, 0, done)
      {
        StepsGrow(batch, i + 1, createdAt);
        var written, next;
        written, next, txReports, txOutbox := WriteReport(txReports, txOutbox, batch[i], createdAt, fails, done);
        if !written {
          FailsBefore(fails, done, done + StepsOf(batch[i], createdAt), Steps(batch, createdAt));
          return false, false;
        }
        assert batch[..i + 1][..i] == batch[..i];
        PassesOn(fails, done, next);
        done := next;
      }
      assert batch[..|batch|] == batch;
      if commit.Refused? {
        return false, false;
      }
      reports, outbox := txReports, txOutbox;
      return commit.Acknowledged?, true;
    }
  }

  /** The body of the loop: one report's encoding and upsert, then its events. */
  method WriteReport(
    reports: map<Key, Stored>, outbox: seq<Fact>, report: ReportRow, createdAt: int, fails: nat -> bool, from: nat)
    returns (ok: bool, next: nat, reports': map<Key, Stored>, outbox': seq<Fact>)
    ensures ok <==> Passes(fails, from, from + StepsOf(report, createdAt))
    ensures ok ==> next == from + StepsOf(report, createdAt)
    ensures ok ==> reports' == SaveOne(reports, report, createdAt) && outbox' == outbox + FactsOf(report, createdAt)
  {
    if fails(from) || fails(from + 1) {
      return false, from, reports, outbox;
    }
    reports' := SaveOne(reports, report, createdAt);
    var events;
    ok, events := BuildEvents(report, createdAt, fails, from + 2);
    if !ok {
      return false, from, reports, outbox;
    }
    ok, outbox' := EnqueueAll(outbox, events, fails, from + 2 + |events|);
    next := from + 2 + 2 * |events|;
  }

  /** `enqueueOutboxEvents` inside the transaction. */
  method EnqueueAll(outbox: seq<Fact>, events: seq<Fact>, fails: nat -> bool, from: nat)
    returns (ok: bool, outbox': seq<Fact>)
    ensures ok <==> Passes(fails, from, from + |events|)
    ensures ok ==> outbox' == outbox + events
  {
    outbox' := outbox;
    for j := 0 to |events|
      invariant outbox' == outbox + events[..j] && Passes(fails, from, from + j)
    {
      if fails(from + j) {
        return false, outbox';
      }
      outbox' := outbox' + [events[j]];
    }
    assert events[..|events|] == events;
    return true, outbox';
  }

  lemma PassesOn(fails: nat -> bool, from: nat, to: nat)
    requires Passes(fails, 0, from) && Passes(fails, from, to)
    ensures Passes(fails, 0, to)
  {
  }

  lemma FailsBefore(fails: nat -> bool, from: nat, to: nat, end: nat)
    requires !Passes(fails, from, to) && to <= end
    ensures !Passes(fails, 0, end)
  {
  }

  lemma {:induction false} StepsGrow(batch: seq<ReportRow>, i: nat, at: int)
    requires 0 < i <= |batch|
    ensures Steps(batch[..i], at) == Steps(batch[..i - 1], at) + StepsOf(batch[i - 1], at)
    ensures Steps(batch[..i], at) <= Steps(batch, at)
    decreases |batch| - i
  {
    assert batch[..i][..i - 1] == batch[..i - 1];
    if i == |batch| {
      assert batch[..i] == batch;
    } else {
      StepsGrow(batch, i + 1, at);
    }
  }

  // ---------------------------------------------------------------- histories

  /** One call and whether it was committed. */
  datatype Call = Call(batch: seq<ReportRow>, at: int, committed: bool)

  ghost function CallFor(batch: seq<ReportRow>, at: int, fails: nat -> bool, commit: Commit): Call {
    Call(batch, at, GoesThrough(batch, at, fails, commit))
  }

  /** The reports of the committed calls, in order, with their times. */
  function Committed(calls: seq<Call>): seq<Stored> {
    if calls == [] then []
    else
      var last := calls[|calls| - 1];
      Committed(calls[..|calls| - 1]) + if last.committed then Stamped(last.batch, last.at) else []
  }

  function Stamped(batch: seq<ReportRow>, at: int): seq<Stored> {
    seq(|batch|, i requires 0 <= i < |batch| => Stored(batch[i], at))
  }

  function FactsOfStored(saved: seq<Stored>): seq<Fact> {
    if saved == [] then []
    else FactsOfStored(saved[..|saved| - 1]) + FactsOf(saved[|saved| - 1].report, saved[|saved| - 1].createdAt)
  }

  /** `table` holds, for every key ever saved and no other, the last report saved under it. */
  ghost predicate LastPerKey(saved: seq<Stored>, table: map<Key, Stored>) {
    && (forall i :: 0 <= i < |saved| ==> saved[i].report.key in table)
    && (forall k :: k in table ==> exists i ::
          && 0 <= i < |saved| && saved[i] == table[k] && saved[i].report.key == k
          && forall j :: i < j < |saved| ==> saved[j].report.key != k)
  }

  lemma LastPerKeySnoc(saved: seq<Stored>, table: map<Key, Stored>, s: Stored)
    requires LastPerKey(saved, table)
    ensures LastPerKey(saved + [s], table[s.report.key := s])
  {
    var saved', table' := saved + [s], table[s.report.key := s];
    forall k | k in table' ensures exists i ::
      && 0 <= i < |saved'| && saved'[i] == table'[k] && saved'[i].report.key == k
      && forall j :: i < j < |saved'| ==> saved'[j].report.key != k
    {
      if k == s.report.key {
        assert saved'[|saved|] == table'[k];
      } else {
        var i :| 0 <= i < |saved| && saved[i] == table[k] && saved[i].report.key == k
                 && forall j :: i < j < |saved| ==> saved[j].report.key != k;
        assert saved'[i] == table'[k];
      }
    }
  }

  lemma StampedSnoc(saved: seq<Stored>, batch: seq<ReportRow>, at: int)
    requires batch != []
    ensures saved + Stamped(batch, at)
         == (saved + Stamped(batch[..|batch| - 1], at)) + [Stored(batch[|batch| - 1], at)]
  {
  }

  lemma StoredFactsSnoc(saved: seq<Stored>, s: Stored)
    ensures FactsOfStored(saved + [s]) == FactsOfStored(saved) + FactsOf(s.report, s.createdAt)
  {
    assert (saved + [s])[..|saved|] == saved;
  }

  lemma {:induction false} BatchIsLast(saved: seq<Stored>, table: map<Key, Stored>, batch: seq<ReportRow>, at: int)
    requires LastPerKey(saved, table)
    ensures LastPerKey(saved + Stamped(batch, at), SaveAll(table, batch, at))
  {
    if batch == [] {
      assert saved + Stamped(batch, at) == saved;
    } else {
      var n := |batch| - 1;
      BatchIsLast(saved, table, batch[..n], at);
      StampedSnoc(saved, batch, at);
      LastPerKeySnoc(saved + Stamped(batch[..n], at), SaveAll(table, batch[..n], at), Stored(batch[n], at));
    }
  }

  lemma {:induction false} BatchFacts(saved: seq<Stored>, batch: seq<ReportRow>, at: int)
    ensures FactsOfStored(saved + Stamped(batch, at)) == FactsOfStored(saved) + AllFacts(batch, at)
  {
    if batch == [] {
      assert saved + Stamped(batch, at) == saved;
    } else {
      var n := |batch| - 1;
      BatchFacts(saved, batch[..n], at);
      StampedSnoc(saved, batch, at);
      StoredFactsSnoc(saved + Stamped(batch[..n], at), Stored(batch[n], at));
      Associative(FactsOfStored(saved), AllFacts(batch[..n], at), FactsOf(batch[n], at));
    }
  }

  /** The two tables are what the committed calls made them. */
  ghost predicate TablesFit(calls: seq<Call>, reports: map<Key, Stored>, outbox: seq<Fact>) {
    outbox == FactsOfStored(Committed(calls)) && LastPerKey(Committed(calls), reports)
  }

  lemma CommittedSnoc(calls: seq<Call>, call: Call)
    ensures Committed(calls + [call]) == if call.committed then Committed(calls) + Stamped(call.batch, call.at) else Committed(calls)
  {
    assert (calls + [call])[..|calls|] == calls;
  }

  lemma CallFits(calls: seq<Call>, call: Call, reports: map<Key, Stored>, outbox: seq<Fact>)
    requires TablesFit(calls, reports, outbox)
    ensures call.committed ==>
      TablesFit(calls + [call], SaveAll(reports, call.batch, call.at), outbox + AllFacts(call.batch, call.at))
    ensures !call.committed ==> TablesFit(calls + [call], reports, outbox)
  {
    CommittedSnoc(calls, call);
    if call.committed {
      BatchIsLast(Committed(calls), reports, call.batch, call.at);
      BatchFacts(Committed(calls), call.batch, call.at);
    }
  }

  /**
   Over any history of calls with failures: the outbox rows ever inserted are exactly the
   facts of the committed reports, in commit order, and the reports table holds the last
   committed report per key.
   */
  method Replay(batches: seq<seq<ReportRow>>, times: seq<int>, faults: seq<nat -> bool>, commits: seq<Commit>)
    returns (store: ReportStore, calls: seq<Call>)
    requires |batches| == |times| == |faults| == |commits|
    ensures Recorded(calls, batches, times, faults, commits) && |calls| == |batches|
    ensures TablesFit(calls, store.reports, store.outbox)
  {
    store := new ReportStore();
    calls := [];
    for i := 0 to |batches|
      invariant |calls| == i && Recorded(calls, batches, times, faults, commits)
      invariant TablesFit(calls, store.reports, store.outbox)
    {
      ghost var reports, outbox := store.reports, store.outbox;
      var _, committed := store.SaveReports(batches[i], times[i], faults[i], commits[i]);
      var call := Call(batches[i], times[i], committed);
      CallFits(calls, call, reports, outbox);
      RecordedSnoc(calls, call, batches, times, faults, commits);
      calls := calls + [call];
    }
  }

  /** Each call recorded is the one made, and is marked committed exactly when it went through. */
  ghost predicate Recorded(
    calls: seq<Call>, batches: seq<seq<ReportRow>>, times: seq<int>, faults: seq<nat -> bool>, commits: seq<Commit>) {
    && |calls| <= |batches| == |times| == |faults| == |commits|
    && forall i :: 0 <= i < |calls| ==> calls[i] == CallFor(batches[i], times[i], faults[i], commits[i])
  }

  lemma RecordedSnoc(
    calls: seq<Call>, call: Call, batches: seq<seq<ReportRow>>, times: seq<int>, faults: seq<nat -> bool>, commits: seq<Commit>)
    requires Recorded(calls, batches, times, faults, commits) && |calls| < |batches|
    requires var i := |calls|; call == CallFor(batches[i], times[i], faults[i], commits[i])
    ensures Recorded(calls + [call], batches, times, faults, commits)
  {
  }
}
