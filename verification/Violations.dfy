/**
 The violation lists of a report (internal/scraper/report.go).

 The five pairs of `add*Violation` / `updateMax*` methods differ only in the fields that
 identify an entry, so they are one operation over `Key` here. A `Tally` is what the
 report keeps for one check: the deduplicated list, its `Max` record, and the largest
 value observed whether or not it violates.
 */
module Violations {

  import opened Options

  /** What identifies an entry of a violation list. */
  datatype Key =
    | ByMetric(metric: string)
    | ByLabel(metric: string, labelName: string)
    | ByValue(metric: string, labelName: string, labelValue: string)

  datatype Violation = Violation(key: Key, size: int, whitelisted: bool)

  /** One measured quantity: the length, cardinality or bucket count found for `key`. */
  datatype Sample = Sample(key: Key, size: nat)

  /** The limits in force for one check: the global one and the custom ones by metric name. */
  datatype Policy = Policy(limit: int, custom: map<string, int>) {
    function LimitFor(metric: string): int {
      if metric in custom then custom[metric] else limit
    }

    predicate Violates(s: Sample) {
      s.size > LimitFor(s.key.metric)
    }

    function ToViolation(s: Sample): Violation {
      Violation(s.key, s.size, s.key.metric in custom)
    }
  }

  datatype Tally = Tally(entries: seq<Violation>, max: Option<Violation>, current: int)

  const EMPTY: Tally := Tally([], None, 0)

  // ---------------------------------------------------------------- the fold

  function Larger(old_: Violation, v: Violation): Violation {
    if v.size > old_.size then v else old_
  }

  /** Insertion with deduplication: the first entry with the same key keeps the larger value. */
  function Upsert(entries: seq<Violation>, v: Violation): seq<Violation> {
    if entries == [] then [v]
    else if entries[0].key == v.key then [Larger(entries[0], v)] + entries[1..]
    else [entries[0]] + Upsert(entries[1..], v)
  }

  function RaiseMax(max: Option<Violation>, v: Violation): Option<Violation> {
    if max.None? || v.size > max.value.size then Some(v) else max
  }

  function Add(t: Tally, v: Violation): Tally {
    t.(entries := Upsert(t.entries, v), max := RaiseMax(t.max, v))
  }

  function Observe(p: Policy, t: Tally, s: Sample): Tally {
    var t' := if s.size > t.current then t.(current := s.size) else t;
    if p.Violates(s) then Add(t', p.ToViolation(s)) else t'
  }

  function ObserveAll(p: Policy, t: Tally, samples: seq<Sample>): Tally {
    if samples == [] then t
    else Observe(p, ObserveAll(p, t, samples[..|samples| - 1]), samples[|samples| - 1])
  }

  function TallyOf(p: Policy, samples: seq<Sample>): Tally {
    ObserveAll(p, EMPTY, samples)
  }

  lemma ObserveOneMore(p: Policy, t: Tally, samples: seq<Sample>, s: Sample)
    ensures ObserveAll(p, t, samples + [s]) == Observe(p, ObserveAll(p, t, samples), s)
  {
    assert (samples + [s])[..|samples|] == samples;
  }

  lemma {:induction false} ObserveConcat(p: Policy, t: Tally, a: seq<Sample>, b: seq<Sample>)
    ensures ObserveAll(p, t, a + b) == ObserveAll(p, ObserveAll(p, t, a), b)
    decreases |b|
  {
    if b == [] {
      assert a + b == a;
    } else {
      var b' := b[..|b| - 1];
      ObserveConcat(p, t, a, b');
      assert a + b == (a + b') + [b[|b| - 1]];
      ObserveOneMore(p, t, a + b', b[|b| - 1]);
    }
  }

  // ---------------------------------------------------------------- the declarative specification

  ghost predicate UniqueKeys(entries: seq<Violation>) {
    forall i, j :: 0 <= i < j < |entries| ==> entries[i].key != entries[j].key
  }

  ghost predicate HasKey(entries: seq<Violation>, k: Key) {
    exists e :: e in entries && e.key == k
  }

  /** `v` is the worst violating sample of its key among `samples`. */
  ghost predicate WorstOfKey(p: Policy, samples: seq<Sample>, v: Violation) {
    && (exists s :: s in samples && p.Violates(s) && v == p.ToViolation(s))
    && (forall s :: s in samples && p.Violates(s) && s.key == v.key ==> s.size <= v.size)
  }

  /** The list: unique keys, every violated key present, each entry the worst of its key. */
  ghost predicate ListOk(p: Policy, samples: seq<Sample>, entries: seq<Violation>) {
    && UniqueKeys(entries)
    && (forall s :: s in samples && p.Violates(s) ==> HasKey(entries, s.key))
    && (forall e :: e in entries ==> WorstOfKey(p, samples, e))
  }

  /** The `Max` record: an element of the list that no element exceeds. */
  ghost predicate MaxOk(entries: seq<Violation>, max: Option<Violation>) {
    && (max.None? <==> entries == [])
    && (max.Some? ==> max.value in entries && forall e :: e in entries ==> e.size <= max.value.size)
  }

  /** The running maximum over all samples, violating or not, starting from zero. */
  ghost predicate CurrentOk(samples: seq<Sample>, current: int) {
    && current >= 0
    && (forall s :: s in samples ==> s.size <= current)
    && (current != 0 ==> exists s :: s in samples && s.size == current)
  }

  /** What the tally must be, said without reference to the order of the samples. */
  ghost predicate Summarises(p: Policy, samples: seq<Sample>, t: Tally) {
    ListOk(p, samples, t.entries) && MaxOk(t.entries, t.max) && CurrentOk(samples, t.current)
  }

  /** `v` replaces the entry at `i`, the only one with its key, if it is larger. */
  ghost predicate ReplacesAt(entries: seq<Violation>, v: Violation, r: seq<Violation>, i: int) {
    0 <= i < |entries| && entries[i].key == v.key && r == entries[i := Larger(entries[i], v)]
  }

  lemma ReplacesInTail(entries: seq<Violation>, v: Violation, i: int)
    requires entries != [] && entries[0].key != v.key && ReplacesAt(entries[1..], v, Upsert(entries[1..], v), i)
    ensures ReplacesAt(entries, v, Upsert(entries, v), i + 1)
  {
    var head, tail := [entries[0]], entries[1..];
    var e := Larger(tail[i], v);
    assert Upsert(entries, v) == head + tail[i := e];
    assert entries == head + tail && entries[i + 1 := e] == head + tail[i := e];
  }

  lemma KeyInTail(entries: seq<Violation>, k: Key)
    requires entries != [] && entries[0].key != k
    ensures HasKey(entries, k) <==> HasKey(entries[1..], k)
  {
    if e :| e in entries && e.key == k {
      assert e in entries[1..];
    }
    if e :| e in entries[1..] && e.key == k {
      assert e in entries;
    }
  }

  /** Where `Upsert` puts the value, and that nothing else moves. */
  lemma {:induction false} UpsertShape(entries: seq<Violation>, v: Violation)
    requires UniqueKeys(entries)
    ensures
      if HasKey(entries, v.key) then exists i :: ReplacesAt(entries, v, Upsert(entries, v), i)
      else Upsert(entries, v) == entries + [v]
  {
    if entries == [] {
    } else if entries[0].key == v.key {
      assert entries[0] in entries;
      assert ReplacesAt(entries, v, Upsert(entries, v), 0);
    } else {
      UpsertShape(entries[1..], v);
      KeyInTail(entries, v.key);
      if HasKey(entries, v.key) {
        var i :| ReplacesAt(entries[1..], v, Upsert(entries[1..], v), i);
        ReplacesInTail(entries, v, i);
      }
    }
  }

  lemma CurrentStep(samples: seq<Sample>, current: int, s: Sample)
    requires CurrentOk(samples, current)
    ensures CurrentOk(samples + [s], if s.size > current then s.size else current)
  {
    assert forall x :: x in samples + [s] <==> x in samples || x == s;
  }

  lemma MaxStep(entries: seq<Violation>, max: Option<Violation>, v: Violation)
    requires UniqueKeys(entries) && MaxOk(entries, max)
    ensures MaxOk(Upsert(entries, v), RaiseMax(max, v))
  {
    UpsertShape(entries, v);
    var r := Upsert(entries, v);
    if HasKey(entries, v.key) {
      var i :| ReplacesAt(entries, v, r, i);
      assert entries[i] in entries && r[i] in r;
      var j :| 0 <= j < |entries| && entries[j] == max.value;
      assert r[j] in r;
      forall e | e in r ensures e == v || e in entries {
        var k :| 0 <= k < |r| && r[k] == e;
        assert k != i ==> entries[k] in entries;
      }
    } else {
      assert forall e :: e in r <==> e in entries || e == v;
    }
  }

  /** A sample that does not violate leaves the list right. */
  lemma ListSkip(p: Policy, samples: seq<Sample>, entries: seq<Violation>, s: Sample)
    requires ListOk(p, samples, entries) && !p.Violates(s)
    ensures ListOk(p, samples + [s], entries)
  {
    assert forall x :: x in samples + [s] <==> x in samples || x == s;
    forall e | e in entries ensures WorstOfKey(p, samples + [s], e) {
      assert WorstOfKey(p, samples, e);
    }
  }

  lemma ListAppend(p: Policy, samples: seq<Sample>, entries: seq<Violation>, s: Sample)
    requires ListOk(p, samples, entries) && p.Violates(s) && !HasKey(entries, s.key)
    ensures ListOk(p, samples + [s], entries + [p.ToViolation(s)])
  {
    var all, v, r := samples + [s], p.ToViolation(s), entries + [p.ToViolation(s)];
    assert forall x :: x in all <==> x in samples || x == s;
    assert forall e :: e in r <==> e in entries || e == v;
    forall i, j | 0 <= i < j < |r| ensures r[i].key != r[j].key {
      assert r[i] in entries;
    }
    forall e | e in r ensures WorstOfKey(p, all, e) {
      if e in entries {
        assert WorstOfKey(p, samples, e);
      } else {
        assert s in all;
      }
    }
    forall x | x in all && p.Violates(x) ensures HasKey(r, x.key) {
      if x in samples {
        assert HasKey(entries, x.key);
      } else {
        assert v in r;
      }
    }
  }

  lemma ListReplace(p: Policy, samples: seq<Sample>, entries: seq<Violation>, s: Sample, i: nat)
    requires ListOk(p, samples, entries) && p.Violates(s)
    requires i < |entries| && entries[i].key == s.key
    ensures ListOk(p, samples + [s], entries[i := Larger(entries[i], p.ToViolation(s))])
  {
    var all, r := samples + [s], entries[i := Larger(entries[i], p.ToViolation(s))];
    assert forall x :: x in all <==> x in samples || x == s;
    assert forall j :: 0 <= j < |r| ==> r[j].key == entries[j].key;
    forall e | e in r ensures WorstOfKey(p, all, e) {
      var j :| 0 <= j < |r| && r[j] == e;
      assert entries[j] in entries && WorstOfKey(p, samples, entries[j]);
      if j == i {
        assert s in all;
      }
    }
    forall x | x in all && p.Violates(x) ensures HasKey(r, x.key) {
      assert HasKey(entries, x.key) by {
        assert entries[i] in entries;
      }
      var e :| e in entries && e.key == x.key;
      var j :| 0 <= j < |entries| && entries[j] == e;
      assert r[j] in r;
    }
  }

  /** One call of an `add*Violation` method keeps the specification. */
  lemma ObserveSummarises(p: Policy, samples: seq<Sample>, t: Tally, s: Sample)
    requires Summarises(p, samples, t)
    ensures Summarises(p, samples + [s], Observe(p, t, s))
  {
    CurrentStep(samples, t.current, s);
    if p.Violates(s) {
      var v := p.ToViolation(s);
      MaxStep(t.entries, t.max, v);
      UpsertShape(t.entries, v);
      if HasKey(t.entries, v.key) {
        var i :| ReplacesAt(t.entries, v, Upsert(t.entries, v), i);
        ListReplace(p, samples, t.entries, s, i);
      } else {
        ListAppend(p, samples, t.entries, s);
      }
    } else {
      ListSkip(p, samples, t.entries, s);
    }
  }

  /** After any run of observations the tally is the declarative summary of the samples. */
  lemma {:induction false} TallySummarises(p: Policy, samples: seq<Sample>)
    ensures Summarises(p, samples, TallyOf(p, samples))
  {
    if samples != [] {
      var front, last := samples[..|samples| - 1], samples[|samples| - 1];
      TallySummarises(p, front);
      ObserveSummarises(p, front, TallyOf(p, front), last);
      assert samples == front + [last];
    }
  }

  // ---------------------------------------------------------------- order independence

  ghost predicate SameSamples(a: seq<Sample>, b: seq<Sample>) {
    forall s :: s in a <==> s in b
  }

  /** Equal as a set of entries, with maxima of equal size and the same largest value. */
  ghost predicate Equivalent(t: Tally, u: Tally) {
    && (forall e :: e in t.entries <==> e in u.entries)
    && (t.max.None? <==> u.max.None?)
    && (t.max.Some? ==> t.max.value.size == u.max.value.size)
    && t.current == u.current
    && |t.entries| == |u.entries|
  }

  lemma EntryCarriesOver(p: Policy, a: seq<Sample>, b: seq<Sample>, t: seq<Violation>, u: seq<Violation>, e: Violation)
    requires SameSamples(a, b) && ListOk(p, a, t) && ListOk(p, b, u)
    requires e in t
    ensures e in u
  {
    assert WorstOfKey(p, a, e);
    var s :| s in a && p.Violates(s) && e == p.ToViolation(s);
    assert s in b;
    assert HasKey(u, s.key);
    var f :| f in u && f.key == s.key;
    assert WorstOfKey(p, b, f);
    var s' :| s' in b && p.Violates(s') && f == p.ToViolation(s');
    assert s' in a;
  }

  lemma MaxCarriesOver(t: Tally, u: Tally)
    requires forall e :: e in t.entries <==> e in u.entries
    requires MaxOk(t.entries, t.max) && MaxOk(u.entries, u.max)
    ensures t.max.None? <==> u.max.None?
    ensures t.max.Some? ==> t.max.value.size == u.max.value.size
  {
    if t.entries != [] { assert t.entries[0] in u.entries; }
    if u.entries != [] { assert u.entries[0] in t.entries; }
  }

  lemma CurrentCarriesOver(a: seq<Sample>, b: seq<Sample>, m: int, n: int)
    requires SameSamples(a, b) && CurrentOk(a, m) && CurrentOk(b, n)
    ensures m == n
  {
    if m != 0 {
      var s :| s in a && s.size == m;
      assert s in b;
    }
    if n != 0 {
      var s :| s in b && s.size == n;
      assert s in a;
    }
  }

  lemma {:induction false} UniqueKeysCount(entries: seq<Violation>)
    requires UniqueKeys(entries)
    ensures |set e | e in entries| == |entries|
  {
    if entries != [] {
      var front, last := entries[..|entries| - 1], entries[|entries| - 1];
      UniqueKeysCount(front);
      assert last !in front;
      assert (set e | e in entries) == (set e | e in front) + {last};
    }
  }

  lemma SameEntriesSameCount(t: seq<Violation>, u: seq<Violation>)
    requires UniqueKeys(t) && UniqueKeys(u)
    requires forall e :: e in t <==> e in u
    ensures |t| == |u|
  {
    UniqueKeysCount(t);
    UniqueKeysCount(u);
    assert (set e | e in t) == (set e | e in u);
  }

  lemma SummariesEquivalent(p: Policy, a: seq<Sample>, b: seq<Sample>, t: Tally, u: Tally)
    requires SameSamples(a, b) && Summarises(p, a, t) && Summarises(p, b, u)
    ensures Equivalent(t, u)
  {
    forall e ensures e in t.entries <==> e in u.entries {
      if e in t.entries { EntryCarriesOver(p, a, b, t.entries, u.entries, e); }
      if e in u.entries { EntryCarriesOver(p, b, a, u.entries, t.entries, e); }
    }
    MaxCarriesOver(t, u);
    CurrentCarriesOver(a, b, t.current, u.current);
    SameEntriesSameCount(t.entries, u.entries);
  }

  /** A tally depends only on which samples were seen, not on their order or repetition. */
  lemma OrderIndependent(p: Policy, a: seq<Sample>, b: seq<Sample>)
    requires SameSamples(a, b)
    ensures Equivalent(TallyOf(p, a), TallyOf(p, b))
  {
    TallySummarises(p, a);
    TallySummarises(p, b);
    SummariesEquivalent(p, a, b, TallyOf(p, a), TallyOf(p, b));
  }

  // ---------------------------------------------------------------- merging

  /** Sample `i` violates, no earlier violation is as large and no later one larger. */
  ghost predicate FirstLargest(p: Policy, samples: seq<Sample>, i: int) {
    && 0 <= i < |samples| && p.Violates(samples[i])
    && (forall j :: 0 <= j < i && p.Violates(samples[j]) ==> samples[j].size < samples[i].size)
    && (forall j :: i < j < |samples| && p.Violates(samples[j]) ==> samples[j].size <= samples[i].size)
  }

  ghost predicate MaxFirst(p: Policy, samples: seq<Sample>, max: Option<Violation>) {
    if max.None? then forall i :: 0 <= i < |samples| ==> !p.Violates(samples[i])
    else exists i :: FirstLargest(p, samples, i) && max.value == p.ToViolation(samples[i])
  }

  lemma FirstStays(p: Policy, samples: seq<Sample>, s: Sample, i: int)
    requires FirstLargest(p, samples, i) && (p.Violates(s) ==> s.size <= samples[i].size)
    ensures FirstLargest(p, samples + [s], i)
  {
    var all := samples + [s];
    assert all[|samples|] == s && forall j :: 0 <= j < |samples| ==> all[j] == samples[j];
  }

  lemma LastIsFirst(p: Policy, samples: seq<Sample>, s: Sample)
    requires p.Violates(s) && forall i :: 0 <= i < |samples| && p.Violates(samples[i]) ==> samples[i].size < s.size
    ensures FirstLargest(p, samples + [s], |samples|)
  {
    var all := samples + [s];
    assert all[|samples|] == s && forall j :: 0 <= j < |samples| ==> all[j] == samples[j];
  }

  lemma MaxFirstStep(p: Policy, samples: seq<Sample>, max: Option<Violation>, s: Sample)
    requires MaxFirst(p, samples, max)
    ensures MaxFirst(p, samples + [s], if p.Violates(s) then RaiseMax(max, p.ToViolation(s)) else max)
  {
    var all := samples + [s];
    if max.None? {
      if p.Violates(s) {
        LastIsFirst(p, samples, s);
        assert all[|samples|] == s;
      }
    } else {
      var i :| FirstLargest(p, samples, i) && max.value == p.ToViolation(samples[i]);
      if p.Violates(s) && s.size > samples[i].size {
        LastIsFirst(p, samples, s);
        assert all[|samples|] == s;
      } else {
        FirstStays(p, samples, s, i);
        assert all[i] == samples[i];
      }
    }
  }

  lemma MaxOfOneMore(p: Policy, samples: seq<Sample>, s: Sample)
    ensures var max := TallyOf(p, samples).max;
      TallyOf(p, samples + [s]).max == if p.Violates(s) then RaiseMax(max, p.ToViolation(s)) else max
  {
    ObserveOneMore(p, EMPTY, samples, s);
  }

  /** The `Max` record is the first of the largest violations: an equal one does not replace it. */
  lemma {:induction false} MaxIsFirst(p: Policy, samples: seq<Sample>)
    ensures MaxFirst(p, samples, TallyOf(p, samples).max)
  {
    if samples != [] {
      var front, last := samples[..|samples| - 1], samples[|samples| - 1];
      assert samples == front + [last];
      MaxIsFirst(p, front);
      MaxOfOneMore(p, front, last);
      MaxFirstStep(p, front, TallyOf(p, front).max, last);
    }
  }

  function UpsertAll(entries: seq<Violation>, vs: seq<Violation>): seq<Violation> {
    if vs == [] then entries
    else Upsert(UpsertAll(entries, vs[..|vs| - 1]), vs[|vs| - 1])
  }

  /** The report of two disjoint runs: the second list folded into the first, maxima compared. */
  function Merge(t: Tally, u: Tally): Tally {
    Tally(UpsertAll(t.entries, u.entries),
          if u.max.None? then t.max else RaiseMax(t.max, u.max.value),
          if u.current > t.current then u.current else t.current)
  }

  lemma {:induction false} UpsertTwice(entries: seq<Violation>, u: Violation, v: Violation)
    requires u.key == v.key
    ensures Upsert(Upsert(entries, u), v) == Upsert(entries, Larger(u, v))
  {
    if entries != [] && entries[0].key != u.key {
      UpsertTwice(entries[1..], u, v);
      assert Upsert(entries, u)[1..] == Upsert(entries[1..], u);
    } else if entries != [] {
      assert Upsert(entries, u)[1..] == entries[1..];
    }
  }

  lemma {:induction false} UpsertSwap(entries: seq<Violation>, u: Violation, v: Violation)
    requires u.key != v.key && HasKey(entries, v.key)
    ensures Upsert(Upsert(entries, u), v) == Upsert(Upsert(entries, v), u)
  {
    var e :| e in entries && e.key == v.key;
    var head, tail := entries[0], entries[1..];
    if head.key == v.key {
      assert Upsert(entries, u)[1..] == Upsert(tail, u);
      assert Upsert(entries, v)[1..] == tail;
    } else if head.key == u.key {
      assert Upsert(entries, u)[1..] == tail;
      assert Upsert(entries, v)[1..] == Upsert(tail, v);
    } else {
      assert e in tail;
      UpsertSwap(tail, u, v);
      assert Upsert(entries, u)[1..] == Upsert(tail, u);
      assert Upsert(entries, v)[1..] == Upsert(tail, v);
    }
  }

  lemma {:induction false} UpsertHasKey(entries: seq<Violation>, v: Violation, k: Key)
    ensures HasKey(Upsert(entries, v), k) <==> HasKey(entries, k) || v.key == k
  {
    var r := Upsert(entries, v);
    if entries == [] {
      assert v in r;
    } else {
      var head, tail := entries[0], entries[1..];
      assert forall e :: e in entries <==> e == head || e in tail;
      if head.key == v.key {
        assert forall e :: e in r <==> e == Larger(head, v) || e in tail;
        assert Larger(head, v) in r && head in entries;
      } else {
        UpsertHasKey(tail, v, k);
        assert forall e :: e in r <==> e == head || e in Upsert(tail, v);
        assert head in r && head in entries;
      }
    }
  }

  lemma {:induction false} UpsertAllConcat(entries: seq<Violation>, a: seq<Violation>, b: seq<Violation>)
    ensures UpsertAll(entries, a + b) == UpsertAll(UpsertAll(entries, a), b)
    decreases |b|
  {
    if b == [] {
      assert a + b == a;
    } else {
      assert (a + b)[..|a + b| - 1] == a + b[..|b| - 1];
      UpsertAllConcat(entries, a, b[..|b| - 1]);
    }
  }

  /** A value whose key is already listed moves past values of other keys. */
  lemma {:induction false} UpsertPast(entries: seq<Violation>, vs: seq<Violation>, v: Violation)
    requires HasKey(entries, v.key)
    requires forall i :: 0 <= i < |vs| ==> vs[i].key != v.key
    ensures Upsert(UpsertAll(entries, vs), v) == UpsertAll(Upsert(entries, v), vs)
    ensures HasKey(UpsertAll(entries, vs), v.key)
  {
    if vs != [] {
      var front, last := vs[..|vs| - 1], vs[|vs| - 1];
      UpsertPast(entries, front, v);
      UpsertSwap(UpsertAll(entries, front), last, v);
      UpsertHasKey(UpsertAll(entries, front), last, v.key);
    }
  }

  /** Replacing one entry of a deduplicated list is folding one more value after it. */
  lemma FoldReplace(entries: seq<Violation>, d: seq<Violation>, i: nat, v: Violation)
    requires i < |d| && d[i].key == v.key
    requires forall j :: i < j < |d| ==> d[j].key != v.key
    ensures UpsertAll(entries, d[i := Larger(d[i], v)]) == Upsert(UpsertAll(entries, d), v)
  {
    var pre, u, post := d[..i], d[i], d[i + 1..];
    var base := UpsertAll(entries, pre);
    assert d == pre + [u] + post;
    assert d[i := Larger(u, v)] == pre + [Larger(u, v)] + post;
    UpsertThrough(entries, pre, u, post);
    UpsertThrough(entries, pre, Larger(u, v), post);
    UpsertTwice(base, u, v);
    UpsertHasKey(base, u, v.key);
    UpsertPast(Upsert(base, u), post, v);
  }

  lemma UpsertThrough(entries: seq<Violation>, pre: seq<Violation>, u: Violation, post: seq<Violation>)
    ensures UpsertAll(entries, pre + [u] + post) == UpsertAll(Upsert(UpsertAll(entries, pre), u), post)
  {
    UpsertAllConcat(entries, pre + [u], post);
    UpsertAllConcat(entries, pre, [u]);
    UpsertOne(UpsertAll(entries, pre), u);
  }

  /** Folding a deduplicated list and then one more value is folding the updated list. */
  lemma FoldUpsert(entries: seq<Violation>, d: seq<Violation>, v: Violation)
    requires UniqueKeys(d)
    ensures UpsertAll(entries, Upsert(d, v)) == Upsert(UpsertAll(entries, d), v)
  {
    UpsertShape(d, v);
    if HasKey(d, v.key) {
      var i :| ReplacesAt(d, v, Upsert(d, v), i);
      FoldReplace(entries, d, i, v);
    } else {
      UpsertAllConcat(entries, d, [v]);
      UpsertOne(UpsertAll(entries, d), v);
    }
  }

  lemma UpsertOne(entries: seq<Violation>, v: Violation)
    ensures UpsertAll(entries, [v]) == Upsert(entries, v)
  {
    assert [v][..0] == [];
    assert UpsertAll(entries, []) == entries;
  }

  /** Continuing from `t` is merging `t` with the tally of the new samples alone. */
  lemma {:induction false} ObserveAllIsMerge(p: Policy, t: Tally, samples: seq<Sample>)
    requires t.current >= 0
    ensures ObserveAll(p, t, samples) == Merge(t, TallyOf(p, samples))
  {
    if samples != [] {
      var front, s := samples[..|samples| - 1], samples[|samples| - 1];
      ObserveAllIsMerge(p, t, front);
      var u := TallyOf(p, front);
      TallySummarises(p, front);
      if p.Violates(s) {
        FoldUpsert(t.entries, u.entries, p.ToViolation(s));
      }
    }
  }

  /** Processing A and then B gives exactly the merge of the two separate tallies. */
  lemma ConcatIsMerge(p: Policy, a: seq<Sample>, b: seq<Sample>)
    ensures TallyOf(p, a + b) == Merge(TallyOf(p, a), TallyOf(p, b))
  {
    ObserveConcat(p, EMPTY, a, b);
    TallySummarises(p, a);
    ObserveAllIsMerge(p, TallyOf(p, a), b);
  }

  // ---------------------------------------------------------------- what a check concludes

  ghost predicate SomeViolation(p: Policy, samples: seq<Sample>) {
    exists s :: s in samples && p.Violates(s)
  }

  ghost predicate SomeUncoveredViolation(p: Policy, samples: seq<Sample>) {
    exists s :: s in samples && s.key.metric !in p.custom && s.size > p.limit
  }

  predicate AllWhitelisted(entries: seq<Violation>) {
    forall e :: e in entries ==> e.whitelisted
  }

  /** Deduplication neither hides nor invents a violation, whitelisted or not. */
  lemma StatusOfTally(p: Policy, samples: seq<Sample>)
    ensures TallyOf(p, samples).entries != [] <==> SomeViolation(p, samples)
    ensures !AllWhitelisted(TallyOf(p, samples).entries) <==> SomeUncoveredViolation(p, samples)
  {
    var t := TallyOf(p, samples);
    TallySummarises(p, samples);
    if t.entries != [] {
      assert WorstOfKey(p, samples, t.entries[0]);
    }
    if SomeViolation(p, samples) {
      var s :| s in samples && p.Violates(s);
      assert HasKey(t.entries, s.key);
    }
    if !AllWhitelisted(t.entries) {
      var e :| e in t.entries && !e.whitelisted;
      assert WorstOfKey(p, samples, e);
    }
    if SomeUncoveredViolation(p, samples) {
      var s :| s in samples && s.key.metric !in p.custom && s.size > p.limit;
      assert HasKey(t.entries, s.key);
      var e :| e in t.entries && e.key == s.key;
      assert WorstOfKey(p, samples, e);
      var s' :| s' in samples && p.Violates(s') && e == p.ToViolation(s');
    }
  }

  /**
   The two accumulators, the violation list and the running maximum, agree without custom
   limits exactly when the limit is not negative or something was sampled.
   */
  lemma AccumulatorsAgree(p: Policy, samples: seq<Sample>)
    requires p.custom == map[]
    ensures (TallyOf(p, samples).entries != [] <==> TallyOf(p, samples).current > p.limit)
            <==> (p.limit >= 0 || samples != [])
  {
    var t := TallyOf(p, samples);
    TallySummarises(p, samples);
    StatusOfTally(p, samples);
    if samples != [] {
      assert samples[0] in samples;
      if t.current > p.limit && p.limit >= 0 {
        var s :| s in samples && s.size == t.current;
        assert p.Violates(s);
      } else if t.current > p.limit {
        assert p.Violates(samples[0]);
      }
    }
  }

  /** In all cases the running maximum bounds every listed violation. */
  lemma CurrentBoundsEntries(p: Policy, samples: seq<Sample>, e: Violation)
    requires e in TallyOf(p, samples).entries
    ensures e.size <= TallyOf(p, samples).current
  {
    TallySummarises(p, samples);
    assert WorstOfKey(p, samples, e);
  }
}
