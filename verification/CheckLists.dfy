/**
 The stored form of a target whitelist (internal/storage/postgres/whitelist.go): a list of
 check names, deduplicated and sorted, written as a JSON array; an older form, a JSON object
 of flags, is still read. JSON itself is taken as a faithful codec.
 */
module CheckLists {
  import opened Options

  datatype Result<+T> = Ok(value: T) | Err(error: string)

  const TARGET_CHECKS: set<string> :=
    {"metric_name_length", "label_name_length", "label_value_length",
     "cardinality", "histogram_buckets", "response_weight"}

  const METRIC_CHECKS: set<string> :=
    {"metric_name_length", "label_name_length", "label_value_length", "cardinality", "histogram_buckets"}

  // ---------------------------------------------------------------- the order of strings

  predicate Less(a: string, b: string) {
    if b == "" then false
    else if a == "" then true
    else a[0] < b[0] || (a[0] == b[0] && Less(a[1..], b[1..]))
  }

  /** The order: the shorter of two strings with a common prefix first, otherwise the smaller character. */
  lemma {:induction false} LessIs(a: string, b: string)
    ensures Less(a, b) <==> exists k :: DiffersAt(a, b, k) && (k == |a| || (k < |b| && a[k] < b[k]))
  {
    if a != "" && b != "" && a[0] == b[0] {
      LessIs(a[1..], b[1..]);
      forall k ensures DiffersAt(a, b, k + 1) <==> DiffersAt(a[1..], b[1..], k) {
        DiffersInTail(a, b, k);
      }
      if k :| DiffersAt(a[1..], b[1..], k) && (k == |a[1..]| || (k < |b[1..]| && a[1..][k] < b[1..][k])) {
        assert DiffersAt(a, b, k + 1);
      }
      if k :| DiffersAt(a, b, k) && (k == |a| || (k < |b| && a[k] < b[k])) {
        assert DiffersAt(a, b, (k - 1) + 1);
      }
    } else if a != b {
      assert DiffersAt(a, b, 0);
    }
  }

  /** The strings agree before `k` and not at `k`, where one of them may have ended. */
  ghost predicate DiffersAt(a: string, b: string, k: int) {
    && 0 <= k <= |a| && k <= |b| && a[..k] == b[..k]
    && (k == |a| || k == |b| || a[k] != b[k]) && (k < |a| || k < |b|)
  }

  lemma DiffersInTail(a: string, b: string, k: int)
    requires a != "" && b != "" && a[0] == b[0]
    ensures DiffersAt(a, b, k + 1) <==> DiffersAt(a[1..], b[1..], k)
  {
    if 0 <= k < |a| && k < |b| {
      assert a[..k + 1] == [a[0]] + a[1..][..k] && b[..k + 1] == [b[0]] + b[1..][..k];
      assert a[1..][..k] == a[..k + 1][1..] && b[1..][..k] == b[..k + 1][1..];
    }
  }

  lemma {:induction false} LessTotal(a: string, b: string)
    ensures !(Less(a, b) && Less(b, a))
    ensures a == b || Less(a, b) || Less(b, a)
    ensures a == b ==> !Less(a, b)
    decreases |a|
  {
    if a != "" && b != "" && a[0] == b[0] {
      LessTotal(a[1..], b[1..]);
      assert a == [a[0]] + a[1..] && b == [b[0]] + b[1..];
    }
  }

  lemma {:induction false} LessTransitive(a: string, b: string, c: string)
    requires Less(a, b) && Less(b, c)
    ensures Less(a, c)
    decreases |a|
  {
    if a != "" && a[0] == b[0] && b[0] == c[0] {
      LessTransitive(a[1..], b[1..], c[1..]);
    }
  }

  predicate StrictlySorted(s: seq<string>) {
    forall i, j :: 0 <= i < j < |s| ==> Less(s[i], s[j])
  }

  ghost predicate SameMembers(a: seq<string>, b: seq<string>) {
    forall x :: x in a <==> x in b
  }

  lemma FirstOfBoth(a: seq<string>, b: seq<string>)
    requires StrictlySorted(a) && StrictlySorted(b) && SameMembers(a, b) && a != [] && b != []
    ensures a[0] == b[0]
  {
    assert a[0] in b && b[0] in a;
    var i :| 0 <= i < |b| && b[i] == a[0];
    var j :| 0 <= j < |a| && a[j] == b[0];
    LessTotal(a[0], b[0]);
  }

  /** A set of strings has only one strictly sorted list. */
  lemma {:induction false} SortedUnique(a: seq<string>, b: seq<string>)
    requires StrictlySorted(a) && StrictlySorted(b) && SameMembers(a, b)
    ensures a == b
  {
    if b != [] {
      assert b[0] in a;
    }
    if a != [] {
      assert a[0] in b;
      FirstOfBoth(a, b);
      forall x ensures x in a[1..] <==> x in b[1..] {
        LessTotal(x, a[0]);
        if x in a[1..] {
          assert x in b;
        }
        if x in b[1..] {
          assert x in a;
        }
      }
      SortedUnique(a[1..], b[1..]);
    }
  }

  // ---------------------------------------------------------------- deduplicate and sort

  function Dedup(s: seq<string>): seq<string> {
    if s == [] then []
    else
      var front, last := Dedup(s[..|s| - 1]), s[|s| - 1];
      if last in s[..|s| - 1] then front else front + [last]
  }

  function Insert(x: string, s: seq<string>): seq<string> {
    if s == [] || !Less(s[0], x) then [x] + s else [s[0]] + Insert(x, s[1..])
  }

  /** The library sort, which on distinct strings has only one possible result. */
  function Sort(s: seq<string>): seq<string> {
    if s == [] then [] else Insert(s[0], Sort(s[1..]))
  }

  function Normal(s: seq<string>): seq<string> {
    Sort(Dedup(s))
  }

  ghost predicate Distinct(s: seq<string>) {
    forall i, j :: 0 <= i < j < |s| ==> s[i] != s[j]
  }

  lemma {:induction false} DedupLaw(s: seq<string>)
    ensures Distinct(Dedup(s)) && SameMembers(Dedup(s), s)
  {
    if s != [] {
      var front, last := s[..|s| - 1], s[|s| - 1];
      DedupLaw(front);
      assert forall x :: x in s <==> x in front || x == last;
    }
  }

  lemma {:induction false} InsertLaw(x: string, s: seq<string>)
    requires StrictlySorted(s) && x !in s
    ensures StrictlySorted(Insert(x, s))
    ensures forall y :: y in Insert(x, s) <==> y == x || y in s
  {
    if s != [] && Less(s[0], x) {
      var rest := Insert(x, s[1..]);
      InsertLaw(x, s[1..]);
      forall y | y in rest ensures Less(s[0], y) {
        if y != x {
          assert y in s[1..];
        }
      }
    } else if s != [] {
      LessTotal(x, s[0]);
      forall i | 0 <= i < |s| ensures Less(x, s[i]) {
        if i > 0 {
          LessTransitive(x, s[0], s[i]);
        }
      }
    }
  }

  lemma {:induction false} SortLaw(s: seq<string>)
    requires Distinct(s)
    ensures StrictlySorted(Sort(s)) && SameMembers(Sort(s), s)
  {
    if s != [] {
      SortLaw(s[1..]);
      assert s[0] !in s[1..];
      InsertLaw(s[0], Sort(s[1..]));
      assert forall x :: x in s <==> x == s[0] || x in s[1..];
    }
  }

  /** The normal form is the strictly sorted list of the same names. */
  lemma NormalLaw(s: seq<string>)
    ensures StrictlySorted(Normal(s)) && SameMembers(Normal(s), s)
  {
    DedupLaw(s);
    SortLaw(Dedup(s));
  }

  /** It depends only on which names occur, so normalising twice changes nothing. */
  lemma NormalOfMembers(a: seq<string>, b: seq<string>)
    requires SameMembers(a, b)
    ensures Normal(a) == Normal(b)
    ensures Normal(Normal(a)) == Normal(a)
  {
    NormalLaw(a);
    NormalLaw(b);
    NormalLaw(Normal(a));
    SortedUnique(Normal(a), Normal(b));
    SortedUnique(Normal(Normal(a)), Normal(a));
  }

  // ---------------------------------------------------------------- the code

  predicate AllTargetChecks(s: seq<string>) {
    forall x :: x in s ==> x in TARGET_CHECKS
  }

  /** `normalizeTargetChecks`; the loop of `marshalTargetChecks` is the same. */
  method NormalizeTargetChecks(raw: seq<string>) returns (r: Result<seq<string>>)
    ensures r.Ok? <==> forall x :: x in raw ==>
      || x == "metric_name_length" || x == "label_name_length" || x == "label_value_length"
      || x == "cardinality" || x == "histogram_buckets" || x == "response_weight"
    ensures r.Ok? ==> r.value == Normal(raw) && StrictlySorted(r.value) && SameMembers(r.value, raw)
    ensures r.Ok? <==> AllTargetChecks(raw)
  {
    NormalLaw(raw);
    if |raw| == 0 {
      return Ok([]);
    }
    var seen: set<string>, result := {}, [];
    for i := 0 to |raw|
      invariant AllTargetChecks(raw[..i])
      invariant forall x :: x in seen <==> x in raw[..i]
      invariant result == Dedup(raw[..i])
    {
      assert raw[..i + 1][..i] == raw[..i];
      if raw[i] !in TARGET_CHECKS {
        assert raw[i] in raw;
        return Err("unsupported target whitelist check");
      }
      if raw[i] !in seen {
        seen := seen + {raw[i]};
        result := result + [raw[i]];
      }
    }
    assert raw[..|raw|] == raw;
    return Ok(Sort(result));
  }

  /** What the checks column can hold. */
  datatype Json = Array(items: seq<string>) | Flags(flags: map<string, bool>) | Other

  function Normalised(raw: seq<string>): Result<seq<string>> {
    if AllTargetChecks(raw) then Ok(Normal(raw)) else Err("unsupported target whitelist check")
  }

  function MarshalTargetChecks(checks: seq<string>): Result<Json> {
    if checks == [] then Err("checks are required")
    else match Normalised(checks)
         case Ok(names) => Ok(Array(names))
         case Err(e) => Err(e)
  }

  /** The names whose flag is set, in the order `order` in which the map is iterated. */
  function SetFlags(flags: map<string, bool>, order: seq<string>): seq<string> {
    if order == [] then []
    else SetFlags(flags, order[..|order| - 1])
         + var last := order[|order| - 1]; if last in flags && flags[last] then [last] else []
  }

  /** `parseTargetChecksJSON`; an empty column reads as no checks. */
  function ParseTargetChecks(raw: Option<Json>, order: seq<string>): Result<seq<string>> {
    match raw
    case None => Ok([])
    case Some(Array(items)) => Normalised(items)
    case Some(Flags(flags)) => Normalised(SetFlags(flags, order))
    case Some(Other) => Err("invalid target whitelist checks JSON")
  }

  /** Marshal accepts exactly the valid non-empty lists, and parsing gives back their normal form. */
  lemma TargetChecksRoundTrip(checks: seq<string>, order: seq<string>)
    ensures MarshalTargetChecks(checks).Ok? <==> checks != [] && AllTargetChecks(checks)
    ensures MarshalTargetChecks(checks).Ok? ==>
      && ParseTargetChecks(Some(MarshalTargetChecks(checks).value), order) == Ok(Normal(checks))
      && StrictlySorted(Normal(checks)) && SameMembers(Normal(checks), checks)
    ensures ParseTargetChecks(Some(Array(checks)), order).Ok? <==> AllTargetChecks(checks)
    ensures ParseTargetChecks(None, order) == Ok([]) && ParseTargetChecks(Some(Other), order).Err?
  {
    NormalLaw(checks);
    NormalOfMembers(checks, checks);
  }

  lemma {:induction false} SetFlagsLaw(flags: map<string, bool>, order: seq<string>, x: string)
    ensures x in SetFlags(flags, order) <==> x in order && x in flags && flags[x]
  {
    if order != [] {
      var front, last := order[..|order| - 1], order[|order| - 1];
      SetFlagsLaw(flags, front, x);
      assert forall y :: y in order <==> y in front || y == last;
    }
  }

  /** The older object form reads as the array of its set keys, whatever the iteration order. */
  lemma LegacyForm(flags: map<string, bool>, order: seq<string>, keys: seq<string>, any: seq<string>)
    requires forall x :: x in order <==> x in flags
    requires forall x :: x in keys <==> x in flags && flags[x]
    ensures ParseTargetChecks(Some(Flags(flags)), order) == ParseTargetChecks(Some(Array(keys)), any)
  {
    forall x ensures x in SetFlags(flags, order) <==> x in keys {
      SetFlagsLaw(flags, order, x);
    }
    NormalOfMembers(SetFlags(flags, order), keys);
  }
}
