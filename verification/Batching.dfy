/**
 Batched inserts: `sendBatch` with its retry on deadlock (internal/storage/postgres/postgres.go)
 and the chunking loop shared by `SaveScrapeTasks` and `SaveOrUpdateTargetGroups`
 (internal/storage/postgres/scrape_task.go, internal/storage/postgres/target_groups.go).

 A batch is sent as one implicit transaction. If a statement of it fails, nothing of it takes
 effect. If all succeed, it takes effect as a whole when closing it succeeds; when closing it
 reports an error, the commit may or may not have happened.
 */
module Batching {

  const ROWS_PER_BATCH: nat := 1000

  /** The answer to one statement. */
  datatype Answer = Fine | Deadlock | Refused

  /** What the server does with one attempt to send a batch, and whether closing it succeeds. */
  datatype Attempt = Attempt(answers: seq<Answer>, closed: bool, committed: bool)

  datatype Verdict = Done | Failed | Retrying

  // ---------------------------------------------------------------- one attempt, and the retries

  /** Each of the `n` statements was answered with success. */
  predicate Succeeded(a: Attempt, n: nat) {
    n <= |a.answers| && forall i :: 0 <= i < n ==> a.answers[i] == Fine
  }

  /** Every attempt answers `n` statements, and a batch that closes cleanly was committed. */
  ghost predicate Answers(attempts: seq<Attempt>, n: nat) {
    forall i :: 0 <= i < |attempts| ==> n <= |attempts[i].answers| && (attempts[i].closed ==> attempts[i].committed)
  }

  /** The first of the `n` statements that was not answered with success was answered with `bad`. */
  ghost predicate EndsIn(a: Attempt, n: nat, bad: Answer) {
    exists k :: 0 <= k < n && FirstBad(a, n, k) && a.answers[k] == bad
  }

  ghost predicate FirstBad(a: Attempt, n: nat, k: int) {
    0 <= k < n <= |a.answers| && a.answers[k] != Fine && forall i :: 0 <= i < k ==> a.answers[i] == Fine
  }

  lemma OneEnd(a: Attempt, n: nat)
    ensures !(EndsIn(a, n, Deadlock) && EndsIn(a, n, Refused))
    ensures !(Succeeded(a, n) && (EndsIn(a, n, Deadlock) || EndsIn(a, n, Refused)))
  {
    forall j, k | FirstBad(a, n, j) && FirstBad(a, n, k) ensures j == k {
    }
  }

  /** A series of attempts ends with the first one that does not end in a deadlock. */
  ghost predicate EndsAs(attempts: seq<Attempt>, n: nat, used: nat, v: Verdict) {
    && used <= |attempts|
    && (forall i :: 0 <= i < used - 1 ==> EndsIn(attempts[i], n, Deadlock))
    && match v
       case Done => used > 0 && Succeeded(attempts[used - 1], n)
       case Failed => used > 0 && EndsIn(attempts[used - 1], n, Refused)
       case Retrying => used == |attempts| && forall i :: 0 <= i < used ==> EndsIn(attempts[i], n, Deadlock)
  }

  /**
   The operation that is retried: count the statements down until one fails. A deadlock asks
   for another attempt, any other error is permanent.
   */
  method TryBatch(a: Attempt, n: nat) returns (v: Verdict)
    requires n <= |a.answers|
    ensures v == Done <==> Succeeded(a, n)
    ensures v == Retrying <==> EndsIn(a, n, Deadlock)
    ensures v == Failed <==> EndsIn(a, n, Refused)
  {
    OneEnd(a, n);
    var countOpts := n;
    while countOpts > 0
      invariant 0 <= countOpts <= n
      invariant forall i :: 0 <= i < n - countOpts ==> a.answers[i] == Fine
    {
      var answer := a.answers[n - countOpts];
      if answer == Fine {
        countOpts := countOpts - 1;
      } else {
        assert FirstBad(a, n, n - countOpts);
        if answer == Deadlock {
          return Retrying;
        }
        return Failed;
      }
    }
    return Done;
  }

  /**
   `sendBatch`: every attempt before the last one used ended in a deadlock. The call succeeds
   exactly when every statement of the last one succeeded, fails exactly when that one ended in
   another error, and goes on trying exactly when all attempts ended in a deadlock.
   */
  method SendBatch(attempts: seq<Attempt>, n: nat) returns (v: Verdict, used: nat)
    requires Answers(attempts, n)
    ensures EndsAs(attempts, n, used, v) && used <= |attempts|
    ensures forall i :: 0 <= i < used - 1 ==> EndsIn(attempts[i], n, Deadlock)
    ensures v == Done <==> used > 0 && Succeeded(attempts[used - 1], n)
    ensures v == Failed <==> used > 0 && EndsIn(attempts[used - 1], n, Refused)
    ensures v == Retrying <==> used == |attempts| && forall i :: 0 <= i < used ==> EndsIn(attempts[i], n, Deadlock)
  {
    used := 0;
    while used < |attempts|
      invariant used <= |attempts|
      invariant forall i :: 0 <= i < used ==> EndsIn(attempts[i], n, Deadlock)
    {
      OneEnd(attempts[used], n);
      v := TryBatch(attempts[used], n);
      used := used + 1;
      if v != Retrying {
        return;
      }
    }
    v := Retrying;
    if used > 0 {
      OneEnd(attempts[used - 1], n);
    }
  }

  // ---------------------------------------------------------------- chunking

  function Concat<T>(batches: seq<seq<T>>): seq<T> {
    if batches == [] then [] else Concat(batches[..|batches| - 1]) + batches[|batches| - 1]
  }

  lemma ConcatSnoc<T>(batches: seq<seq<T>>, b: seq<T>)
    ensures Concat(batches + [b]) == Concat(batches) + b
  {
    assert (batches + [b])[..|batches|] == batches;
  }

  /** Batches of 1 to 1000 rows, all but the last one full. */
  ghost predicate WellSized<T>(batches: seq<seq<T>>) {
    && (forall i :: 0 <= i < |batches| ==> 1 <= |batches[i]| <= 1000)
    && (forall i :: 0 <= i < |batches| - 1 ==> |batches[i]| == 1000)
  }

  ghost predicate AllFull<T>(batches: seq<seq<T>>) {
    forall i :: 0 <= i < |batches| ==> |batches[i]| == ROWS_PER_BATCH
  }

  /** `lasts[i]` is the last attempt at batch `i`: every statement of it succeeded. */
  ghost predicate AllFine<T>(sent: seq<seq<T>>, lasts: seq<Attempt>) {
    && |lasts| == |sent|
    && forall i :: 0 <= i < |sent| ==> Succeeded(lasts[i], |sent[i]|) && (lasts[i].closed ==> lasts[i].committed)
  }

  /** The rows of the batches whose implicit transaction was committed. */
  function Committed<T>(sent: seq<seq<T>>, lasts: seq<Attempt>): seq<T>
    requires |lasts| == |sent|
  {
    if sent == [] then []
    else
      var n := |sent| - 1;
      Committed(sent[..n], lasts[..n]) + if lasts[n].committed then sent[n] else []
  }

  /** How many of the `left` rows the next batch takes. */
  function NextBatch(left: nat): nat {
    if left < ROWS_PER_BATCH then left else ROWS_PER_BATCH
  }

  ghost predicate SendEnds(attempts: seq<Attempt>, n: nat, v: Verdict) {
    Answers(attempts, n) && exists used :: EndsAs(attempts, n, used, v)
  }

  /** What the server does with the attempts at each batch. */
  type Script = nat -> seq<Attempt>

  ghost predicate Plausible(script: Script) {
    forall b: nat :: Answers(script(b), ROWS_PER_BATCH)
  }

  /** `lasts[i]` is one of the attempts at batch `i`. */
  ghost predicate Follow(script: Script, lasts: seq<Attempt>) {
    forall i :: 0 <= i < |lasts| ==> lasts[i] in script(i)
  }

  /** What a call that ended with `v` has sent. */
  ghost predicate Saved<T>(input: seq<T>, script: Script, v: Verdict, sent: seq<seq<T>>, lasts: seq<Attempt>) {
    && WellSized(sent) && AllFine(sent, lasts) && Follow(script, lasts)
    && (v == Done ==> Concat(sent) == input)
    && (v != Done ==>
          && AllFull(sent) && Concat(sent) < input
          && SendEnds(script(|sent|), NextBatch(|input| - |Concat(sent)|), v))
  }

  class Table<T> {
    var rows: seq<T>

    constructor ()
      ensures rows == []
    {
      rows := [];
    }

    /** Sending one batch: it takes effect when it succeeds throughout and is committed. */
    method Send(batch: seq<T>, attempts: seq<Attempt>) returns (v: Verdict, last: Attempt)
      requires Answers(attempts, |batch|)
      modifies this
      ensures SendEnds(attempts, |batch|, v)
      ensures v == Done ==> last in attempts && Succeeded(last, |batch|) && (last.closed ==> last.committed)
      ensures rows == if v == Done && last.committed then old(rows) + batch else old(rows)
    {
      var used;
      v, used := SendBatch(attempts, |batch|);
      last := if used > 0 then attempts[used - 1] else Attempt([], false, false);
      if v == Done && last.committed {
        rows := rows + batch;
      }
    }

    /**
     The chunking loop. The batches sent concatenate to the input in order, are well sized, and
     had every statement answered with success in their last attempt; on success they are the
     whole input, otherwise the attempts at the next batch are what ended it. The table gains
     the rows of the batches that were committed.
     */
    method SaveRows(input: seq<T>, script: Script) returns (v: Verdict, sent: seq<seq<T>>, lasts: seq<Attempt>)
      requires Plausible(script)
      modifies this
      ensures Saved(input, script, v, sent, lasts)
      ensures rows == old(rows) + Committed(sent, lasts)
    {
      var total := 0;
      var batch: seq<T> := [];
      sent, lasts := [], [];
      for i := 0 to |input|
        invariant total == i && |lasts| == |sent|
        invariant Progress(input, i, sent, lasts, batch, script)
        invariant rows == old(rows) + Committed(sent, lasts)
      {
        ProgressAppend(input, i, sent, lasts, batch, script);
        batch, total := batch + [input[i]], total + 1;
        if |batch| >= ROWS_PER_BATCH || total == |input| {
          var last;
          v, last := SendNext(input, i, sent, lasts, batch, script, old(rows));
          if v != Done {
            return;
          }
          sent, lasts, batch := sent + [batch], lasts + [last], [];
        }
      }
      v := Done;
      ProgressDone(input, sent, lasts, batch, script);
    }

    method SendNext(
      ghost input: seq<T>, ghost i: nat, sent: seq<seq<T>>, ghost lasts: seq<Attempt>, batch: seq<T>, script: Script,
      ghost before: seq<T>)
      returns (v: Verdict, last: Attempt)
      requires |lasts| == |sent| && rows == before + Committed(sent, lasts)
      requires Plausible(script) && Appended(input, i, sent, lasts, batch, script)
      requires i + 1 == |input| || |batch| == ROWS_PER_BATCH
      modifies this
      ensures v == Done ==> Progress(input, i + 1, sent + [batch], lasts + [last], [], script)
      ensures v != Done ==> Saved(input, script, v, sent, lasts)
      ensures v == Done ==> rows == before + Committed(sent + [batch], lasts + [last])
      ensures v != Done ==> rows == old(rows)
    {
      FewerAnswers(script, |sent|, |batch|);
      v, last := Send(batch, script(|sent|));
      if v == Done {
        ProgressSend(input, i, sent, lasts, batch, script, last);
        CommittedSnoc(before, sent, lasts, batch, last);
      } else {
        Stops(input, i, sent, lasts, batch, script, v);
      }
    }
  }

  lemma FewerAnswers(script: Script, b: nat, n: nat)
    requires Plausible(script) && n <= ROWS_PER_BATCH
    ensures Answers(script(b), n)
  {
    assert Answers(script(b), ROWS_PER_BATCH);
  }

  /** After `i` rows: everything before is sent in full batches or waits in a partial one. */
  ghost predicate Progress<T>(
    input: seq<T>, i: nat, sent: seq<seq<T>>, lasts: seq<Attempt>, batch: seq<T>, script: Script) {
    && i <= |input|
    && Concat(sent) + batch == input[..i]
    && WellSized(sent) && AllFine(sent, lasts) && Follow(script, lasts)
    && (i < |input| ==> |batch| < ROWS_PER_BATCH && AllFull(sent))
    && (i == |input| ==> batch == [])
  }

  /** Row `i` has joined the batch, which has not been sent yet. */
  ghost predicate Appended<T>(
    input: seq<T>, i: nat, sent: seq<seq<T>>, lasts: seq<Attempt>, batch: seq<T>, script: Script) {
    && i < |input|
    && Concat(sent) + batch == input[..i + 1] && Concat(sent) < input
    && 1 <= |batch| <= ROWS_PER_BATCH
    && WellSized(sent) && AllFull(sent) && AllFine(sent, lasts) && Follow(script, lasts)
  }

  lemma ProgressAppend<T>(
    input: seq<T>, i: nat, sent: seq<seq<T>>, lasts: seq<Attempt>, batch: seq<T>, script: Script)
    requires i < |input| && Progress(input, i, sent, lasts, batch, script)
    ensures Appended(input, i, sent, lasts, batch + [input[i]], script)
  {
    var done := Concat(sent);
    assert done + (batch + [input[i]]) == (done + batch) + [input[i]];
    assert done == input[..|done|];
  }

  lemma ProgressSend<T>(
    input: seq<T>, i: nat, sent: seq<seq<T>>, lasts: seq<Attempt>, batch: seq<T>, script: Script, last: Attempt)
    requires Appended(input, i, sent, lasts, batch, script) && last in script(|lasts|)
    requires Succeeded(last, |batch|) && (last.closed ==> last.committed)
    requires i + 1 == |input| || |batch| == ROWS_PER_BATCH
    ensures Progress(input, i + 1, sent + [batch], lasts + [last], [], script)
  {
    ConcatSnoc(sent, batch);
    SizedSnoc(sent, batch);
    FineSnoc(sent, lasts, batch, script, last);
    var done := Concat(sent) + batch;
    assert Concat(sent + [batch]) + [] == done == input[..i + 1];
  }

  lemma FineSnoc<T>(sent: seq<seq<T>>, lasts: seq<Attempt>, batch: seq<T>, script: Script, last: Attempt)
    requires AllFine(sent, lasts) && Follow(script, lasts) && last in script(|lasts|)
    requires Succeeded(last, |batch|) && (last.closed ==> last.committed)
    ensures AllFine(sent + [batch], lasts + [last]) && Follow(script, lasts + [last])
  {
  }

  lemma Stops<T>(
    input: seq<T>, i: nat, sent: seq<seq<T>>, lasts: seq<Attempt>, batch: seq<T>, script: Script, v: Verdict)
    requires Appended(input, i, sent, lasts, batch, script) && SendEnds(script(|sent|), |batch|, v) && v != Done
    requires i + 1 == |input| || |batch| == ROWS_PER_BATCH
    ensures Saved(input, script, v, sent, lasts)
  {
    assert |Concat(sent) + batch| == i + 1;
  }

  lemma ProgressDone<T>(input: seq<T>, sent: seq<seq<T>>, lasts: seq<Attempt>, batch: seq<T>, script: Script)
    requires Progress(input, |input|, sent, lasts, batch, script)
    ensures Saved(input, script, Done, sent, lasts)
  {
    assert Concat(sent) + [] == Concat(sent);
    assert input[..|input|] == input;
  }

  lemma SizedSnoc<T>(batches: seq<seq<T>>, b: seq<T>)
    requires WellSized(batches) && AllFull(batches) && 1 <= |b| <= ROWS_PER_BATCH
    ensures WellSized(batches + [b])
    ensures |b| == ROWS_PER_BATCH ==> AllFull(batches + [b])
  {
  }

  lemma CommittedSnoc<T>(before: seq<T>, sent: seq<seq<T>>, lasts: seq<Attempt>, batch: seq<T>, last: Attempt)
    requires |lasts| == |sent|
    ensures before + Committed(sent + [batch], lasts + [last])
         == if last.committed then before + Committed(sent, lasts) + batch else before + Committed(sent, lasts)
  {
    assert (sent + [batch])[..|sent|] == sent && (lasts + [last])[..|lasts|] == lasts;
    assert before + Committed(sent, lasts) + batch == before + (Committed(sent, lasts) + batch);
  }

  // ---------------------------------------------------------------- what a reported success means

  ghost predicate AllClosed(lasts: seq<Attempt>) {
    forall i :: 0 <= i < |lasts| ==> lasts[i].closed
  }

  ghost predicate AllCommitted(lasts: seq<Attempt>) {
    forall i :: 0 <= i < |lasts| ==> lasts[i].committed
  }

  /** Two accounts of the same batches: the caller sees the same, the server may have done something else. */
  ghost predicate LooksLike(a: seq<Attempt>, b: seq<Attempt>) {
    && |a| == |b|
    && (forall i :: 0 <= i < |a| ==> a[i].answers == b[i].answers && a[i].closed == b[i].closed)
    && (forall i :: 0 <= i < |b| ==> b[i].closed ==> b[i].committed)
  }

  lemma {:induction false} CommittedLength<T>(sent: seq<seq<T>>, lasts: seq<Attempt>)
    requires |lasts| == |sent| && forall i :: 0 <= i < |sent| ==> sent[i] != []
    ensures |Committed(sent, lasts)| <= |Concat(sent)|
    ensures |Committed(sent, lasts)| == |Concat(sent)| <==> AllCommitted(lasts)
    ensures AllCommitted(lasts) ==> Committed(sent, lasts) == Concat(sent)
  {
    if sent != [] {
      var n := |sent| - 1;
      CommittedLength(sent[..n], lasts[..n]);
      assert AllCommitted(lasts) <==> AllCommitted(lasts[..n]) && lasts[n].committed by {
        assert forall i :: 0 <= i < n ==> lasts[..n][i] == lasts[i];
      }
    }
  }

  /**
   What a reported success is worth. The error of a close is logged and not returned, so from
   what the caller has seen every row is stored, whatever the server did that fits, if and only
   if every batch also closed cleanly.
   */
  lemma SuccessStoresAllIff<T>(input: seq<T>, sent: seq<seq<T>>, lasts: seq<Attempt>)
    requires Concat(sent) == input && WellSized(sent) && |lasts| == |sent|
    ensures (forall actual :: LooksLike(lasts, actual) ==> Committed(sent, actual) == input) <==> AllClosed(lasts)
  {
    forall actual | LooksLike(lasts, actual) ensures Committed(sent, actual) == input <==> AllCommitted(actual) {
      CommittedLength(sent, actual);
    }
    assert LooksLike(lasts, Worst(lasts));
  }

  /** The account in which the batches that did not close cleanly were not committed. */
  ghost function Worst(lasts: seq<Attempt>): (worst: seq<Attempt>)
    ensures LooksLike(lasts, worst) && (AllCommitted(worst) ==> AllClosed(lasts))
  {
    var worst := seq(|lasts|, i requires 0 <= i < |lasts| => lasts[i].(committed := lasts[i].closed));
    assert forall i :: 0 <= i < |lasts| ==> worst[i].committed == lasts[i].closed;
    worst
  }

  /** A call that reports success for any input and leaves the table as it was: no batch was committed. */
  method SuccessWithoutRows<T>(table: Table<T>, input: seq<T>) returns (v: Verdict)
    modifies table
    ensures v == Done && table.rows == old(table.rows)
  {
    var lost := Attempt(seq(ROWS_PER_BATCH, _ => Fine), false, false);
    var script: Script := _ => [lost];
    var sent, lasts;
    v, sent, lasts := table.SaveRows(input, script);
    if v != Done {
      OnlyDone(lost, NextBatch(|input| - |Concat(sent)|), v);
    }
    NothingCommitted(sent, lasts);
  }

  lemma {:induction false} NothingCommitted<T>(sent: seq<seq<T>>, lasts: seq<Attempt>)
    requires |lasts| == |sent| && forall i :: 0 <= i < |lasts| ==> !lasts[i].committed
    ensures Committed(sent, lasts) == []
  {
    if sent != [] {
      NothingCommitted(sent[..|sent| - 1], lasts[..|sent| - 1]);
    }
  }

  lemma OnlyDone(a: Attempt, n: nat, v: Verdict)
    requires Succeeded(a, n) && SendEnds([a], n, v)
    ensures v == Done
  {
    var used :| EndsAs([a], n, used, v);
    OneEnd(a, n);
    assert [a][0] == a;
  }
}
