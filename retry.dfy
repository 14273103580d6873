/** The bounded retry wrapper around every network call (main.js:18-30). */
module RetryPolicy {
  import opened Oracle

  /** Attempts per network operation (main.js:15). */
  const MAX_RETRIES: int := 5

  /** What `retry` hands back: the first value returned, the error of the
      final failed attempt (rethrown unchanged), or `undefined` when the loop
      never runs because `maxRetries <= 0`. */
  datatype RetryResult<+T> = Returned(value: T) | Thrown(error: Error) | Undefined

  /** The warning printed before a retry: "Retrying... (attempt/maxRetries)". */
  datatype Warning = Warning(attempt: nat, maxRetries: int)

  /** The result of one `retry` together with what it did on the way: how many
      times it called the operation, the warnings it printed, and how many
      times it slept. */
  datatype RetryRun<+T> = RetryRun(result: RetryResult<T>, calls: nat, warnings: seq<Warning>, sleeps: nat)

  /** The warnings printed after the first `n` failed attempts. */
  function Warnings(n: nat, maxRetries: int): seq<Warning>
  {
    seq(n, (j: nat) => Warning(j + 1, maxRetries))
  }

  /** What `retry` does from loop index `i` on, having seen attempts 0..i-1 fail. */
  function RetryFrom<T>(op: nat -> Attempt<T>, maxRetries: int, i: nat): (run: RetryRun<T>)
    ensures i < maxRetries ==> i < run.calls <= maxRetries && !run.result.Undefined?
    ensures maxRetries <= i ==> run.result.Undefined? && run.calls == i
    decreases maxRetries - i
  {
    if maxRetries <= i then
      RetryRun(Undefined, i, Warnings(i, maxRetries), i)
    else
      match op(i)
      case Ok(v) => RetryRun(Returned(v), i + 1, Warnings(i, maxRetries), i)
      case Threw(e) =>
        if i == maxRetries - 1 then RetryRun(Thrown(e), i + 1, Warnings(i, maxRetries), i)
        else RetryFrom(op, maxRetries, i + 1)
  }

  /** The specification of `retry(op, maxRetries)`. */
  function RetryOutcome<T>(op: nat -> Attempt<T>, maxRetries: int): (run: RetryRun<T>)
    ensures 0 < maxRetries ==> 1 <= run.calls <= maxRetries && !run.result.Undefined?
    ensures maxRetries <= 0 ==> run == RetryRun(Undefined, 0, [], 0)
  {
    RetryFrom(op, maxRetries, 0)
  }

  /** The loop of main.js:19-29: the j-th call of the operation is `op(j)`;
      `sleep` is recorded as a counted no-op. */
  method Retry<T>(op: nat -> Attempt<T>, maxRetries: int) returns (run: RetryRun<T>)
    ensures run == RetryOutcome(op, maxRetries)
  {
    var calls, warnings, sleeps := 0, [], 0;
    var i := 0;
    while i < maxRetries
      invariant 0 < i ==> i < maxRetries
      invariant calls == i && sleeps == i && warnings == Warnings(i, maxRetries)
      invariant RetryFrom(op, maxRetries, i) == RetryOutcome(op, maxRetries)
      decreases maxRetries - i
    {
      calls := calls + 1;
      match op(i) {
        case Ok(v) =>
          return RetryRun(Returned(v), calls, warnings, sleeps);
        case Threw(e) =>
          if i == maxRetries - 1 {
            return RetryRun(Thrown(e), calls, warnings, sleeps);
          }
          warnings := warnings + [Warning(i + 1, maxRetries)];
          sleeps := sleeps + 1;
      }
      i := i + 1;
    }
    run := RetryRun(Undefined, calls, warnings, sleeps);
  }

  /** From index `i` on: every attempt before the last one failed, each failure
      but the last was followed by one warning and one sleep, and the result is
      the last attempt's value or, only when the attempts ran out, its error. */
  lemma {:induction false} RetryFromShape<T>(op: nat -> Attempt<T>, maxRetries: int, i: nat)
    requires i < maxRetries
    ensures var run := RetryFrom(op, maxRetries, i);
      && run.warnings == Warnings(run.calls - 1, maxRetries)
      && run.sleeps == run.calls - 1
      && (forall j :: i <= j < run.calls - 1 ==> op(j).Threw?)
      && (run.result.Returned? ==> op(run.calls - 1) == Ok(run.result.value))
      && (run.result.Thrown? ==> run.calls == maxRetries && op(run.calls - 1) == Threw(run.result.error))
    decreases maxRetries - i
  {
    if op(i).Threw? && i < maxRetries - 1 {
      RetryFromShape(op, maxRetries, i + 1);
    }
  }

  /** The complete behaviour of `retry`, stated without reference to its loop. */
  lemma RetryShape<T>(op: nat -> Attempt<T>, maxRetries: int)
    requires 0 < maxRetries
    ensures var run := RetryOutcome(op, maxRetries);
      && 1 <= run.calls <= maxRetries
      && run.warnings == Warnings(run.calls - 1, maxRetries)
      && run.sleeps == run.calls - 1
      && (forall j :: 0 <= j < run.calls - 1 ==> op(j).Threw?)
      && (run.result.Returned? ==> op(run.calls - 1) == Ok(run.result.value))
      && (run.result.Thrown? ==> run.calls == maxRetries && op(run.calls - 1) == Threw(run.result.error))
  {
    RetryFromShape(op, maxRetries, 0);
  }

  /** k failures followed by a success: the value is returned after exactly
      k + 1 calls, k warnings and k sleeps, and nothing after attempt k is asked. */
  lemma RetrySucceedsAfterFailures<T>(op: nat -> Attempt<T>, maxRetries: int, k: nat)
    requires k < maxRetries
    requires forall j :: 0 <= j < k ==> op(j).Threw?
    requires op(k).Ok?
    ensures RetryOutcome(op, maxRetries) == RetryRun(Returned(op(k).value), k + 1, Warnings(k, maxRetries), k)
  {
    RetryShape(op, maxRetries);
  }

  /** Every attempt fails: exactly maxRetries calls, maxRetries - 1 warnings
      (none after the final failure), and the last error is rethrown as is. */
  lemma RetryExhausted<T>(op: nat -> Attempt<T>, maxRetries: int)
    requires 0 < maxRetries
    requires forall j :: 0 <= j < maxRetries ==> op(j).Threw?
    ensures RetryOutcome(op, maxRetries)
      == RetryRun(Thrown(op(maxRetries - 1).error), maxRetries, Warnings(maxRetries - 1, maxRetries), maxRetries - 1)
  {
    RetryShape(op, maxRetries);
  }

  /** `retry` throws exactly when every one of its attempts throws. */
  lemma RetryThrowsIffAllFail<T>(op: nat -> Attempt<T>, maxRetries: int)
    requires 0 < maxRetries
    ensures RetryOutcome(op, maxRetries).result.Thrown? <==> forall j :: 0 <= j < maxRetries ==> op(j).Threw?
  {
    RetryShape(op, maxRetries);
    if forall j :: 0 <= j < maxRetries ==> op(j).Threw? {
      RetryExhausted(op, maxRetries);
    }
  }

  /** `retry` makes no call beyond the ones it reports: two operations that
      agree on those attempts give the same run. */
  lemma {:induction false} RetryFromNoFurtherCalls<T>(op: nat -> Attempt<T>, other: nat -> Attempt<T>, maxRetries: int, i: nat)
    requires forall j :: i <= j < RetryFrom(op, maxRetries, i).calls ==> op(j) == other(j)
    ensures RetryFrom(other, maxRetries, i) == RetryFrom(op, maxRetries, i)
    decreases maxRetries - i
  {
    if i < maxRetries {
      assert op(i) == other(i);
      if op(i).Threw? && i < maxRetries - 1 {
        RetryFromNoFurtherCalls(op, other, maxRetries, i + 1);
      }
    }
  }

  lemma RetryNoFurtherCalls<T>(op: nat -> Attempt<T>, other: nat -> Attempt<T>, maxRetries: int)
    requires forall j :: 0 <= j < RetryOutcome(op, maxRetries).calls ==> op(j) == other(j)
    ensures RetryOutcome(other, maxRetries) == RetryOutcome(op, maxRetries)
  {
    RetryFromNoFurtherCalls(op, other, maxRetries, 0);
  }
}
