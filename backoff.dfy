/** The retry driver of the `scraper` crate: it calls an action up to
    `MAX_RETRIES + 1` times, sleeping a capped, exponentially growing delay
    between retries, and stops at the first answer or at the first request
    to give up.

    The action is modelled as the stream of its outcomes: `action(i)` is what
    the i-th call (counting from 0) answers. Sleeping is modelled by
    recording the delay in milliseconds. */
module Backoff {
  import opened Common

  const MAX_RETRIES: nat := 5

  /** What one call of the action asks the driver to do. */
  datatype BackoffMessage<T> = Retry | Exit | Return(value: T)

  /** Why the driver gave no value: the retries ran out, or the action asked to stop. */
  datatype BackoffError = MaxRetries | Exit

  /** A whole run: its result, the delays slept in order, and the number of
      calls made. */
  datatype Trace<T> = Trace(result: Result<T, BackoffError>, waits: seq<nat>, calls: nat)

  function Pow2(n: nat): (r: nat)
    ensures r >= 1
  {
    if n == 0 then 1 else 2 * Pow2(n - 1)
  }

  function Min(a: nat, b: nat): nat {
    if a <= b then a else b
  }

  /** The delay before retry `k`, `min(2^min(k, 10) * 100, 30000)` ms. */
  function WaitTime(k: nat): (r: nat)
    ensures r <= 30000
  {
    Min(Pow2(Min(k, 10)) * 100, 30000)
  }

  /** The delays before retries 1, ..., k. */
  function Waits(k: nat): (r: seq<nat>)
    ensures |r| == k && forall i :: 0 <= i < k ==> r[i] == WaitTime(i + 1)
  {
    seq(k, i requires 0 <= i => WaitTime(i + 1))
  }

  /** The rest of a run entered with `tryCount` retries behind it; `calls`
      counts all calls of the run. */
  function Drive<T>(action: nat -> BackoffMessage<T>, tryCount: nat): Trace<T>
    decreases MAX_RETRIES + 1 - tryCount
  {
    if tryCount > MAX_RETRIES then Trace(Err(MaxRetries), [], tryCount)
    else match action(tryCount)
      case Return(v) => Trace(Ok(v), [], tryCount + 1)
      case Exit => Trace(Err(BackoffError.Exit), [], tryCount + 1)
      case Retry =>
        if tryCount + 1 > MAX_RETRIES then Trace(Err(MaxRetries), [], tryCount + 1)
        else
          var rest := Drive(action, tryCount + 1);
          Trace(rest.result, [WaitTime(tryCount + 1)] + rest.waits, rest.calls)
  }

  /** A whole run of the driver. */
  function Run<T>(action: nat -> BackoffMessage<T>): Trace<T> {
    Drive(action, 0)
  }

  /** A run is decided by its last call: every earlier call asked to retry,
      the last one answered, asked to stop, or was the sixth retry; one delay
      is slept after each retry but the last call's. */
  predicate Decided<T(==)>(action: nat -> BackoffMessage<T>, t: Trace<T>) {
    && 1 <= t.calls <= MAX_RETRIES + 1
    && t.waits == Waits(t.calls - 1)
    && (forall i :: 0 <= i < t.calls - 1 ==> action(i).Retry?)
    && (t.result.Ok? <==> action(t.calls - 1).Return?)
    && (t.result.Ok? ==> t.result.value == action(t.calls - 1).value)
    && (t.result.Err? && t.result.error.Exit? <==> action(t.calls - 1).Exit?)
    && (t.result.Err? && t.result.error.MaxRetries? <==> action(t.calls - 1).Retry?)
    && (action(t.calls - 1).Retry? ==> t.calls == MAX_RETRIES + 1)
  }

  /** One call of the driver, unfolded. */
  lemma DriveUnfold<T>(action: nat -> BackoffMessage<T>, k: nat)
    requires k <= MAX_RETRIES
    ensures action(k).Return? ==> Drive(action, k) == Trace(Ok(action(k).value), [], k + 1)
    ensures action(k).Exit? ==> Drive(action, k) == Trace(Err(BackoffError.Exit), [], k + 1)
    ensures action(k).Retry? && k + 1 > MAX_RETRIES ==> Drive(action, k) == Trace(Err(MaxRetries), [], k + 1)
    ensures action(k).Retry? && k + 1 <= MAX_RETRIES ==>
      var rest := Drive(action, k + 1);
      Drive(action, k) == Trace(rest.result, [WaitTime(k + 1)] + rest.waits, rest.calls)
  {
  }

  lemma WaitsAppend(a: seq<nat>, w: nat, b: seq<nat>)
    ensures a + ([w] + b) == (a + [w]) + b
  {
  }

  lemma WaitsStep(k: nat)
    ensures Waits(k) + [WaitTime(k + 1)] == Waits(k + 1)
  {
  }

  /** The trace of the calls from `k` on, with the delays before call `k`
      put in front. */
  function Shifted<T>(action: nat -> BackoffMessage<T>, k: nat): Trace<T> {
    var t := Drive(action, k);
    Trace(t.result, Waits(k) + t.waits, t.calls)
  }

  lemma ShiftStep<T>(action: nat -> BackoffMessage<T>, k: nat)
    requires k + 1 <= MAX_RETRIES && action(k).Retry?
    ensures Shifted(action, k) == Shifted(action, k + 1)
  {
    DriveUnfold(action, k);
    WaitsStep(k);
    WaitsAppend(Waits(k), WaitTime(k + 1), Drive(action, k + 1).waits);
  }

  lemma {:induction false} DriveDecided<T>(action: nat -> BackoffMessage<T>, k: nat)
    requires k <= MAX_RETRIES
    requires forall i :: 0 <= i < k ==> action(i).Retry?
    ensures Decided(action, Shifted(action, k))
    decreases MAX_RETRIES - k
  {
    if action(k).Retry? && k + 1 <= MAX_RETRIES {
      assert forall i :: 0 <= i < k + 1 ==> action(i).Retry?;
      DriveDecided(action, k + 1);
      ShiftStep(action, k);
    } else {
      DecidedHere(action, k);
    }
  }

  /** A call that answers, asks to stop or is the last one decides the run. */
  lemma DecidedHere<T>(action: nat -> BackoffMessage<T>, k: nat)
    requires k <= MAX_RETRIES && !(action(k).Retry? && k + 1 <= MAX_RETRIES)
    requires forall i :: 0 <= i < k ==> action(i).Retry?
    ensures Decided(action, Shifted(action, k))
  {
    var t := Drive(action, k);
    assert t.waits == [] && t.calls == k + 1;
    assert Waits(k) + t.waits == Waits(t.calls - 1);
  }

  /** Every run is decided by its last call. */
  lemma BackoffDecided<T>(action: nat -> BackoffMessage<T>)
    ensures Decided(action, Run(action))
  {
    DriveDecided(action, 0);
    assert Waits(0) + Run(action).waits == Run(action).waits;
  }

  /** `exponential_backoff`: the value of the first `Return`, `None` after an
      `Exit` or after the sixth `Retry`. */
  method ExponentialBackoff<T(==)>(action: nat -> BackoffMessage<T>) returns (r: Option<T>, waits: seq<nat>, calls: nat)
    ensures 1 <= calls <= MAX_RETRIES + 1
    ensures waits == Waits(calls - 1)
    ensures forall i :: 0 <= i < calls - 1 ==> action(i).Retry?
    ensures r.Some? <==> action(calls - 1).Return?
    ensures r.Some? ==> r.value == action(calls - 1).value
    ensures action(calls - 1).Retry? ==> calls == MAX_RETRIES + 1
    ensures r == Run(action).result.ToOption() && waits == Run(action).waits && calls == Run(action).calls
  {
    waits := [];
    calls := 0;
    var tryCount: nat := 0;
    Starts(action);
    while tryCount <= MAX_RETRIES
      invariant calls == tryCount && Pending(action, tryCount, waits)
    {
      var outcome := action(calls);
      calls := calls + 1;
      match outcome {
        case Return(v) =>
          Returns(action, tryCount, waits);
          r := Some(v);
          BackoffDecided(action);
          return;
        case Retry =>
          if tryCount + 1 > MAX_RETRIES {
            RunsOut(action, tryCount, waits);
            break;
          }
          Retries(action, tryCount, waits);
          tryCount := tryCount + 1;
          waits := waits + [WaitTime(tryCount)];
        case Exit =>
          Exits(action, tryCount, waits);
          r := None;
          BackoffDecided(action);
          return;
      }
    }
    r := None;
    BackoffDecided(action);
  }

  /** The loop of `exponential_backoff` has made the calls before `k`, and
      the rest of the run is what the driver does from `k` on. */
  ghost predicate Pending<T>(action: nat -> BackoffMessage<T>, k: nat, waits: seq<nat>) {
    && k <= MAX_RETRIES
    && Run(action).waits == waits + Drive(action, k).waits
    && Run(action).result == Drive(action, k).result
    && Run(action).calls == Drive(action, k).calls
  }

  lemma Starts<T>(action: nat -> BackoffMessage<T>)
    ensures Pending(action, 0, [])
  {
    assert [] + Drive(action, 0).waits == Drive(action, 0).waits;
  }

  lemma Returns<T>(action: nat -> BackoffMessage<T>, k: nat, waits: seq<nat>)
    requires Pending(action, k, waits) && action(k).Return?
    ensures Run(action).result == Ok(action(k).value) && Run(action).waits == waits && Run(action).calls == k + 1
  {
    DriveUnfold(action, k);
    assert waits + [] == waits;
  }

  lemma Exits<T>(action: nat -> BackoffMessage<T>, k: nat, waits: seq<nat>)
    requires Pending(action, k, waits) && action(k).Exit?
    ensures Run(action).result == Err(BackoffError.Exit) && Run(action).waits == waits && Run(action).calls == k + 1
  {
    DriveUnfold(action, k);
    assert waits + [] == waits;
  }

  lemma RunsOut<T>(action: nat -> BackoffMessage<T>, k: nat, waits: seq<nat>)
    requires Pending(action, k, waits) && action(k).Retry? && k + 1 > MAX_RETRIES
    ensures Run(action).result == Err(MaxRetries) && Run(action).waits == waits && Run(action).calls == k + 1
  {
    DriveUnfold(action, k);
    assert waits + [] == waits;
  }

  lemma Retries<T>(action: nat -> BackoffMessage<T>, k: nat, waits: seq<nat>)
    requires Pending(action, k, waits) && action(k).Retry? && k + 1 <= MAX_RETRIES
    ensures Pending(action, k + 1, waits + [WaitTime(k + 1)])
  {
    DriveUnfold(action, k);
    WaitsAppend(waits, WaitTime(k + 1), Drive(action, k + 1).waits);
  }

  /** The first answer is returned at once, after the delays of the retries before it. */
  lemma FirstReturnWins<T>(action: nat -> BackoffMessage<T>, k: nat, v: T)
    requires k <= MAX_RETRIES && action(k).Return? && action(k).value == v
    requires forall i :: 0 <= i < k ==> action(i).Retry?
    ensures Run(action).result.Ok? && Run(action).result.value == v
    ensures Run(action).waits == Waits(k) && Run(action).calls == k + 1
  {
    BackoffDecided(action);
  }

  /** A request to stop ends the run at once: no further call and no further sleep. */
  lemma ExitStops<T>(action: nat -> BackoffMessage<T>, k: nat)
    requires k <= MAX_RETRIES && action(k).Exit?
    requires forall i :: 0 <= i < k ==> action(i).Retry?
    ensures Run(action).result.Err? && Run(action).result.error.Exit?
    ensures Run(action).waits == Waits(k) && Run(action).calls == k + 1
  {
    BackoffDecided(action);
  }

  /** Six retries in a row give up after exactly five sleeps of 200, 400,
      800, 1600 and 3200 ms. */
  lemma SixRetriesGiveUp<T>(action: nat -> BackoffMessage<T>)
    requires forall i :: 0 <= i <= MAX_RETRIES ==> action(i).Retry?
    ensures Run(action).result.Err? && Run(action).result.error.MaxRetries?
    ensures Run(action).waits == [200, 400, 800, 1600, 3200] && Run(action).calls == 6
  {
    BackoffDecided(action);
    var t := Run(action);
    assert action(t.calls - 1).Retry?;
    assert Waits(5) == [WaitTime(1), WaitTime(2), WaitTime(3), WaitTime(4), WaitTime(5)];
    WaitTimeValues();
  }

  /** The action is called at most six times and no delay exceeds 30 s. */
  lemma BackoffBounds<T>(action: nat -> BackoffMessage<T>)
    ensures Run(action).calls <= MAX_RETRIES + 1
    ensures |Run(action).waits| <= MAX_RETRIES
    ensures forall i :: 0 <= i < |Run(action).waits| ==> Run(action).waits[i] <= 30000
  {
    BackoffDecided(action);
  }

  lemma WaitTimeValues()
    ensures WaitTime(1) == 200 && WaitTime(2) == 400 && WaitTime(3) == 800
    ensures WaitTime(4) == 1600 && WaitTime(5) == 3200
  {
  }

  /** From the ninth retry on the delay is the 30 s cap; it never decreases. */
  lemma WaitTimeGrowsToCap(j: nat, k: nat)
    ensures k >= 9 ==> WaitTime(k) == 30000
    ensures j <= k ==> WaitTime(j) <= WaitTime(k)
  {
    if k >= 9 { Pow2Monotone(9, Min(k, 10)); }
    if j <= k { Pow2Monotone(Min(j, 10), Min(k, 10)); }
  }

  lemma {:induction false} Pow2Monotone(a: nat, b: nat)
    requires a <= b
    ensures Pow2(a) <= Pow2(b)
    decreases b
  {
    if a < b { Pow2Monotone(a, b - 1); }
  }
}
