/** The older retry driver of `src/exponential_backoff.rs`: the same loop as
    the `scraper` crate's, with a `debug` flag that turns on console messages.
    The messages are modelled as a returned log; the elapsed times they print
    come from the clock and are left out of the log lines. */
module LegacyBackoff {
  import opened Common
  import opened Backoff

  /** One console message of the debug mode. */
  datatype LogLine =
    | Succeeded(retries: nat)
    | Waiting(retry: nat, maxRetries: nat, waitMs: nat)
    | ReachedMaxRetries
    | Exited(retries: nat)
    | Exhausted

  /** The messages printed by the rest of a debug run entered with `tryCount`
      retries behind it. */
  function DriveLog<T>(action: nat -> BackoffMessage<T>, tryCount: nat): seq<LogLine>
    decreases MAX_RETRIES + 1 - tryCount
  {
    if tryCount > MAX_RETRIES then [Exhausted]
    else match action(tryCount)
      case Return(_) => [Succeeded(tryCount)]
      case Exit => [Exited(tryCount)]
      case Retry =>
        if tryCount + 1 > MAX_RETRIES then [ReachedMaxRetries, Exhausted]
        else [Waiting(tryCount + 1, MAX_RETRIES, WaitTime(tryCount + 1))] + DriveLog(action, tryCount + 1)
  }

  /** The messages of a whole debug run. */
  function DebugLog<T>(action: nat -> BackoffMessage<T>): seq<LogLine> {
    DriveLog(action, 0)
  }

  /** The delays announced by the `Waiting` messages of a log, in order. */
  function AnnouncedWaits(log: seq<LogLine>): seq<nat> {
    if log == [] then [] else Announced(log[0]) + AnnouncedWaits(log[1..])
  }

  /** The delay one message announces, if it is a `Waiting` message. */
  function Announced(line: LogLine): seq<nat> {
    if line.Waiting? then [line.waitMs] else []
  }

  /** `exponential_backoff(action, debug)`: the result, the delays and the
      number of calls are those of the newer driver whatever `debug` is; the
      log is empty unless `debug` is set. */
  method ExponentialBackoff<T(==)>(action: nat -> BackoffMessage<T>, debug: bool)
    returns (r: Option<T>, waits: seq<nat>, calls: nat, log: seq<LogLine>)
    ensures r == Run(action).result.ToOption() && waits == Run(action).waits && calls == Run(action).calls
    ensures log == if debug then DebugLog(action) else []
  {
    waits := [];
    calls := 0;
    log := [];
    var tryCount: nat := 0;
    Starts(action, debug);
    while tryCount <= MAX_RETRIES
      invariant calls == tryCount && Resumes(action, debug, tryCount, waits, log)
    {
      var outcome := action(calls);
      calls := calls + 1;
      match outcome {
        case Return(v) =>
          Returns(action, debug, tryCount, waits, log);
          if debug {
            log := log + [Succeeded(tryCount)];
          }
          r := Some(v);
          return;
        case Retry =>
          if tryCount + 1 > MAX_RETRIES {
            RunsOut(action, debug, tryCount, waits, log);
            if debug {
              log := log + [ReachedMaxRetries];
            }
            tryCount := tryCount + 1;
            break;
          }
          Retries(action, debug, tryCount, waits, log);
          tryCount := tryCount + 1;
          var waitTime := WaitTime(tryCount);
          if debug {
            log := log + [Waiting(tryCount, MAX_RETRIES, waitTime)];
          }
          waits := waits + [waitTime];
        case Exit =>
          Exits(action, debug, tryCount, waits, log);
          if debug {
            log := log + [Exited(tryCount)];
          }
          r := None;
          return;
      }
    }
    if debug {
      log := log + [Exhausted];
    }
    r := None;
  }

  /** The loop of a run entered with `k` retries behind it, `waits` slept
      and `log` printed: what remains is `Drive(action, k)` and `DriveLog(action, k)`. */
  ghost predicate Resumes<T>(action: nat -> BackoffMessage<T>, debug: bool, k: nat, waits: seq<nat>, log: seq<LogLine>) {
    && k <= MAX_RETRIES
    && Run(action).waits == waits + Drive(action, k).waits
    && Run(action).result == Drive(action, k).result
    && Run(action).calls == Drive(action, k).calls
    && (if debug then DebugLog(action) == log + DriveLog(action, k) else log == [])
  }

  lemma Starts<T>(action: nat -> BackoffMessage<T>, debug: bool)
    ensures Resumes(action, debug, 0, [], [])
  {
    assert [] + Drive(action, 0).waits == Drive(action, 0).waits;
    assert [] + DriveLog(action, 0) == DriveLog(action, 0);
  }

  /** A `Return` at call `k` ends the run with its value. */
  lemma Returns<T>(action: nat -> BackoffMessage<T>, debug: bool, k: nat, waits: seq<nat>, log: seq<LogLine>)
    requires Resumes(action, debug, k, waits, log) && action(k).Return?
    ensures Run(action).result.ToOption() == Some(action(k).value) && Run(action).waits == waits && Run(action).calls == k + 1
    ensures if debug then DebugLog(action) == log + [Succeeded(k)] else log == []
  {
    StepFacts(action, k);
    assert waits + [] == waits;
  }

  /** An `Exit` at call `k` ends the run with nothing. */
  lemma Exits<T>(action: nat -> BackoffMessage<T>, debug: bool, k: nat, waits: seq<nat>, log: seq<LogLine>)
    requires Resumes(action, debug, k, waits, log) && action(k).Exit?
    ensures Run(action).result.ToOption() == None && Run(action).waits == waits && Run(action).calls == k + 1
    ensures if debug then DebugLog(action) == log + [Exited(k)] else log == []
  {
    StepFacts(action, k);
    assert waits + [] == waits;
  }

  /** A `Retry` at the last call ends the run with nothing. */
  lemma RunsOut<T>(action: nat -> BackoffMessage<T>, debug: bool, k: nat, waits: seq<nat>, log: seq<LogLine>)
    requires Resumes(action, debug, k, waits, log) && action(k).Retry? && k + 1 > MAX_RETRIES
    ensures Run(action).result.ToOption() == None && Run(action).waits == waits && Run(action).calls == k + 1
    ensures if debug then DebugLog(action) == log + [ReachedMaxRetries] + [Exhausted] else log == []
  {
    StepFacts(action, k);
    assert waits + [] == waits;
    assert log + [ReachedMaxRetries, Exhausted] == log + [ReachedMaxRetries] + [Exhausted];
  }

  /** Any other `Retry` sleeps, announces the delay and goes on. */
  lemma Retries<T>(action: nat -> BackoffMessage<T>, debug: bool, k: nat, waits: seq<nat>, log: seq<LogLine>)
    requires Resumes(action, debug, k, waits, log) && action(k).Retry? && k + 1 <= MAX_RETRIES
    ensures Resumes(action, debug, k + 1, waits + [WaitTime(k + 1)],
                    if debug then log + [Waiting(k + 1, MAX_RETRIES, WaitTime(k + 1))] else log)
  {
    StepFacts(action, k);
    var w := WaitTime(k + 1);
    var line := Waiting(k + 1, MAX_RETRIES, w);
    assert waits + ([w] + Drive(action, k + 1).waits) == (waits + [w]) + Drive(action, k + 1).waits;
    assert log + ([line] + DriveLog(action, k + 1)) == (log + [line]) + DriveLog(action, k + 1);
  }

  /** One unfolding of `Drive` and `DriveLog` at the `tryCount`-th call. */
  lemma StepFacts<T>(action: nat -> BackoffMessage<T>, k: nat)
    requires k <= MAX_RETRIES
    ensures action(k).Return? ==> Drive(action, k) == Trace(Ok(action(k).value), [], k + 1) && DriveLog(action, k) == [Succeeded(k)]
    ensures action(k).Exit? ==> Drive(action, k) == Trace(Err(BackoffError.Exit), [], k + 1) && DriveLog(action, k) == [Exited(k)]
    ensures action(k).Retry? && k + 1 > MAX_RETRIES ==>
      Drive(action, k) == Trace(Err(MaxRetries), [], k + 1) && DriveLog(action, k) == [ReachedMaxRetries, Exhausted]
    ensures action(k).Retry? && k + 1 <= MAX_RETRIES ==>
      && Drive(action, k).result == Drive(action, k + 1).result
      && Drive(action, k).waits == [WaitTime(k + 1)] + Drive(action, k + 1).waits
      && Drive(action, k).calls == Drive(action, k + 1).calls
      && DriveLog(action, k) == [Waiting(k + 1, MAX_RETRIES, WaitTime(k + 1))] + DriveLog(action, k + 1)
  {
  }

  lemma {:induction false} AnnouncedWaitsAppend(a: seq<LogLine>, b: seq<LogLine>)
    ensures AnnouncedWaits(a + b) == AnnouncedWaits(a) + AnnouncedWaits(b)
  {
    if a == [] {
      assert a + b == b;
    } else {
      AnnouncedWaitsAppend(a[1..], b);
      AnnouncedCons(a, b);
      NatsAssoc(Announced(a[0]), AnnouncedWaits(a[1..]), AnnouncedWaits(b));
    }
  }

  lemma AnnouncedCons(a: seq<LogLine>, b: seq<LogLine>)
    requires a != []
    ensures AnnouncedWaits(a + b) == Announced(a[0]) + AnnouncedWaits(a[1..] + b)
  {
    assert (a + b)[0] == a[0];
    assert (a + b)[1..] == a[1..] + b;
  }

  lemma NatsAssoc(x: seq<nat>, y: seq<nat>, z: seq<nat>)
    ensures x + (y + z) == (x + y) + z
  {
  }

  lemma ClosingAnnouncesNothing(line: LogLine)
    requires !line.Waiting?
    ensures AnnouncedWaits([line]) == []
  {
    assert [line][1..] == [];
  }

  /** The `Waiting` messages of a debug run announce exactly the delays slept. */
  lemma {:induction false} DriveLogAnnouncesWaits<T>(action: nat -> BackoffMessage<T>, k: nat)
    ensures AnnouncedWaits(DriveLog(action, k)) == Drive(action, k).waits
    decreases MAX_RETRIES + 1 - k
  {
    if k <= MAX_RETRIES && action(k).Retry? && k + 1 <= MAX_RETRIES {
      DriveLogAnnouncesWaits(action, k + 1);
      var w := Waiting(k + 1, MAX_RETRIES, WaitTime(k + 1));
      AnnouncedWaitsAppend([w], DriveLog(action, k + 1));
      assert [w][1..] == [];
    } else if k <= MAX_RETRIES && action(k).Retry? {
      AnnouncedWaitsAppend([ReachedMaxRetries], [Exhausted]);
      ClosingAnnouncesNothing(ReachedMaxRetries);
      ClosingAnnouncesNothing(Exhausted);
    } else {
      ClosingAnnouncesNothing(DriveLog(action, k)[0]);
    }
  }

  /** A debug run announces every delay it sleeps and ends with one closing
      message that states how it ended. */
  lemma DebugLogShape<T>(action: nat -> BackoffMessage<T>)
    ensures AnnouncedWaits(DebugLog(action)) == Run(action).waits
    ensures |DebugLog(action)| >= 1
    ensures Run(action).result.Ok? <==> Last(DebugLog(action)).Succeeded?
    ensures Run(action).result.Err? && Run(action).result.error.Exit? <==> Last(DebugLog(action)).Exited?
    ensures Run(action).result.Err? && Run(action).result.error.MaxRetries? <==> Last(DebugLog(action)).Exhausted?
  {
    DriveLogAnnouncesWaits(action, 0);
    DriveLogEnds(action, 0);
  }

  lemma {:induction false} DriveLogEnds<T>(action: nat -> BackoffMessage<T>, k: nat)
    ensures |DriveLog(action, k)| >= 1
    ensures Drive(action, k).result.Ok? <==> Last(DriveLog(action, k)).Succeeded?
    ensures Drive(action, k).result.Err? && Drive(action, k).result.error.Exit? <==> Last(DriveLog(action, k)).Exited?
    ensures Drive(action, k).result.Err? && Drive(action, k).result.error.MaxRetries? <==> Last(DriveLog(action, k)).Exhausted?
    decreases MAX_RETRIES + 1 - k
  {
    if k <= MAX_RETRIES && action(k).Retry? && k + 1 <= MAX_RETRIES {
      DriveLogEnds(action, k + 1);
      var w := Waiting(k + 1, MAX_RETRIES, WaitTime(k + 1));
      assert Last(DriveLog(action, k)) == Last(DriveLog(action, k + 1));
    }
  }

  function Last(log: seq<LogLine>): LogLine
    requires |log| >= 1
  {
    log[|log| - 1]
  }
}
