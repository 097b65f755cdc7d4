/**
 `withBackoff` of packages/capability-sdk/src/primitives/retry.ts. The operation, the sleep and the
 random jitter are oracles; delays are reals.
 */
module Retry {
  import opened Wrappers
  import opened Numbers

  datatype Failure = Failure(isError: bool, message: string)

  /** What one call of the operation does; `retryAfter` is the parsed header when there is a non-empty one. */
  datatype Attempt =
    | Value(status: Option<int>, retryAfter: Option<real>, content: nat)
    | Throws(failure: Failure)

  datatype Options = Options(
    max_attempts: int,
    base_delay_ms: real,
    max_delay_ms: real,
    jitter: bool,
    retryable_status_codes: Option<seq<int>>)

  /** `sleep(n, again)` fails or not; `again` when the sleep after a failed sleep of the same attempt is meant. */
  datatype Env = Env(operation: nat -> Attempt, sleep: (nat, bool) -> Option<Failure>, random: nat -> real)

  datatype Reason = Status(code: int) | Message(text: string) | OperationFailed

  datatype Report = Report(attempt: nat, delay_ms: real, reason: Reason)

  datatype Outcome = Resolved(value: Attempt) | Rejected(failure: Failure)

  /** How often the operation was called, what was reported (and waited for), and how it ended. */
  datatype Run = Run(calls: nat, reports: seq<Report>, outcome: Outcome)

  const GAVE_UP := Failure(true, "Retry operation failed")

  function Codes(o: Options): seq<int> {
    if o.retryable_status_codes.Some? then o.retryable_status_codes.value
    else [408, 409, 425, 429, 500, 502, 503, 504]
  }

  /** A thrown error, or a value with one of the retryable status codes. */
  predicate Retryable(o: Options, a: Attempt) {
    a.Throws? || (a.status.Some? && a.status.value in Codes(o))
  }

  function MinReal(a: real, b: real): real {
    if a <= b then a else b
  }

  function MaxReal(a: real, b: real): real {
    if a >= b then a else b
  }

  function BaseDelay(o: Options, attempt: nat): real
    requires attempt >= 1
  {
    MinReal(o.max_delay_ms, o.base_delay_ms * Pow2(attempt - 1) as real)
  }

  function Jittered(base: real, random: real): real {
    (base * (0.5 + random * 0.5)).Floor as real
  }

  function ComputeDelay(env: Env, o: Options, attempt: nat): real
    requires attempt >= 1
  {
    var base := BaseDelay(o, attempt);
    if !o.jitter then base else Jittered(base, env.random(attempt))
  }

  function RetryDelay(env: Env, o: Options, value: Attempt, attempt: nat): real
    requires attempt >= 1 && value.Value?
  {
    if value.retryAfter.Some? then MinReal(o.max_delay_ms, MaxReal(0.0, value.retryAfter.value))
    else ComputeDelay(env, o, attempt)
  }

  function ReasonOf(f: Failure): Reason {
    if f.isError then Message(f.message) else OperationFailed
  }

  function AsError(f: Failure): Failure {
    if f.isError then f else GAVE_UP
  }

  /** The catch block after attempt `n`: the report, and the failure of its sleep. */
  function CatchReport(env: Env, o: Options, n: nat, f: Failure): Report
    requires n >= 1
  {
    Report(n, ComputeDelay(env, o, n), ReasonOf(f))
  }

  function Add(reports: seq<Report>, run: Run): Run {
    Run(run.calls + 1, reports + run.reports, run.outcome)
  }

  /** The loop from attempt `n` on. A sleep that fails in the try block lands in the catch block too. */
  function From(env: Env, o: Options, n: nat): Run
    requires 1 <= n <= o.max_attempts
    decreases o.max_attempts - n
  {
    match env.operation(n)
    case Value(status, _, _) =>
      var value := env.operation(n);
      if status.Some? && status.value in Codes(o) && n < o.max_attempts then
        var report := Report(n, RetryDelay(env, o, value, n), Status(status.value));
        var slept := env.sleep(n, false);
        if slept.None? then Add([report], From(env, o, n + 1))
        else
          var again := CatchReport(env, o, n, slept.value);
          if env.sleep(n, true).Some? then Run(1, [report, again], Rejected(env.sleep(n, true).value))
          else Add([report, again], From(env, o, n + 1))
      else Run(1, [], Resolved(value))
    case Throws(failure) =>
      if n >= o.max_attempts then Run(1, [], Rejected(AsError(failure)))
      else
        var report := CatchReport(env, o, n, failure);
        if env.sleep(n, false).Some? then Run(1, [report], Rejected(env.sleep(n, false).value))
        else Add([report], From(env, o, n + 1))
  }

  function RunOf(env: Env, o: Options): Run {
    if o.max_attempts < 1 then Run(0, [], Rejected(GAVE_UP)) else From(env, o, 1)
  }

  function After(calls: nat, reports: seq<Report>, run: Run): Run {
    Run(calls + run.calls, reports + run.reports, run.outcome)
  }

  lemma AfterAdd(calls: nat, reports: seq<Report>, more: seq<Report>, run: Run)
    ensures After(calls, reports, Add(more, run)) == After(calls + 1, reports + more, run)
  {
    assert reports + (more + run.reports) == (reports + more) + run.reports;
  }

  method WithBackoff(env: Env, o: Options) returns (run: Run)
    ensures run == RunOf(env, o)
  {
    hide After, Add, ComputeDelay, RetryDelay, Codes;
    var attempts: seq<Report> := [];
    ghost var all := RunOf(env, o);
    var lastError: Option<Failure> := None;
    var attempt := 1;
    AfterNothing(all);
    while attempt <= o.max_attempts
      invariant 1 <= attempt && (o.max_attempts >= 1 ==> attempt <= o.max_attempts)
      invariant o.max_attempts >= 1 ==> all == After(attempt - 1, attempts, From(env, o, attempt))
      invariant o.max_attempts < 1 ==> attempts == [] && attempt == 1 && lastError.None?
      decreases o.max_attempts - attempt
    {
      ghost var before := attempts;
      var value := env.operation(attempt);
      var error: Failure;
      if value.Value? {
        if value.status.Some? && value.status.value in Codes(o) && attempt < o.max_attempts {
          var report := Report(attempt, RetryDelay(env, o, value, attempt), Status(value.status.value));
          attempts := attempts + [report];
          var slept := env.sleep(attempt, false);
          if slept.None? {
            AfterAdd(attempt - 1, before, [report], From(env, o, attempt + 1));
            attempt := attempt + 1;
            continue;
          }
          error := slept.value;
        } else {
          AfterEnd(attempt - 1, attempts, Run(1, [], Resolved(value)));
          assert attempts + [] == attempts;
          return Run(attempt, attempts, Resolved(value));
        }
      } else {
        error := value.failure;
      }
      lastError := Some(error);
      if attempt >= o.max_attempts {
        AfterEnd(attempt - 1, attempts, Run(1, [], Rejected(AsError(error))));
        assert attempts + [] == attempts;
        return Run(attempt, attempts, Rejected(AsError(lastError.value)));
      }
      ghost var caught := CatchReport(env, o, attempt, error);
      ghost var extra := if value.Value? then [attempts[|attempts| - 1], caught] else [caught];
      attempts := attempts + [Report(attempt, ComputeDelay(env, o, attempt), ReasonOf(error))];
      assert attempts == before + extra;
      var sleptAgain := env.sleep(attempt, value.Value?);
      if sleptAgain.Some? {
        AfterEnd(attempt - 1, before, Run(1, extra, Rejected(sleptAgain.value)));
        return Run(attempt, attempts, Rejected(sleptAgain.value));
      }
      AfterAdd(attempt - 1, before, extra, From(env, o, attempt + 1));
      attempt := attempt + 1;
    }
    run := Run(0, attempts, Rejected(GAVE_UP));
  }

  lemma AfterNothing(run: Run)
    ensures After(0, [], run) == run
  {
  }

  lemma AfterEnd(calls: nat, reports: seq<Report>, run: Run)
    ensures After(calls, reports, run) == Run(calls + run.calls, reports + run.reports, run.outcome)
  {
  }

  // ---------------------------------------------------------------- delays

  ghost predicate SaneDelays(env: Env, o: Options) {
    o.base_delay_ms >= 0.0 && o.max_delay_ms >= 0.0 && forall n :: 0.0 <= env.random(n) < 1.0
  }

  lemma BaseDelayIsNonNegative(o: Options, attempt: nat)
    requires attempt >= 1 && o.base_delay_ms >= 0.0 && o.max_delay_ms >= 0.0
    ensures 0.0 <= BaseDelay(o, attempt) <= o.max_delay_ms
  {
    ProductIsNonNegative(o.base_delay_ms, Pow2(attempt - 1) as real);
  }

  lemma ProductIsNonNegative(a: real, b: real)
    requires a >= 0.0 && b >= 0.0
    ensures a * b >= 0.0
  {
  }

  lemma ProductIsMonotone(a: real, b: real, c: real)
    requires a >= 0.0 && b <= c
    ensures a * b <= a * c
  {
  }

  lemma BetweenHalfAndAll(base: real, factor: real)
    requires base >= 0.0 && 0.5 <= factor <= 1.0
    ensures base * 0.5 <= base * factor <= base
  {
    ProductIsMonotone(base, 0.5, factor);
    ProductIsMonotone(base, factor, 1.0);
  }

  lemma FloorBounds(x: real)
    requires x >= 0.0
    ensures 0.0 <= x.Floor as real <= x && x - 1.0 < x.Floor as real
  {
  }

  lemma JitterShortens(base: real, random: real)
    requires base >= 0.0 && 0.0 <= random < 1.0
    ensures 0.0 <= Jittered(base, random) <= base && Jittered(base, random) > base * 0.5 - 1.0
  {
    BetweenHalfAndAll(base, 0.5 + random * 0.5);
    FloorBounds(base * (0.5 + random * 0.5));
  }

  /** Jitter shortens a delay, but by no more than half, up to rounding down. */
  lemma DelayIsBounded(env: Env, o: Options, attempt: nat)
    requires attempt >= 1 && SaneDelays(env, o)
    ensures 0.0 <= ComputeDelay(env, o, attempt) <= BaseDelay(o, attempt) <= o.max_delay_ms
    ensures ComputeDelay(env, o, attempt) > BaseDelay(o, attempt) * 0.5 - 1.0
  {
    hide BaseDelay, Jittered;
    BaseDelayIsNonNegative(o, attempt);
    JitterShortens(BaseDelay(o, attempt), env.random(attempt));
  }

  /** Without jitter the computed delays never shrink. */
  lemma DelaysGrow(env: Env, o: Options, attempt: nat)
    requires attempt >= 1 && !o.jitter && o.base_delay_ms >= 0.0
    ensures ComputeDelay(env, o, attempt) <= ComputeDelay(env, o, attempt + 1)
  {
    assert Pow2(attempt) == 2 * Pow2(attempt - 1);
    ProductIsMonotone(o.base_delay_ms, Pow2(attempt - 1) as real, Pow2(attempt) as real);
  }

  lemma ReportedDelayIsBounded(env: Env, o: Options, value: Attempt, attempt: nat)
    requires attempt >= 1 && value.Value? && SaneDelays(env, o)
    ensures 0.0 <= RetryDelay(env, o, value, attempt) <= o.max_delay_ms
  {
    hide ComputeDelay, BaseDelay;
    DelayIsBounded(env, o, attempt);
  }

  // ---------------------------------------------------------------- whole runs

  ghost predicate SleepNeverFails(env: Env) {
    forall n, again :: env.sleep(n, again).None?
  }

  /** The first attempt from `n` on whose outcome is final, or the last one allowed. */
  function FinalAttempt(env: Env, o: Options, n: nat): (f: nat)
    requires 1 <= n <= o.max_attempts
    ensures n <= f <= o.max_attempts
    decreases o.max_attempts - n
  {
    if n >= o.max_attempts || !Retryable(o, env.operation(n)) then n else FinalAttempt(env, o, n + 1)
  }

  lemma {:induction false} FinalIsFirst(env: Env, o: Options, n: nat, k: nat)
    requires 1 <= n <= k <= o.max_attempts
    ensures k < FinalAttempt(env, o, n) ==> Retryable(o, env.operation(k))
    ensures FinalAttempt(env, o, n) < o.max_attempts ==> !Retryable(o, env.operation(FinalAttempt(env, o, n)))
    decreases o.max_attempts - n
  {
    if n < o.max_attempts && Retryable(o, env.operation(n)) {
      FinalIsFirst(env, o, n + 1, if k == n then n + 1 else k);
    }
  }

  function OutcomeOf(a: Attempt): Outcome {
    if a.Value? then Resolved(a) else Rejected(AsError(a.failure))
  }

  /** A report on attempt `n`, for a retryable outcome and within the longest delay. */
  ghost predicate GoodReport(env: Env, o: Options, n: nat, r: Report) {
    r.attempt == n && 0.0 <= r.delay_ms <= o.max_delay_ms && Retryable(o, env.operation(n))
  }

  /** One report per attempt from `n` on, in order. */
  ghost predicate GoodReports(env: Env, o: Options, n: nat, reports: seq<Report>) {
    forall i :: 0 <= i < |reports| ==> GoodReport(env, o, n + i, reports[i])
  }

  lemma GoodReportsCons(env: Env, o: Options, n: nat, r: Report, rest: seq<Report>)
    requires GoodReport(env, o, n, r) && GoodReports(env, o, n + 1, rest)
    ensures GoodReports(env, o, n, [r] + rest)
  {
    hide GoodReport;
    forall i | 0 <= i < |[r] + rest| ensures GoodReport(env, o, n + i, ([r] + rest)[i]) {
      if i > 0 {
        assert ([r] + rest)[i] == rest[i - 1] && n + i == n + 1 + (i - 1);
      }
    }
  }

  lemma OneGoodReport(env: Env, o: Options, n: nat)
    requires 1 <= n < o.max_attempts && SaneDelays(env, o) && SleepNeverFails(env) && Retryable(o, env.operation(n))
    ensures exists r :: GoodReport(env, o, n, r) && From(env, o, n) == Add([r], From(env, o, n + 1))
  {
    hide ComputeDelay, RetryDelay, Codes, Add;
    var a := env.operation(n);
    DelayIsBounded(env, o, n);
    if a.Value? {
      ReportedDelayIsBounded(env, o, a, n);
      assert GoodReport(env, o, n, Report(n, RetryDelay(env, o, a, n), Status(a.status.value)));
    } else {
      assert GoodReport(env, o, n, CatchReport(env, o, n, a.failure));
    }
  }

  lemma {:induction false} FromIsGood(env: Env, o: Options, n: nat)
    requires 1 <= n <= o.max_attempts && SaneDelays(env, o) && SleepNeverFails(env)
    ensures var run := From(env, o, n);
            (run.calls == FinalAttempt(env, o, n) + 1 - n
            && run.outcome == OutcomeOf(env.operation(FinalAttempt(env, o, n)))
            && |run.reports| == run.calls - 1
            && GoodReports(env, o, n, run.reports))
    decreases o.max_attempts - n
  {
    hide GoodReport, GoodReports, SaneDelays, SleepNeverFails, ComputeDelay, RetryDelay;
    if n < o.max_attempts && Retryable(o, env.operation(n)) {
      OneGoodReport(env, o, n);
      var r :| GoodReport(env, o, n, r) && From(env, o, n) == Add([r], From(env, o, n + 1));
      FromIsGood(env, o, n + 1);
      GoodReportsCons(env, o, n, r, From(env, o, n + 1).reports);
    } else {
      NoReports(env, o, n);
    }
  }

  lemma NoReports(env: Env, o: Options, n: nat)
    ensures GoodReports(env, o, n, [])
  {
  }

  function TotalWait(reports: seq<Report>): real {
    if reports == [] then 0.0 else TotalWait(reports[..|reports| - 1]) + reports[|reports| - 1].delay_ms
  }

  lemma {:induction false} WaitIsBounded(env: Env, o: Options, n: nat, reports: seq<Report>)
    requires GoodReports(env, o, n, reports)
    ensures 0.0 <= TotalWait(reports) <= |reports| as real * o.max_delay_ms
  {
    hide GoodReports;
    if reports != [] {
      GoodReportsSplit(env, o, n, reports);
      WaitIsBounded(env, o, n, reports[..|reports| - 1]);
      OneMoreTime((|reports| - 1) as real, o.max_delay_ms);
    }
  }

  lemma GoodReportsSplit(env: Env, o: Options, n: nat, reports: seq<Report>)
    requires GoodReports(env, o, n, reports) && reports != []
    ensures GoodReports(env, o, n, reports[..|reports| - 1])
    ensures 0.0 <= reports[|reports| - 1].delay_ms <= o.max_delay_ms
  {
    var front, last := reports[..|reports| - 1], |reports| - 1;
    assert GoodReport(env, o, n + last, reports[last]);
    hide GoodReport;
    forall i | 0 <= i < |front| ensures GoodReport(env, o, n + i, front[i]) {
      assert front[i] == reports[i];
    }
  }

  lemma OneMoreTime(n: real, d: real)
    ensures n * d + d == (n + 1.0) * d
  {
  }

  /**
   With at least one attempt: it calls the operation up to and including the first outcome that is not
   retryable, at most `max_attempts` times, ends with that outcome or the last one, reports once per
   earlier call, and waits in total at most the longest delay per earlier call.
   */
  lemma BackoffPromises(env: Env, o: Options)
    requires o.max_attempts >= 1 && SaneDelays(env, o) && SleepNeverFails(env)
    ensures var run, last := RunOf(env, o), FinalAttempt(env, o, 1);
            (run.calls == last <= o.max_attempts
            && (forall k :: 1 <= k < last ==> Retryable(o, env.operation(k)))
            && (last < o.max_attempts ==> !Retryable(o, env.operation(last)))
            && run.outcome == OutcomeOf(env.operation(last))
            && |run.reports| == run.calls - 1
            && GoodReports(env, o, 1, run.reports)
            && TotalWait(run.reports) <= (run.calls - 1) as real * o.max_delay_ms)
  {
    hide From, GoodReports, SaneDelays, SleepNeverFails;
    FromIsGood(env, o, 1);
    forall k | 1 <= k < FinalAttempt(env, o, 1) ensures Retryable(o, env.operation(k)) {
      FinalIsFirst(env, o, 1, k);
    }
    FinalIsFirst(env, o, 1, 1);
    WaitIsBounded(env, o, 1, From(env, o, 1).reports);
  }

  /** Also when sleeping fails: never more than `max_attempts` calls, and none when that is below 1. */
  lemma {:induction false} CallsAreBounded(env: Env, o: Options, n: nat)
    requires 1 <= n <= o.max_attempts
    ensures 1 <= From(env, o, n).calls <= o.max_attempts + 1 - n
    decreases o.max_attempts - n
  {
    hide ComputeDelay, RetryDelay, Codes;
    if n < o.max_attempts {
      CallsAreBounded(env, o, n + 1);
    }
  }

  lemma CallsOfWholeRun(env: Env, o: Options)
    ensures RunOf(env, o).calls <= if o.max_attempts < 0 then 0 else o.max_attempts
    ensures o.max_attempts < 1 <==> RunOf(env, o).calls == 0
  {
    hide From;
    if o.max_attempts >= 1 {
      CallsAreBounded(env, o, 1);
    }
  }

  // ---------------------------------------------------------------- what is reported

  /** The delay before jitter: the first one, then twice the one before, never above the longest. */
  function Doubling(o: Options, n: nat): real
    requires n >= 1
  {
    var wanted := if n == 1 then o.base_delay_ms else 2.0 * Doubling(o, n - 1);
    if wanted < o.max_delay_ms then wanted else o.max_delay_ms
  }

  lemma {:induction false} DelaysDouble(o: Options, n: nat)
    requires n >= 1 && o.max_delay_ms >= 0.0
    ensures BaseDelay(o, n) == Doubling(o, n)
  {
    if n == 1 {
      assert Pow2(0) as real == 1.0;
    } else {
      DelaysDouble(o, n - 1);
      assert Pow2(n - 1) as real == 2.0 * Pow2(n - 2) as real;
      Twice(o.base_delay_ms, Pow2(n - 2) as real);
    }
  }

  lemma Twice(a: real, b: real)
    ensures a * (2.0 * b) == 2.0 * (a * b)
  {
  }

  function Shortened(delay: real, random: real): real {
    (delay * ((1.0 + random) / 2.0)).Floor as real
  }

  /** As doubled, or with jitter that times a random number between one half and one, rounded down. */
  function Expected(env: Env, o: Options, n: nat): real
    requires n >= 1
  {
    if o.jitter then Shortened(Doubling(o, n), env.random(n)) else Doubling(o, n)
  }

  lemma JitterIs(base: real, random: real)
    ensures Jittered(base, random) == Shortened(base, random)
  {
    var f, g := 0.5 + random * 0.5, (1.0 + random) / 2.0;
    assert f == g;
    assert base * f == base * g;
  }

  lemma DelayIsExpected(env: Env, o: Options, n: nat)
    requires n >= 1 && o.max_delay_ms >= 0.0
    ensures ComputeDelay(env, o, n) == Expected(env, o, n)
  {
    hide BaseDelay, Doubling, Jittered, Shortened;
    DelaysDouble(o, n);
    JitterIs(Doubling(o, n), env.random(n));
  }

  /** Without a list of its own, these are the status codes that are tried again. */
  predicate IsRetriedCode(o: Options, code: int) {
    match o.retryable_status_codes
    case Some(codes) => code in codes
    case None => code == 408 || code == 409 || code == 425 || code == 429
                 || code == 500 || code == 502 || code == 503 || code == 504
  }

  predicate IsRetried(o: Options, a: Attempt) {
    match a
    case Value(status, _, _) => status.Some? && IsRetriedCode(o, status.value)
    case Throws(_) => true
  }

  lemma RetryableIff(o: Options, a: Attempt)
    ensures Retryable(o, a) <==> IsRetried(o, a)
  {
  }

  /** The report on a thrown error, or on a sleep that failed. */
  function ErrorReport(env: Env, o: Options, n: nat, f: Failure): Report
    requires n >= 1
  {
    Report(n, Expected(env, o, n), if f.isError then Message(f.message) else OperationFailed)
  }

  /** The report on what the operation did: for a value, the wait the server asks for goes before the computed one. */
  function FirstReport(env: Env, o: Options, n: nat): Report
    requires n >= 1 && IsRetried(o, env.operation(n))
  {
    match env.operation(n)
    case Throws(f) => ErrorReport(env, o, n, f)
    case Value(status, retryAfter, _) =>
      Report(n,
             if retryAfter.None? then Expected(env, o, n)
             else if retryAfter.value > o.max_delay_ms then o.max_delay_ms
             else if retryAfter.value < 0.0 then 0.0
             else retryAfter.value,
             Status(status.value))
  }

  lemma FirstReportIs(env: Env, o: Options, n: nat)
    requires n >= 1 && o.max_delay_ms >= 0.0 && IsRetried(o, env.operation(n))
    ensures match env.operation(n)
            case Throws(f) => CatchReport(env, o, n, f) == FirstReport(env, o, n)
            case Value(status, _, _) =>
              Report(n, RetryDelay(env, o, env.operation(n), n), Status(status.value)) == FirstReport(env, o, n)
  {
    hide ComputeDelay, Expected;
    DelayIsExpected(env, o, n);
  }

  /**
   One attempt in full, whatever sleeping does. The last attempt allowed and an outcome that is not tried again
   end the run. Otherwise the attempt is reported; a sleep that fails after a value is reported as an error and
   slept for again; a sleep that fails after an error ends the run with its failure.
   */
  lemma AttemptIs(env: Env, o: Options, n: nat)
    requires 1 <= n <= o.max_attempts && o.max_delay_ms >= 0.0
    ensures var run, a, failed := From(env, o, n), env.operation(n), env.sleep(n, false);
            if n == o.max_attempts || !IsRetried(o, a) then
              run == Run(1, [], if a.Value? then Resolved(a)
                                else Rejected(if a.failure.isError then a.failure
                                              else Failure(true, "Retry operation failed")))
            else
              var reports := if a.Value? && failed.Some?
                             then [FirstReport(env, o, n), ErrorReport(env, o, n, failed.value)]
                             else [FirstReport(env, o, n)];
              var fatal := if a.Value? && failed.Some? then env.sleep(n, true) else failed;
              if fatal.Some? then run == Run(1, reports, Rejected(fatal.value))
              else
                var rest := From(env, o, n + 1);
                run == Run(1 + rest.calls, reports + rest.reports, rest.outcome)
  {
    hide ComputeDelay, Expected, RetryDelay, FirstReport, Codes, IsRetriedCode;
    RetryableIff(o, env.operation(n));
    DelayIsExpected(env, o, n);
    if IsRetried(o, env.operation(n)) {
      FirstReportIs(env, o, n);
    }
  }

  /** When sleeping never fails, the k-th report is on the k-th attempt, with this delay and this reason. */
  lemma {:induction false} ReportsAre(env: Env, o: Options, n: nat, k: nat)
    requires 1 <= n <= o.max_attempts && o.max_delay_ms >= 0.0 && SleepNeverFails(env)
    requires k < |From(env, o, n).reports|
    ensures IsRetried(o, env.operation(n + k)) && From(env, o, n).reports[k] == FirstReport(env, o, n + k)
    decreases k
  {
    hide From, FirstReport, IsRetried, ErrorReport;
    AttemptIs(env, o, n);
    if k > 0 {
      ReportsAre(env, o, n + 1, k - 1);
    }
  }
}
