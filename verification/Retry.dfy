/** The retry executor: two loops, one with hooks and a callback and one without, against what
    both promise.  Outcomes of the function and cancellations of the context are given. */
module Retry {
  import opened Text

  const MAX_RETRY_ATTEMPTS := 10
  const MILLISECOND := 1_000_000

  datatype Config = Config(maxAttempts: int, delayMs: int, multiplier: real, maxDelayMs: int)

  datatype ConfigError = NegativeAttempts | TooManyAttempts | NegativeDelay | SmallMultiplier | NegativeMaxDelay

  function Validate(c: Config): Option<ConfigError> {
    if c.maxAttempts < 0 then Some(NegativeAttempts)
    else if c.maxAttempts > MAX_RETRY_ATTEMPTS then Some(TooManyAttempts)
    else if c.delayMs < 0 then Some(NegativeDelay)
    else if c.multiplier < 1.0 then Some(SmallMultiplier)
    else if c.maxDelayMs < 0 then Some(NegativeMaxDelay)
    else None
  }

  function Power(b: real, n: nat): real {
    if n == 0 then 1.0 else b * Power(b, n - 1)
  }

  /** Go's conversion of a float to an integer: towards zero. */
  function Truncated(x: real): int {
    if x >= 0.0 then x.Floor else -((-x).Floor)
  }

  function CappedMs(d: real, maxDelayMs: int): int {
    Truncated(if d > maxDelayMs as real then maxDelayMs as real else d)
  }

  function Scaled(c: Config, attempt: nat): real {
    c.delayMs as real * Power(c.multiplier, attempt)
  }

  /** The exponential backoff in whole milliseconds. */
  function DelayMs(c: Config, attempt: int): int {
    CappedMs(Scaled(c, if attempt < 0 then 0 else attempt), c.maxDelayMs)
  }

  /** CalculateDelay, a time.Duration in nanoseconds. */
  function CalculateDelay(c: Config, attempt: int): int {
    DelayMs(c, attempt) * MILLISECOND
  }

  function ClampDelay(d: int, maxDelayMs: int): int {
    if d < 0 then 0
    else if maxDelayMs <= 0 then d
    else if d > maxDelayMs * MILLISECOND then maxDelayMs * MILLISECOND
    else d
  }

  /** Duration.Milliseconds: towards zero. */
  function Milliseconds(d: int): int {
    if d >= 0 then d / MILLISECOND else -((-d) / MILLISECOND)
  }

  lemma {:induction false} PowerGrows(b: real, m: nat, n: nat)
    requires b >= 1.0 && m <= n
    ensures 1.0 <= Power(b, m) <= Power(b, n)
    decreases n
  {
    if m < n {
      PowerGrows(b, m, n - 1);
      RealProduct(b, Power(b, n - 1));
    } else if m > 0 {
      PowerGrows(b, m - 1, n - 1);
      RealProduct(b, Power(b, n - 1));
    }
  }

  lemma RealProduct(b: real, x: real)
    requires b >= 1.0 && x >= 1.0
    ensures b * x >= x
  {
    assert (b - 1.0) * x >= 0.0;
  }

  /** With a valid configuration the backoff stays within its bounds and never shrinks. */
  lemma BackoffBounded(c: Config, m: int, n: int)
    requires Validate(c).None? && m <= n
    ensures 0 <= DelayMs(c, m) <= DelayMs(c, n) <= c.maxDelayMs
  {
    hide Scaled, CappedMs;
    var i, j := if m < 0 then 0 else m, if n < 0 then 0 else n;
    ScaledGrows(c, i, j);
    CappedGrows(Scaled(c, i), Scaled(c, j), c.maxDelayMs);
  }

  lemma ScaledGrows(c: Config, i: nat, j: nat)
    requires c.delayMs >= 0 && c.multiplier >= 1.0 && i <= j
    ensures 0.0 <= Scaled(c, i) <= Scaled(c, j)
  {
    PowerGrows(c.multiplier, i, j);
    var a, x, y := c.delayMs as real, Power(c.multiplier, i), Power(c.multiplier, j);
    RealMonotone(a, x, y);
  }

  lemma RealMonotone(a: real, x: real, y: real)
    requires a >= 0.0 && 1.0 <= x <= y
    ensures 0.0 <= a * x <= a * y
  {
    assert a * (y - x) >= 0.0;
  }

  lemma CappedGrows(d: real, e: real, maxDelayMs: int)
    requires 0.0 <= d <= e && maxDelayMs >= 0
    ensures 0 <= CappedMs(d, maxDelayMs) <= CappedMs(e, maxDelayMs) <= maxDelayMs
  {
    assert (maxDelayMs as real).Floor == maxDelayMs;
  }

  lemma ClampBounded(d: int, maxDelayMs: int)
    requires maxDelayMs > 0
    ensures 0 <= Milliseconds(ClampDelay(d, maxDelayMs)) <= maxDelayMs
  {
  }

  // Runs

  /** A failure of the function: whether the classifier calls it retryable, and what a
      Retry-After extractor reads from it, in nanoseconds. */
  datatype Failure = Failure(code: int, retryable: bool, retryAfter: Option<int>)

  datatype Outcome<V> = Success(value: V) | Failed(failure: Failure)

  /** What the world does at each attempt. */
  datatype Script<!V> = Script(
    call: nat -> Outcome<V>,
    cancelledBefore: nat -> bool,
    cancelledWaiting: nat -> bool)

  datatype Answer<V> = Value(value: V) | Error(failure: Failure) | Cancelled | Nothing

  datatype Callback = Callback(attempt: nat, failure: Option<Failure>, nextDelay: int)

  /** What a run leaves behind: its answer, the retry information, and the callbacks made. */
  datatype Report<V> = Report(
    answer: Answer<V>, totalAttempts: nat, retryCount: int, delaysMs: seq<int>,
    errors: seq<Failure>, successfulAttempt: nat, callbacks: seq<Callback>)

  /** The delay before the next attempt. */
  function NextDelay(c: Config, attempt: nat, failure: Failure, hooked: bool): int {
    if hooked && failure.retryAfter.Some? then ClampDelay(failure.retryAfter.value, c.maxDelayMs)
    else CalculateDelay(c, attempt)
  }

  /** The rest of a run from `attempt`, with what it has gathered so far. */
  function RunFrom<V>(c: Config, s: Script<V>, hooked: bool, attempt: nat, delays: seq<int>,
      errors: seq<Failure>, callbacks: seq<Callback>): Report<V>
    decreases c.maxAttempts + 1 - attempt
  {
    if attempt > c.maxAttempts then Report(Nothing, attempt, attempt - 1, delays, errors, 0, callbacks)
    else if s.cancelledBefore(attempt) then Report(Cancelled, attempt + 1, 0, delays, errors, 0, callbacks)
    else
      match s.call(attempt)
      case Success(v) => Report(Value(v), attempt + 1, attempt, delays, errors, attempt + 1,
        callbacks + [Callback(attempt, None, 0)])
      case Failed(f) =>
        if !f.retryable then
          Report(Error(f), attempt + 1, 0, delays, errors + [f], 0, callbacks + [Callback(attempt, Some(f), 0)])
        else if attempt == c.maxAttempts then
          Report(Error(f), attempt + 1, attempt, delays, errors + [f], 0, callbacks + [Callback(attempt, Some(f), 0)])
        else
          var d := NextDelay(c, attempt, f, hooked);
          var delays', errors', callbacks' :=
            delays + [Milliseconds(d)], errors + [f], callbacks + [Callback(attempt, Some(f), d)];
          if s.cancelledWaiting(attempt) then Report(Cancelled, attempt + 1, 0, delays', errors', 0, callbacks')
          else RunFrom(c, s, hooked, attempt + 1, delays', errors', callbacks')
  }

  function Run<V>(c: Config, s: Script<V>, hooked: bool): Report<V> {
    RunFrom(c, s, hooked, 0, [], [], [])
  }

  class RetryExecutor<V> {
    const config: Config
    var totalAttempts: nat
    var retryCount: int
    var retryDelaysMs: seq<int>
    var errors: seq<Failure>
    var successfulAttempt: nat

    constructor (config: Config)
      ensures this.config == config
    {
      this.config := config;
      totalAttempts, retryCount, retryDelaysMs, errors, successfulAttempt := 0, 0, [], [], 0;
    }

    /** The executor's state and the answer are those of the report. */
    ghost predicate Shows(r: Report<V>, answer: Answer<V>)
      reads this
    {
      answer == r.answer && totalAttempts == r.totalAttempts && retryCount == r.retryCount
      && retryDelaysMs == r.delaysMs && errors == r.errors && successfulAttempt == r.successfulAttempt
    }

    method ResetRetryState()
      modifies this
      ensures totalAttempts == 0 && retryCount == 0 && retryDelaysMs == [] && errors == [] && successfulAttempt == 0
    {
      totalAttempts, retryCount, retryDelaysMs, errors, successfulAttempt := 0, 0, [], [], 0;
    }

    method Execute(s: Script<V>) returns (answer: Answer<V>)
      modifies this
      ensures Shows(Run(config, s, false), answer)
    {
      ResetRetryState();
      ghost var told: seq<Callback> := [];
      ghost var whole := Run(config, s, false);
      var lastErr: Answer<V> := Nothing;
      var maxAttempts := config.maxAttempts + 1;
      var attempt := 0;
      while attempt < maxAttempts
        invariant attempt >= 0 && totalAttempts == attempt && retryCount == 0 && successfulAttempt == 0
        invariant attempt == 0 ==> lastErr == Nothing
        invariant attempt > 0 ==> attempt <= config.maxAttempts
        invariant whole == RunFrom(config, s, false, attempt, retryDelaysMs, errors, told)
        decreases maxAttempts - attempt
      {
        totalAttempts := attempt + 1;
        if s.cancelledBefore(attempt) {
          return Cancelled;
        }
        var outcome := s.call(attempt);
        if outcome.Success? {
          successfulAttempt := attempt + 1;
          retryCount := attempt;
          return Value(outcome.value);
        }
        var err := outcome.failure;
        lastErr := Error(err);
        errors := errors + [err];
        if !err.retryable {
          return Error(err);
        }
        if attempt >= config.maxAttempts {
          retryCount := totalAttempts - 1;
          return lastErr;
        }
        var delay := CalculateDelay(config, attempt);
        retryDelaysMs := retryDelaysMs + [Milliseconds(delay)];
        told := told + [Callback(attempt, Some(err), delay)];
        if s.cancelledWaiting(attempt) {
          return Cancelled;
        }
        attempt := attempt + 1;
      }
      retryCount := totalAttempts - 1;
      answer := lastErr;
    }

    /** `hooked`: an ExtractRetryAfter hook is set; `called`: a callback is. */
    method ExecuteWithHooks(s: Script<V>, hooked: bool, called: bool)
        returns (answer: Answer<V>, callbacks: seq<Callback>)
      modifies this
      ensures Shows(Run(config, s, hooked), answer)
      ensures callbacks == if called then Run(config, s, hooked).callbacks else []
    {
      ResetRetryState();
      callbacks := [];
      ghost var told: seq<Callback> := [];
      ghost var whole := Run(config, s, hooked);
      var lastErr: Answer<V> := Nothing;
      var maxAttempts := config.maxAttempts + 1;
      var attempt := 0;
      while attempt < maxAttempts
        invariant attempt >= 0 && totalAttempts == attempt && retryCount == 0 && successfulAttempt == 0
        invariant attempt == 0 ==> lastErr == Nothing
        invariant attempt > 0 ==> attempt <= config.maxAttempts
        invariant whole == RunFrom(config, s, hooked, attempt, retryDelaysMs, errors, told)
        invariant callbacks == if called then told else []
        decreases maxAttempts - attempt
      {
        totalAttempts := attempt + 1;
        if s.cancelledBefore(attempt) {
          return Cancelled, callbacks;
        }
        var outcome := s.call(attempt);
        if outcome.Success? {
          if called {
            callbacks := callbacks + [Callback(attempt, None, 0)];
          }
          successfulAttempt := attempt + 1;
          retryCount := attempt;
          return Value(outcome.value), callbacks;
        }
        var err := outcome.failure;
        lastErr := Error(err);
        errors := errors + [err];
        var delay := 0;
        if attempt < config.maxAttempts && err.retryable {
          delay := CalculateDelay(config, attempt);
          if hooked && err.retryAfter.Some? {
            delay := ClampDelay(err.retryAfter.value, config.maxDelayMs);
          }
          retryDelaysMs := retryDelaysMs + [Milliseconds(delay)];
        }
        told := told + [Callback(attempt, Some(err), delay)];
        if called {
          callbacks := callbacks + [Callback(attempt, Some(err), delay)];
        }
        if !err.retryable {
          return Error(err), callbacks;
        }
        if attempt >= config.maxAttempts {
          retryCount := totalAttempts - 1;
          return lastErr, callbacks;
        }
        if s.cancelledWaiting(attempt) {
          return Cancelled, callbacks;
        }
        attempt := attempt + 1;
      }
      retryCount := totalAttempts - 1;
      answer := lastErr;
    }
  }

  // What every run keeps

  /** The attempt at which the run ends: the first that is cancelled, succeeds, fails for good,
      is the last allowed, or is cancelled while waiting. */
  function Deciding<V>(c: Config, s: Script<V>, attempt: nat): nat
    requires attempt <= c.maxAttempts
    decreases c.maxAttempts - attempt
  {
    if attempt == c.maxAttempts || s.cancelledBefore(attempt) || s.call(attempt).Success?
      || !s.call(attempt).failure.retryable || s.cancelledWaiting(attempt)
    then attempt
    else Deciding(c, s, attempt + 1)
  }

  lemma {:induction false} DecidingIsFirst<V>(c: Config, s: Script<V>, attempt: nat)
    requires attempt <= c.maxAttempts
    ensures var d := Deciding(c, s, attempt);
      && attempt <= d <= c.maxAttempts
      && forall i :: attempt <= i < d ==>
        !s.cancelledBefore(i) && s.call(i).Failed? && s.call(i).failure.retryable && !s.cancelledWaiting(i)
    decreases c.maxAttempts - attempt
  {
    if Deciding(c, s, attempt) != attempt {
      DecidingIsFirst(c, s, attempt + 1);
    }
  }

  /** The answer of a run that ends at attempt `d`. */
  function Decision<V>(s: Script<V>, c: Config, d: nat): Answer<V> {
    if s.cancelledBefore(d) then Cancelled
    else if s.call(d).Success? then Value(s.call(d).value)
    else if s.call(d).failure.retryable && d < c.maxAttempts then Cancelled
    else Error(s.call(d).failure)
  }

  /** How often the function was called by the end of the run. */
  function Calls<V>(s: Script<V>, d: nat): nat {
    if s.cancelledBefore(d) then d else d + 1
  }

  /** The errors are those of the calls in order, and the delays those computed from them. */
  ghost predicate Recorded<V>(c: Config, s: Script<V>, hooked: bool, errors: seq<Failure>, delays: seq<int>) {
    && |delays| <= |errors|
    && (forall i :: 0 <= i < |errors| ==> s.call(i) == Failed(errors[i]))
    && (forall i :: 0 <= i < |delays| ==> delays[i] == Milliseconds(NextDelay(c, i, errors[i], hooked)))
  }

  lemma RecordedMore<V>(c: Config, s: Script<V>, hooked: bool, errors: seq<Failure>, delays: seq<int>)
    requires Recorded(c, s, hooked, errors, delays) && |delays| == |errors| && s.call(|errors|).Failed?
    ensures var f := s.call(|errors|).failure;
      && Recorded(c, s, hooked, errors + [f], delays)
      && Recorded(c, s, hooked, errors + [f], delays + [Milliseconds(NextDelay(c, |errors|, f, hooked))])
  {
    hide NextDelay, Milliseconds;
  }

  lemma {:induction false} RunFromDecides<V>(c: Config, s: Script<V>, hooked: bool, attempt: nat,
      delays: seq<int>, errors: seq<Failure>, callbacks: seq<Callback>)
    requires attempt <= c.maxAttempts && |delays| == |errors| == attempt
    requires Recorded(c, s, hooked, errors, delays)
    ensures var r := RunFrom(c, s, hooked, attempt, delays, errors, callbacks);
      var d := Deciding(c, s, attempt);
      && r.answer == Decision(s, c, d) && r.totalAttempts == d + 1
      && Recorded(c, s, hooked, r.errors, r.delaysMs)
      && |r.errors| == (if !s.cancelledBefore(d) && s.call(d).Failed? then d + 1 else d)
    decreases c.maxAttempts - attempt
  {
    hide NextDelay, Milliseconds, Recorded;
    if !s.cancelledBefore(attempt) && s.call(attempt).Failed? {
      RecordedMore(c, s, hooked, errors, delays);
      var f := s.call(attempt).failure;
      var delay := NextDelay(c, attempt, f, hooked);
      if f.retryable && attempt < c.maxAttempts && !s.cancelledWaiting(attempt) {
        RunFromDecides(c, s, hooked, attempt + 1, delays + [Milliseconds(delay)], errors + [f],
          callbacks + [Callback(attempt, Some(f), delay)]);
      }
    }
  }

  /** MAIN THEOREM: a run ends at its first deciding attempt, and its answer is what that
      attempt decides.  The function is called at most maxAttempts + 1 times and never after a
      failure that is not retryable; the errors and the delays kept are those of the calls. */
  lemma RunDecides<V>(c: Config, s: Script<V>, hooked: bool)
    requires c.maxAttempts >= 0
    ensures var r := Run(c, s, hooked);
      var d := Deciding(c, s, 0);
      && r.answer == Decision(s, c, d) && r.totalAttempts == d + 1
      && Calls(s, d) <= c.maxAttempts + 1
      && (forall i :: 0 <= i < Calls(s, d) - 1 ==> s.call(i).Failed? && s.call(i).failure.retryable)
      && Recorded(c, s, hooked, r.errors, r.delaysMs)
      && |r.errors| == (if !s.cancelledBefore(d) && s.call(d).Failed? then d + 1 else d)
  {
    hide RunFrom, Decision;
    assert Recorded(c, s, hooked, [], []);
    RunFromDecides(c, s, hooked, 0, [], [], []);
    DecidingIsFirst(c, s, 0);
  }

  lemma RunRecorded<V>(c: Config, s: Script<V>, hooked: bool)
    ensures Recorded(c, s, hooked, Run(c, s, hooked).errors, Run(c, s, hooked).delaysMs)
  {
    if c.maxAttempts >= 0 {
      hide RunFrom, Recorded;
      RunDecides(c, s, hooked);
    }
  }

  /** Every delay lies within [0, maxDelayMs]: always without a hook, and with one when the
      configured maximum is positive. */
  lemma DelaysBounded<V>(c: Config, s: Script<V>, hooked: bool)
    requires Validate(c).None? && (hooked ==> c.maxDelayMs > 0)
    ensures forall i :: 0 <= i < |Run(c, s, hooked).delaysMs| ==> 0 <= Run(c, s, hooked).delaysMs[i] <= c.maxDelayMs
  {
    hide RunFrom, Run, NextDelay, Milliseconds, Validate;
    RunRecorded(c, s, hooked);
    var r := Run(c, s, hooked);
    forall i | 0 <= i < |r.delaysMs| ensures 0 <= r.delaysMs[i] <= c.maxDelayMs {
      DelayBounded(c, i, r.errors[i], hooked);
    }
  }

  /** Without a maximum the overrides are not clamped from above: the delays of a run stay
      within a bound if and only if every override its errors gave does. */
  lemma UnboundedRetryAfter<V>(c: Config, s: Script<V>, bound: nat)
    requires Validate(c).None? && c.maxDelayMs == 0
    ensures var r := Run(c, s, true);
      && |r.delaysMs| <= |r.errors|
      && ((forall i :: 0 <= i < |r.delaysMs| ==> r.delaysMs[i] <= bound)
          <==> forall i :: 0 <= i < |r.delaysMs| ==> OverrideWithin(r.errors[i], bound))
  {
    hide RunFrom, Run, NextDelay, Validate, OverrideWithin;
    RunRecorded(c, s, true);
    var r := Run(c, s, true);
    forall i | 0 <= i < |r.delaysMs| ensures r.delaysMs[i] <= bound <==> OverrideWithin(r.errors[i], bound) {
      OverrideDelay(c, i, r.errors[i], bound);
    }
  }

  /** The error gave no override, or one below `bound` + 1 milliseconds. */
  predicate OverrideWithin(failure: Failure, bound: nat) {
    failure.retryAfter.Some? ==> failure.retryAfter.value < (bound + 1) * MILLISECOND
  }

  lemma OverrideDelay(c: Config, attempt: nat, failure: Failure, bound: nat)
    requires Validate(c).None? && c.maxDelayMs == 0
    ensures Milliseconds(NextDelay(c, attempt, failure, true)) <= bound <==> OverrideWithin(failure, bound)
  {
    BackoffBounded(c, attempt, attempt);
    hide DelayMs;
    assert CalculateDelay(c, attempt) == 0;
  }

  lemma DelayBounded(c: Config, attempt: nat, failure: Failure, hooked: bool)
    requires Validate(c).None? && (hooked ==> c.maxDelayMs > 0)
    ensures 0 <= Milliseconds(NextDelay(c, attempt, failure, hooked)) <= c.maxDelayMs
  {
    BackoffBounded(c, attempt, attempt);
    if hooked && failure.retryAfter.Some? {
      ClampBounded(failure.retryAfter.value, c.maxDelayMs);
    } else {
      assert CalculateDelay(c, attempt) / MILLISECOND == DelayMs(c, attempt);
    }
  }

  /** Without a hook the recorded delays never shrink. */
  lemma DelaysGrow<V>(c: Config, s: Script<V>, i: nat, j: nat)
    requires Validate(c).None? && i <= j < |Run(c, s, false).delaysMs|
    ensures Run(c, s, false).delaysMs[i] <= Run(c, s, false).delaysMs[j]
  {
    hide RunFrom, Run, DelayMs, Validate;
    RunRecorded(c, s, false);
    BackoffBounded(c, i, j);
    assert CalculateDelay(c, i) / MILLISECOND == DelayMs(c, i) && CalculateDelay(c, j) / MILLISECOND == DelayMs(c, j);
  }

  /** The callback for the call at `i`: after a success without a delay, after a failure with
      the delay before the next call, if there may be one. */
  function CallbackFor<V>(c: Config, s: Script<V>, hooked: bool, i: nat): Callback {
    match s.call(i)
    case Success(_) => Callback(i, None, 0)
    case Failed(f) => Callback(i, Some(f), if f.retryable && i < c.maxAttempts then NextDelay(c, i, f, hooked) else 0)
  }

  ghost predicate Told<V>(c: Config, s: Script<V>, hooked: bool, callbacks: seq<Callback>, calls: nat) {
    |callbacks| == calls && forall i :: 0 <= i < calls ==> callbacks[i] == CallbackFor(c, s, hooked, i)
  }

  /** Every allowed call failed, and the last one could have been retried. */
  predicate Exhausted<V>(c: Config, s: Script<V>, d: nat) {
    d == c.maxAttempts && !s.cancelledBefore(d) && s.call(d).Failed? && s.call(d).failure.retryable
  }

  lemma ToldMore<V>(c: Config, s: Script<V>, hooked: bool, callbacks: seq<Callback>, calls: nat)
    requires Told(c, s, hooked, callbacks, calls)
    ensures Told(c, s, hooked, callbacks + [CallbackFor(c, s, hooked, calls)], calls + 1)
  {
    hide CallbackFor;
  }

  lemma {:induction false} RunFromReports<V>(c: Config, s: Script<V>, hooked: bool, attempt: nat,
      delays: seq<int>, errors: seq<Failure>, callbacks: seq<Callback>)
    requires attempt <= c.maxAttempts && |delays| == attempt && Told(c, s, hooked, callbacks, attempt)
    ensures var r := RunFrom(c, s, hooked, attempt, delays, errors, callbacks);
      var d := Deciding(c, s, attempt);
      && Told(c, s, hooked, r.callbacks, Calls(s, d))
      && r.successfulAttempt == (if r.answer.Value? then d + 1 else 0)
      && r.retryCount == (if r.answer.Value? || Exhausted(c, s, d) then d else 0)
      && |r.delaysMs| == (if r.answer == Cancelled && !s.cancelledBefore(d) then d + 1 else d)
    decreases c.maxAttempts - attempt
  {
    hide NextDelay, Milliseconds, Told;
    ToldMore(c, s, hooked, callbacks, attempt);
    if !s.cancelledBefore(attempt) && s.call(attempt).Failed? {
      var f := s.call(attempt).failure;
      var delay := NextDelay(c, attempt, f, hooked);
      if f.retryable && attempt < c.maxAttempts && !s.cancelledWaiting(attempt) {
        RunFromReports(c, s, hooked, attempt + 1, delays + [Milliseconds(delay)], errors + [f],
          callbacks + [Callback(attempt, Some(f), delay)]);
      }
    }
  }

  /** What a run tells besides its answer: one callback for each call, in order; the attempt that
      succeeded; how often it retried, where it succeeded or gave up for good; and one delay for
      each wait, begun or completed. */
  lemma RunReports<V>(c: Config, s: Script<V>, hooked: bool)
    requires c.maxAttempts >= 0
    ensures var r := Run(c, s, hooked);
      var d := Deciding(c, s, 0);
      && Told(c, s, hooked, r.callbacks, Calls(s, d))
      && r.successfulAttempt == (if r.answer.Value? then d + 1 else 0)
      && r.retryCount == (if r.answer.Value? || Exhausted(c, s, d) then d else 0)
      && |r.delaysMs| == (if r.answer == Cancelled && !s.cancelledBefore(d) then d + 1 else d)
  {
    hide RunFrom, Deciding;
    RunFromReports(c, s, hooked, 0, [], [], []);
  }

  // Exponential growth

  /** A sequence that begins at the configured delay and is multiplied at every step. */
  ghost predicate Exponential(c: Config, x: nat -> real) {
    x(0) == c.delayMs as real && forall n: nat :: GrowsAt(c, x, n)
  }

  predicate GrowsAt(c: Config, x: nat -> real, n: nat) {
    x(n + 1) == c.multiplier * x(n)
  }

  lemma {:induction false} ScaledIs(c: Config, x: nat -> real, n: nat)
    requires Exponential(c, x)
    ensures Scaled(c, n) == x(n)
  {
    if n > 0 {
      ScaledIs(c, x, n - 1);
      var a, b, p := c.delayMs as real, c.multiplier, Power(c.multiplier, n - 1);
      ProductSwap(a, b, p);
      assert GrowsAt(c, x, n - 1);
    }
  }

  lemma ProductSwap(a: real, b: real, p: real)
    ensures a * (b * p) == b * (a * p)
  {
  }

  function Smaller(x: real, y: real): real { if x > y then y else x }

  lemma WholePart(x: real, maxDelayMs: int)
    requires x >= 0.0 && maxDelayMs >= 0
    ensures var d := CappedMs(x, maxDelayMs);
      d as real <= Smaller(x, maxDelayMs as real) < (d + 1) as real
  {
  }

  /** MAIN THEOREM (backoff): the n-th delay recorded without a hook is the whole part of the
      exponentially growing one, or of the maximum once that is smaller. */
  lemma DelaysExponential<V>(c: Config, s: Script<V>, x: nat -> real, n: nat)
    requires Validate(c).None? && Exponential(c, x) && n < |Run(c, s, false).delaysMs|
    ensures var d := Run(c, s, false).delaysMs[n];
      d as real <= Smaller(x(n), c.maxDelayMs as real) < (d + 1) as real
  {
    ScaledIs(c, x, n);
    ScaledGrows(c, 0, n);
    WholePart(x(n), c.maxDelayMs);
    hide Exponential;
    DelayRecorded(c, s, n);
    hide RunFrom, Run, CappedMs, Smaller, Scaled;
  }

  lemma DelayRecorded<V>(c: Config, s: Script<V>, n: nat)
    requires Validate(c).None? && n < |Run(c, s, false).delaysMs|
    ensures Run(c, s, false).delaysMs[n] == CappedMs(Scaled(c, n), c.maxDelayMs)
  {
    hide RunFrom, Run, CappedMs, Scaled;
    RunRecorded(c, s, false);
    BackoffBounded(c, n, n);
    assert CalculateDelay(c, n) / MILLISECOND == DelayMs(c, n);
  }

  /** With a whole multiplier each delay is that many times the one before, up to the maximum. */
  lemma DelaysMultiply<V>(c: Config, s: Script<V>, k: nat, n: nat)
    requires Validate(c).None? && c.multiplier == k as real && n + 1 < |Run(c, s, false).delaysMs|
    ensures var ds := Run(c, s, false).delaysMs;
      && ds[0] == (if c.delayMs > c.maxDelayMs then c.maxDelayMs else c.delayMs)
      && ds[n + 1] == if k * ds[n] > c.maxDelayMs then c.maxDelayMs else k * ds[n]
  {
    assert c.delayMs >= 0 && c.maxDelayMs >= 0 && k >= 1;
    hide RunFrom, Run, CappedMs, Validate;
    DelayRecorded(c, s, 0);
    DelayRecorded(c, s, n);
    DelayRecorded(c, s, n + 1);
    WholeScaled(c, k, 0);
    WholeScaled(c, k, n);
    WholeScaled(c, k, n + 1);
    CappedWhole(c.delayMs * Times(k, 0), c.maxDelayMs);
    CappedWhole(c.delayMs * Times(k, n), c.maxDelayMs);
    CappedWhole(c.delayMs * Times(k, n + 1), c.maxDelayMs);
    OneMoreFactor(c.delayMs, k, Times(k, n), c.maxDelayMs);
  }

  function Times(k: nat, n: nat): nat {
    if n == 0 then 1 else k * Times(k, n - 1)
  }

  lemma {:induction false} WholeScaled(c: Config, k: nat, n: nat)
    requires c.multiplier == k as real && c.delayMs >= 0
    ensures Scaled(c, n) == (c.delayMs * Times(k, n)) as real && c.delayMs * Times(k, n) >= 0
  {
    PowerWhole(k, n);
    RealOfProduct(c.delayMs, Times(k, n));
  }

  lemma {:induction false} PowerWhole(k: nat, n: nat)
    ensures Power(k as real, n) == Times(k, n) as real
  {
    if n > 0 {
      PowerWhole(k, n - 1);
      RealOfProduct(k, Times(k, n - 1));
    }
  }

  lemma RealOfProduct(a: int, b: int)
    ensures (a * b) as real == a as real * b as real
  {
  }

  lemma CappedWhole(d: int, maxDelayMs: int)
    requires d >= 0 && maxDelayMs >= 0
    ensures CappedMs(d as real, maxDelayMs) == if d > maxDelayMs then maxDelayMs else d
  {
  }

  lemma OneMoreFactor(a: nat, k: nat, t: nat, most: nat)
    requires k >= 1
    ensures var d := if a * t > most then most else a * t;
      (if a * (k * t) > most then most else a * (k * t)) == if k * d > most then most else k * d
  {
    assert a * (k * t) == k * (a * t);
    assert k * (a * t) >= a * t && k * most >= most;
  }

  /** A negative maximum: the function is never called, and neither a value nor an error comes
      back. */
  lemma NegativeAttemptsDoNothing<V>(c: Config, s: Script<V>, hooked: bool)
    ensures Run(c, s, hooked).answer == Nothing <==> c.maxAttempts < 0
  {
    if c.maxAttempts >= 0 {
      RunDecides(c, s, hooked);
    }
  }
}
