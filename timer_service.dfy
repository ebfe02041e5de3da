/** The server-side question timer (backend/app/services/timer_service.py).
    Every operation is arithmetic on the seconds elapsed since the question was
    shown; the elapsed value is a parameter because the source reads it from the clock. */
module TimerService {
  import opened Wrappers
  import opened Numeric

  /** `settings.QUESTION_TIMER_SECONDS` (backend/app/config.py). */
  const QUESTION_TIMER_SECONDS: int := 10

  /** Grace allowed for network latency. */
  const GRACE_PERIOD: real := 1.5

  datatype Timer = Timer(maxSeconds: int, gracePeriod: real)

  /** `TimerService(max_seconds)`: `max_seconds or QUESTION_TIMER_SECONDS`, so both a
      missing value and 0 fall back to the configured default. */
  function NewTimer(maxSeconds: Option<int>): (t: Timer)
    ensures t.gracePeriod == GRACE_PERIOD
    ensures maxSeconds in {None, Some(0)} ==> t.maxSeconds == QUESTION_TIMER_SECONDS
    ensures maxSeconds !in {None, Some(0)} ==> t.maxSeconds == maxSeconds.value
    ensures t.maxSeconds != 0
  {
    match maxSeconds
    case None => Timer(QUESTION_TIMER_SECONDS, GRACE_PERIOD)
    case Some(m) => Timer(if m == 0 then QUESTION_TIMER_SECONDS else m, GRACE_PERIOD)
  }

  /** The module-level `timer_service` instance, built with no argument. */
  function GlobalTimer(): (t: Timer)
    ensures t == Timer(10, 1.5)
  {
    NewTimer(None)
  }

  datatype SubmissionCheck = SubmissionCheck(
    isValid: bool,
    elapsed: real,
    shouldAutoSubmit: bool,
    timeExceededBy: real)

  /** `validate_submission_time`; `round(…, 2)` is not modelled, the values are exact. */
  function ValidateSubmissionTime(t: Timer, elapsed: real): (c: SubmissionCheck)
    ensures c.elapsed == elapsed
    ensures c.isValid <==> elapsed <= t.maxSeconds as real + t.gracePeriod
    ensures c.shouldAutoSubmit <==> elapsed > t.maxSeconds as real
    ensures c.timeExceededBy >= 0.0
    ensures c.shouldAutoSubmit ==> c.timeExceededBy == elapsed - t.maxSeconds as real
    ensures !c.shouldAutoSubmit ==> c.timeExceededBy == 0.0
  {
    var over := elapsed - t.maxSeconds as real;
    SubmissionCheck(
      elapsed <= t.maxSeconds as real + t.gracePeriod,
      elapsed,
      elapsed > t.maxSeconds as real,
      MaxReal(0.0, over))
  }

  /** With the 1.5 s grace, a submission is both accepted and flagged as
      auto-submitted exactly in the window (max, max + 1.5]. */
  lemma LateButValidWindow(t: Timer, elapsed: real)
    requires t.gracePeriod == GRACE_PERIOD
    ensures var c := ValidateSubmissionTime(t, elapsed);
      c.isValid && c.shouldAutoSubmit <==>
        t.maxSeconds as real < elapsed <= t.maxSeconds as real + 1.5
  {
  }

  /** `get_remaining_time`: `max(0, int(max_seconds - elapsed))`. */
  function GetRemainingTime(t: Timer, elapsed: real): (r: int)
    ensures r >= 0
  {
    Max(0, Trunc(t.maxSeconds as real - elapsed))
  }

  /** The remaining time is the whole seconds left, never negative and never above the
      maximum once any time has passed; it is 0 as soon as the maximum is reached. */
  lemma RemainingTimeBounds(t: Timer, elapsed: real)
    ensures var r := GetRemainingTime(t, elapsed);
      && r == Max(0, (t.maxSeconds as real - elapsed).Floor)
      && (elapsed >= 0.0 && t.maxSeconds >= 0 ==> 0 <= r <= t.maxSeconds)
      && (elapsed >= t.maxSeconds as real ==> r == 0)
      && (elapsed <= t.maxSeconds as real ==>
            r as real <= t.maxSeconds as real - elapsed < r as real + 1.0)
  {
    ClampedTruncIsClampedFloor(t.maxSeconds as real - elapsed);
  }

  /** `calculate_time_taken`: the elapsed time capped at the maximum. */
  function CalculateTimeTaken(t: Timer, elapsed: real): (r: real)
    ensures r <= t.maxSeconds as real
    ensures r <= elapsed
    ensures r == elapsed || r == t.maxSeconds as real
  {
    MinReal(elapsed, t.maxSeconds as real)
  }

  /** `is_expired`: no whole second remains. */
  function IsExpired(t: Timer, elapsed: real): (b: bool)
    ensures b <==> GetRemainingTime(t, elapsed) <= 0
  {
    GetRemainingTime(t, elapsed) <= 0
  }

  /** The timer counts as expired as soon as less than one second is left,
      that is, strictly before the full maximum has elapsed. */
  lemma ExpiredIffLessThanOneSecondLeft(t: Timer, elapsed: real)
    ensures IsExpired(t, elapsed) <==> t.maxSeconds as real - elapsed < 1.0
  {
    RemainingTimeBounds(t, elapsed);
  }

  /** The concrete expectations of the timer test suite, for a 10 s timer. The test "at the
      limit" measures slightly more than 10 s by the time it reads the clock, hence 10.001. */
  lemma TimerSuiteExpectations()
    ensures var t := NewTimer(Some(10));
      && ValidateSubmissionTime(t, 5.0).isValid && !ValidateSubmissionTime(t, 5.0).shouldAutoSubmit
      && ValidateSubmissionTime(t, 10.001).isValid && ValidateSubmissionTime(t, 10.001).shouldAutoSubmit
      && !ValidateSubmissionTime(t, 15.0).isValid && ValidateSubmissionTime(t, 15.0).shouldAutoSubmit
      && ValidateSubmissionTime(t, 15.0).timeExceededBy >= 5.0
      && ValidateSubmissionTime(t, 11.0).isValid && ValidateSubmissionTime(t, 11.0).shouldAutoSubmit
      && !ValidateSubmissionTime(t, 12.0).isValid
      && GetRemainingTime(t, 3.0) == 7 && GetRemainingTime(t, 15.0) == 0
      && CalculateTimeTaken(t, 7.0) == 7.0 && CalculateTimeTaken(t, 15.0) == 10.0
      && IsExpired(t, 11.0) && !IsExpired(t, 5.0)
      && GlobalTimer().maxSeconds == 10 && GlobalTimer().gracePeriod == 1.5
  {
    RemainingTimeBounds(NewTimer(Some(10)), 3.0);
  }
}
