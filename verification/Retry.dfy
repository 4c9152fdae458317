/** Retry with exponential backoff: the delay arithmetic, over real numbers, and the loop
    that spends attempts until one succeeds. */
module Retrying {
  import opened Machine

  /** Delays are in microseconds. */
  datatype Backoff = Backoff(
    initialDelay: nat,
    maxDelay: nat,
    multiplier: real,
    maxAttempts: U32,
    jitterFactor: real)

  function MinReal(a: real, b: real): real { if a <= b then a else b }

  function MaxReal(a: real, b: real): real { if a >= b then a else b }

  function Power(x: real, n: nat): real { if n == 0 then 1.0 else x * Power(x, n - 1) }

  /** The capped exponential delay before jitter. */
  function BaseDelay(cfg: Backoff, attempt: nat): real
    requires attempt >= 1
  {
    MinReal(cfg.initialDelay as real * Power(cfg.multiplier, attempt - 1), cfg.maxDelay as real)
  }

  /** Maps jitter from [0, 1] to [-1, 1]. */
  function Swing(jitter: real): real { jitter * 2.0 - 1.0 }

  /** The base delay moved by up to the jitter factor either way. */
  function Jittered(cfg: Backoff, base: real, jitter: real): real {
    base + Swing(jitter) * (base * cfg.jitterFactor)
  }

  /** At least one microsecond, truncated to whole ones. */
  function Clamp(x: real): nat { Min(MaxReal(x, 1.0).Floor, U64_MAX) }

  /** `delay_for_attempt_with_jitter`. Jitter comes after the cap. */
  function Delay(cfg: Backoff, attempt: nat, jitter: real): nat {
    if attempt == 0 then 0 else Clamp(Jittered(cfg, BaseDelay(cfg, attempt), jitter))
  }

  predicate Fraction(x: real) { 0.0 <= x <= 1.0 }

  lemma ClampMonotone(a: real, b: real)
    requires a <= b
    ensures Clamp(a) <= Clamp(b)
  {
  }

  lemma ClampIsBelow(x: real, top: real)
    requires x <= top
    ensures Clamp(x) as real <= MaxReal(1.0, top)
  {
  }

  lemma ClampFits(x: real, limit: nat)
    ensures Clamp(x) <= limit <==> limit >= U64_MAX || (limit >= 1 && x < limit as real + 1.0)
  {
  }

  /** Whatever the configuration, every delay after the first attempt is at least one
      microsecond, so every retry waits and is counted. */
  lemma RetriesAlwaysWait(cfg: Backoff, attempt: nat, jitter: real)
    ensures Delay(cfg, attempt, jitter) == 0 <==> attempt == 0
  {
  }

  lemma {:induction false} PowerGrows(x: real, n: nat)
    requires x >= 1.0
    ensures 1.0 <= Power(x, n) <= Power(x, n + 1)
  {
    if n > 0 {
      PowerGrows(x, n - 1);
    }
    ScaleGrows(Power(x, n), 1.0, x);
  }

  lemma ScaleGrows(a: real, x: real, y: real)
    requires a >= 0.0 && x <= y
    ensures a * x <= a * y
  {
  }

  /** In the middle of the jitter range the delay is the capped base itself: it never
      decreases from one attempt to the next and never exceeds the maximum. */
  lemma UnjitteredDelaysGrowToTheCap(cfg: Backoff, attempt: nat)
    requires cfg.multiplier >= 1.0 && attempt >= 1
    ensures Delay(cfg, attempt, 0.5) <= Delay(cfg, attempt + 1, 0.5) <= Max(1, cfg.maxDelay)
  {
    BaseGrows(cfg, attempt);
    var a, b := BaseDelay(cfg, attempt), BaseDelay(cfg, attempt + 1);
    NoOffset(cfg, a);
    NoOffset(cfg, b);
    ClampMonotone(a, b);
    ClampMonotone(b, cfg.maxDelay as real);
    ClampFits(cfg.maxDelay as real, Max(1, cfg.maxDelay));
  }

  lemma BaseGrows(cfg: Backoff, attempt: nat)
    requires cfg.multiplier >= 1.0 && attempt >= 1
    ensures BaseDelay(cfg, attempt) <= BaseDelay(cfg, attempt + 1) <= cfg.maxDelay as real
  {
    PowerGrows(cfg.multiplier, attempt - 1);
    CappedGrows(cfg.initialDelay as real, Power(cfg.multiplier, attempt - 1), Power(cfg.multiplier, attempt),
                cfg.maxDelay as real);
  }

  lemma CappedGrows(a: real, x: real, y: real, top: real)
    requires a >= 0.0 && x <= y
    ensures MinReal(a * x, top) <= MinReal(a * y, top) <= top
  {
    ScaleGrows(a, x, y);
  }

  lemma ZeroTimes(zero: real, x: real)
    requires zero == 0.0
    ensures zero * x == 0.0
  {
  }

  lemma NoOffset(cfg: Backoff, base: real)
    ensures Jittered(cfg, base, 0.5) == base
  {
    ZeroTimes(Swing(0.5), base * cfg.jitterFactor);
  }

  /** The largest value jitter can stretch a delay to. */
  function Stretched(cfg: Backoff, base: real): real { base * (1.0 + cfg.jitterFactor) }

  lemma JitterStretches(cfg: Backoff, base: real, jitter: real)
    requires Fraction(jitter) && Fraction(cfg.jitterFactor) && base >= 0.0
    ensures Jittered(cfg, base, jitter) <= Stretched(cfg, base)
    ensures Jittered(cfg, base, 1.0) == Stretched(cfg, base)
  {
    var range := base * cfg.jitterFactor;
    ScaleGrows(base, 0.0, cfg.jitterFactor);
    ScaleGrows(range, Swing(jitter), 1.0);
    assert Stretched(cfg, base) == base + range;
    assert Swing(1.0) == 1.0 && Jittered(cfg, base, 1.0) == base + 1.0 * range;
  }

  /** While below the cap, each delay before jitter is the previous one times the multiplier,
      starting from the initial delay. */
  lemma DelaysMultiplyBelowTheCap(cfg: Backoff, attempt: nat)
    requires attempt >= 1 && BaseDelay(cfg, attempt + 1) < cfg.maxDelay as real
    requires BaseDelay(cfg, attempt) < cfg.maxDelay as real
    ensures BaseDelay(cfg, attempt + 1) == cfg.multiplier * BaseDelay(cfg, attempt)
    ensures attempt == 1 ==> BaseDelay(cfg, attempt) == cfg.initialDelay as real
  {
    var initial, p := cfg.initialDelay as real, Power(cfg.multiplier, attempt - 1);
    assert Power(cfg.multiplier, attempt) == cfg.multiplier * p;
    assert BaseDelay(cfg, attempt) == initial * p;
    assert BaseDelay(cfg, attempt + 1) == initial * (cfg.multiplier * p);
    Commute(initial, cfg.multiplier, p);
  }

  lemma Commute(a: real, x: real, p: real)
    ensures a * (x * p) == x * (a * p)
  {
  }

  /** The initial delay, multiplied once for every attempt after the first. */
  function Uncapped(cfg: Backoff, attempt: nat): real
    requires attempt >= 1
  {
    if attempt == 1 then cfg.initialDelay as real else cfg.multiplier * Uncapped(cfg, attempt - 1)
  }

  lemma {:induction false} UncappedIsAPower(cfg: Backoff, attempt: nat)
    requires attempt >= 1
    ensures Uncapped(cfg, attempt) == cfg.initialDelay as real * Power(cfg.multiplier, attempt - 1)
  {
    if attempt > 1 {
      UncappedIsAPower(cfg, attempt - 1);
      Commute(cfg.initialDelay as real, cfg.multiplier, Power(cfg.multiplier, attempt - 2));
    }
  }

  /** For every attempt, the delay before jitter is the uncapped one up to the maximum and the
      maximum beyond it. */
  lemma BaseIsTheCappedProduct(cfg: Backoff, attempt: nat)
    requires attempt >= 1
    ensures
      var x, top := Uncapped(cfg, attempt), cfg.maxDelay as real;
      BaseDelay(cfg, attempt) == if x <= top then x else top
  {
    UncappedIsAPower(cfg, attempt);
  }

  /** Rounding: at least one, down to whole microseconds, up to 64 bits. */
  lemma ClampRounds(x: real)
    ensures
      var exact := if x >= 1.0 then x else 1.0;
      if exact >= 18446744073709551616.0 then Clamp(x) == 18_446_744_073_709_551_615
      else Clamp(x) as real <= exact < Clamp(x) as real + 1.0
  {
  }

  lemma JitterMoves(cfg: Backoff, base: real, jitter: real)
    ensures Jittered(cfg, base, jitter) == base + (2.0 * jitter - 1.0) * (base * cfg.jitterFactor)
  {
    assert Swing(jitter) == 2.0 * jitter - 1.0;
  }

  /** The whole delay: the capped product, moved by the jitter factor times the jitter scaled
      to [-1, 1], is `moved`; it is raised to one microsecond and rounded down to whole ones
      that fit in 64 bits. */
  lemma DelayIsExact(cfg: Backoff, attempt: nat, jitter: real, base: real, moved: real)
    requires attempt >= 1
    requires base == (if Uncapped(cfg, attempt) <= cfg.maxDelay as real then Uncapped(cfg, attempt) else cfg.maxDelay as real)
    requires moved == base + (2.0 * jitter - 1.0) * (base * cfg.jitterFactor)
    ensures
      var d, exact := Delay(cfg, attempt, jitter), if moved >= 1.0 then moved else 1.0;
      if exact >= 18446744073709551616.0 then d == 18_446_744_073_709_551_615
      else d as real <= exact < d as real + 1.0
  {
    BaseIsTheCappedProduct(cfg, attempt);
    JitterMoves(cfg, base, jitter);
    assert Delay(cfg, attempt, jitter) == Clamp(moved);
    ClampRounds(moved);
  }

  /** Jitter moves a delay by at most the jitter factor either way, symmetrically. */
  lemma JitterIsSymmetric(cfg: Backoff, base: real, jitter: real)
    requires Fraction(jitter) && Fraction(cfg.jitterFactor) && base >= 0.0
    ensures base - base * cfg.jitterFactor <= Jittered(cfg, base, jitter) <= base + base * cfg.jitterFactor
    ensures Jittered(cfg, base, jitter) - base == base - Jittered(cfg, base, 1.0 - jitter)
  {
    var range, swing := base * cfg.jitterFactor, Swing(jitter);
    ScaleGrows(base, 0.0, cfg.jitterFactor);
    assert Swing(1.0 - jitter) == -swing;
    SwingStaysInRange(swing, range);
    assert Jittered(cfg, base, jitter) == base + swing * range;
    assert Jittered(cfg, base, 1.0 - jitter) == base + (-swing) * range;
  }

  lemma SwingStaysInRange(swing: real, range: real)
    requires -1.0 <= swing <= 1.0 && range >= 0.0
    ensures -range <= swing * range <= range
    ensures (-swing) * range == -(swing * range)
  {
    ScaleGrows(range, swing, 1.0);
    ScaleGrows(range, -1.0, swing);
  }

  /** A jittered delay is at most the maximum stretched by the jitter factor, or one
      microsecond. */
  lemma DelayIsBounded(cfg: Backoff, attempt: nat, jitter: real)
    requires Fraction(jitter) && Fraction(cfg.jitterFactor) && cfg.multiplier >= 0.0
    ensures Delay(cfg, attempt, jitter) as real <= MaxReal(1.0, Stretched(cfg, cfg.maxDelay as real))
  {
    if attempt >= 1 {
      var base, top := BaseDelay(cfg, attempt), cfg.maxDelay as real;
      BaseIsNonNegative(cfg, attempt);
      JitterStretches(cfg, base, jitter);
      StretchedGrows(cfg, base, top);
      ClampIsBelow(Jittered(cfg, base, jitter), Stretched(cfg, top));
    }
  }

  lemma StretchedGrows(cfg: Backoff, a: real, b: real)
    requires Fraction(cfg.jitterFactor) && a <= b
    ensures Stretched(cfg, a) <= Stretched(cfg, b)
  {
    ScaleGrows(1.0 + cfg.jitterFactor, a, b);
  }

  /** The configured maximum is respected for every jitter value if and only if the stretched
      base stays within the microsecond of the maximum; jitter is applied after the cap, so
      the stretched cap itself does not. */
  lemma MaximumHoldsExactlyWhen(cfg: Backoff, attempt: nat)
    requires Fraction(cfg.jitterFactor) && attempt >= 1 && cfg.multiplier >= 0.0
    ensures
      (forall jitter {:trigger Fraction(jitter)} :: Fraction(jitter) ==> Delay(cfg, attempt, jitter) <= cfg.maxDelay) <==>
      (cfg.maxDelay >= U64_MAX ||
       (cfg.maxDelay >= 1 && Stretched(cfg, BaseDelay(cfg, attempt)) < cfg.maxDelay as real + 1.0))
  {
    var base := BaseDelay(cfg, attempt);
    BaseIsNonNegative(cfg, attempt);
    JitterStretches(cfg, base, 1.0);
    assert Fraction(1.0);
    ClampFits(Stretched(cfg, base), cfg.maxDelay);
    forall jitter | Fraction(jitter) ensures Delay(cfg, attempt, jitter) <= Clamp(Stretched(cfg, base)) {
      JitterStretches(cfg, base, jitter);
      ClampMonotone(Jittered(cfg, base, jitter), Stretched(cfg, base));
    }
  }

  lemma BaseIsNonNegative(cfg: Backoff, attempt: nat)
    requires cfg.multiplier >= 0.0 && attempt >= 1
    ensures BaseDelay(cfg, attempt) >= 0.0
  {
    PowerIsNonNegative(cfg.multiplier, attempt - 1);
    ScaleGrows(cfg.initialDelay as real, 0.0, Power(cfg.multiplier, attempt - 1));
  }

  lemma {:induction false} PowerIsNonNegative(x: real, n: nat)
    requires x >= 0.0
    ensures Power(x, n) >= 0.0
  {
    if n > 0 {
      PowerIsNonNegative(x, n - 1);
      ScaleGrows(x, 0.0, Power(x, n - 1));
    }
  }

  // ---------------------------------------------------------------------- the retry loop

  datatype Error = NotReady | Backend(code: nat)

  datatype Outcome = Ok | Err(error: Error)

  /** How many inner calls an emit made and what it returned. */
  datatype Tried = Tried(calls: nat, result: Outcome)

  /** Try the calls numbered `from ..` until one succeeds or `budget + 1` have failed;
      `script` is what the inner emitter answers to each of its calls. */
  function Attempts(script: nat -> Outcome, from: nat, budget: nat): Tried
    decreases budget
  {
    if script(from).Ok? then Tried(1, Ok)
    else if budget == 0 then Tried(1, script(from))
    else
      var rest := Attempts(script, from + 1, budget - 1);
      Tried(rest.calls + 1, rest.result)
  }

  /** An emit succeeds exactly when one of its first `budget + 1` calls does; it stops right
      there, makes every call before it a failure, and otherwise returns the last error. */
  lemma {:induction false} AttemptsStopAtFirstSuccess(script: nat -> Outcome, from: nat, budget: nat)
    ensures
      var t := Attempts(script, from, budget);
      && 1 <= t.calls <= budget + 1
      && (t.result.Ok? <==> exists k :: from <= k <= from + budget && script(k).Ok?)
      && (forall k :: from <= k < from + t.calls - 1 ==> script(k).Err?)
      && t.result == script(from + t.calls - 1)
      && (t.result.Err? ==> t.calls == budget + 1)
    decreases budget
  {
    if script(from).Err? && budget > 0 {
      AttemptsStopAtFirstSuccess(script, from + 1, budget - 1);
    }
  }

  function Total(delay: nat -> nat, n: nat): nat {
    if n == 0 then 0 else Total(delay, n - 1) + delay(n)
  }

  /** Time slept over the attempts `1 .. n`. */
  function Slept(cfg: Backoff, jitter: nat -> real, n: nat): nat {
    Total(i => Delay(cfg, i, jitter(i)), n)
  }

  /** The time slept is the sum of the delays: every retry adds its own. */
  lemma SleptAddsUp(cfg: Backoff, jitter: nat -> real, n: nat)
    ensures Slept(cfg, jitter, 0) == 0
    ensures Slept(cfg, jitter, n + 1) == Slept(cfg, jitter, n) + Delay(cfg, n + 1, jitter(n + 1))
  {
    SameTotals(i => Delay(cfg, i, jitter(i)), i => Delay(cfg, i, jitter(i)), n);
  }

  lemma {:induction false} SameTotals(f: nat -> nat, g: nat -> nat, n: nat)
    requires forall i :: 0 <= i <= n ==> f(i) == g(i)
    ensures Total(f, n) == Total(g, n)
  {
    if n > 0 {
      SameTotals(f, g, n - 1);
    }
  }

  function Shares(n: nat, share: real): real {
    if n == 0 then 0.0 else Shares(n - 1, share) + share
  }

  lemma {:induction false} SharesAreAProduct(n: nat, share: real)
    ensures Shares(n, share) == n as real * share
  {
    if n > 0 {
      SharesAreAProduct(n - 1, share);
      OneMoreShare((n - 1) as real, share);
    }
  }

  lemma OneMoreShare(n: real, share: real)
    ensures (n + 1.0) * share == n * share + share
  {
  }

  lemma {:induction false} TotalInShares(delay: nat -> nat, n: nat, share: real)
    requires forall i :: 1 <= i <= n ==> delay(i) as real <= share
    ensures Total(delay, n) as real <= Shares(n, share)
  {
    if n > 0 {
      TotalInShares(delay, n - 1, share);
    }
  }

  /** The longest any single delay can get. */
  function LongestDelay(cfg: Backoff): real { MaxReal(1.0, Stretched(cfg, cfg.maxDelay as real)) }

  lemma SleptInShares(cfg: Backoff, jitter: nat -> real, n: nat)
    requires Fraction(cfg.jitterFactor) && cfg.multiplier >= 0.0
    requires forall i :: 1 <= i <= n ==> Fraction(jitter(i))
    ensures Slept(cfg, jitter, n) as real <= Shares(n, LongestDelay(cfg))
  {
    forall i | 1 <= i <= n ensures Delay(cfg, i, jitter(i)) as real <= LongestDelay(cfg) {
      DelayIsBounded(cfg, i, jitter(i));
    }
    TotalInShares(i => Delay(cfg, i, jitter(i)), n, LongestDelay(cfg));
  }

  /** Waiting over a whole emit is at most one bounded delay per retry. */
  lemma WaitingIsBounded(cfg: Backoff, jitter: nat -> real, n: nat)
    requires Fraction(cfg.jitterFactor) && cfg.multiplier >= 0.0
    requires forall i :: 1 <= i <= n ==> Fraction(jitter(i))
    ensures Slept(cfg, jitter, n) as real <= n as real * MaxReal(1.0, cfg.maxDelay as real * (1.0 + cfg.jitterFactor))
  {
    SleptInShares(cfg, jitter, n);
    SharesAreAProduct(n, LongestDelay(cfg));
  }

  class RetryEmitter {
    const config: Backoff
    var retryCount: nat
    var recoveredCount: nat

    constructor (config: Backoff)
      ensures this.config == config && retryCount == 0 && recoveredCount == 0
    {
      this.config := config;
      retryCount, recoveredCount := 0, 0;
    }

    /** One emit against an inner emitter that answers its calls `from ..` by `script`. */
    method Emit(script: nat -> Outcome, from: nat, jitter: nat -> real)
      returns (result: Outcome, calls: nat, slept: nat)
      modifies this
      ensures Attempts(script, from, config.maxAttempts) == Tried(calls, result)
      ensures retryCount == old(retryCount) + calls - 1
      ensures recoveredCount == old(recoveredCount) + if result.Ok? && calls > 1 then 1 else 0
      ensures slept == Slept(config, jitter, calls - 1)
    {
      result, slept := Err(NotReady), 0;
      var attempt := 0;
      AttemptsStopAtFirstSuccess(script, from, config.maxAttempts);
      while attempt <= config.maxAttempts
        invariant attempt <= config.maxAttempts + 1
        invariant retryCount == old(retryCount) + Max(1, attempt) - 1
        invariant recoveredCount == old(recoveredCount)
        invariant slept == Slept(config, jitter, Max(1, attempt) - 1)
        invariant attempt > 0 ==> result == script(from + attempt - 1)
        invariant forall k :: from <= k < from + attempt ==> script(k).Err?
      {
        var delay := Delay(config, attempt, jitter(attempt));
        RetriesAlwaysWait(config, attempt, jitter(attempt));
        if delay != 0 {
          retryCount := retryCount + 1;
          slept := slept + delay;
        }
        result := script(from + attempt);
        if result.Ok? {
          if attempt > 0 {
            recoveredCount := recoveredCount + 1;
          }
          FirstSuccessIsUnique(script, from, config.maxAttempts, attempt);
          return result, attempt + 1, slept;
        }
        attempt := attempt + 1;
      }
      calls := attempt;
    }
  }

  lemma FirstSuccessIsUnique(script: nat -> Outcome, from: nat, budget: nat, k: nat)
    requires k <= budget && script(from + k).Ok?
    requires forall i :: from <= i < from + k ==> script(i).Err?
    ensures Attempts(script, from, budget) == Tried(k + 1, Ok)
  {
    AttemptsStopAtFirstSuccess(script, from, budget);
    var t := Attempts(script, from, budget);
    assert script(from + t.calls - 1).Ok?;
  }
}
