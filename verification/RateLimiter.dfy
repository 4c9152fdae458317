/** `RateLimiter` as one caller at a time sees it: the sequential meaning of a call, the
    class with its retry loops, and the proof that a sequence of calls is one of the runs
    of the concurrent step machine, so that every law of that machine holds here too. */
module RateLimiting {
  import opened Machine
  import TB = TokenBucket

  /** The two atomics between calls. */
  datatype Level = Level(tokens: nat, lastRefill: nat)

  /** Whole refill intervals between `lastRefill` and `now`. */
  function Elapsed(cfg: TB.Config, l: Level, now: nat): nat
    requires cfg.refillNanos >= 1
  {
    SaturatingSub(now, l.lastRefill) / cfg.refillNanos
  }

  /** `refill`, uncontended. */
  function Refill(cfg: TB.Config, l: Level, now: nat): Level
    requires cfg.refillNanos >= 1
  {
    var k := Elapsed(cfg, l, now);
    if k == 0 then l
    else Level(TB.Topped(cfg, l.tokens, WrappingMul(k, TB.TOKEN)), l.lastRefill + k * cfg.refillNanos)
  }

  /** `try_acquire`, uncontended: the level it leaves and whether it admitted the call. */
  function TryAcquire(cfg: TB.Config, l: Level, now: nat): (Level, bool)
    requires cfg.refillNanos >= 1
  {
    var r := Refill(cfg, l, now);
    if r.tokens < TB.TOKEN then (r, false) else (r.(tokens := r.tokens - TB.TOKEN), true)
  }

  // ------------------------------------------------------------------ refilling is exact

  /** A refill credits one token per elapsed interval, up to capacity, if and only if the
      64-bit product does not wrap or what is left of it still fills the bucket. */
  lemma RefillIsExactWhen(cfg: TB.Config, l: Level, now: U64)
    requires cfg.refillNanos >= 1 && l.tokens <= cfg.capacity
    ensures
      var k := Elapsed(cfg, l, now);
      Refill(cfg, l, now).tokens == Min(l.tokens + k * TB.TOKEN, cfg.capacity) <==>
      (k * TB.TOKEN <= U64_MAX || l.tokens + WrappingMul(k, TB.TOKEN) >= cfg.capacity)
  {
    TB.WrappingMulBound(Elapsed(cfg, l, now), TB.TOKEN);
  }

  lemma ElapsedSplits(cfg: TB.Config, l: Level, t1: U64, t2: U64)
    requires cfg.refillNanos >= 1 && t1 <= t2
    ensures Elapsed(cfg, l, t1) + Elapsed(cfg, Refill(cfg, l, t1), t2) == Elapsed(cfg, l, t2)
    ensures Refill(cfg, l, t1).lastRefill == l.lastRefill + Elapsed(cfg, l, t1) * cfg.refillNanos
  {
    var n, k1 := cfg.refillNanos, Elapsed(cfg, l, t1);
    if k1 > 0 {
      var rest := t2 - (l.lastRefill + k1 * n);
      AddMultiple(rest, k1, n);
      assert rest + k1 * n == t2 - l.lastRefill;
    }
  }

  /** What `k` intervals are worth after the 64-bit product. */
  function Worth(k: nat): U64 { WrappingMul(k, TB.TOKEN) }

  lemma RefillMeaning(cfg: TB.Config, l: Level, now: U64)
    requires cfg.refillNanos >= 1 && l.tokens <= cfg.capacity
    ensures
      var k := Elapsed(cfg, l, now);
      Refill(cfg, l, now) == Level(Min(l.tokens + Worth(k), cfg.capacity), l.lastRefill + k * cfg.refillNanos)
  {
  }

  /** Two worths add up to the worth of the sum, or wrap once more. */
  lemma WorthsAdd(j: nat, k: nat)
    ensures
      Worth(j + k) == if Worth(j) + Worth(k) <= U64_MAX then Worth(j) + Worth(k) else Worth(j) + Worth(k) - U64_MAX - 1
  {
    SumWraps(j * TB.TOKEN, k * TB.TOKEN);
  }

  lemma SumWraps(a: nat, b: nat)
    ensures
      var m := U64_MAX + 1;
      (a + b) % m == if a % m + b % m < m then a % m + b % m else a % m + b % m - m
  {
    var m := U64_MAX + 1;
    var q := a / m + b / m;
    QuotientBounds(a, m);
    QuotientBounds(b, m);
    if a % m + b % m < m {
      QuotientIsUnique(a + b, q, m);
    } else {
      QuotientIsUnique(a + b, q + 1, m);
    }
  }

  /** Refilling at `t1` and again at `t2` is the same as refilling once at `t2`, if and only
      if the two credits do not overflow together or the single refill fills the bucket
      anyway; either refill may have wrapped on its own. */
  lemma RefillsMergeWhen(cfg: TB.Config, l: Level, t1: U64, t2: U64)
    requires cfg.refillNanos >= 1 && l.tokens <= cfg.capacity && t1 <= t2
    ensures
      var j, k := Elapsed(cfg, l, t1), Elapsed(cfg, Refill(cfg, l, t1), t2);
      Refill(cfg, Refill(cfg, l, t1), t2) == Refill(cfg, l, t2) <==>
      (Worth(j) + Worth(k) <= U64_MAX || l.tokens + Worth(j + k) >= cfg.capacity)
  {
    var m := Refill(cfg, l, t1);
    var j, k := Elapsed(cfg, l, t1), Elapsed(cfg, m, t2);
    RefillMeaning(cfg, l, t1);
    RefillMeaning(cfg, m, t2);
    RefillMeaning(cfg, l, t2);
    ElapsedSplits(cfg, l, t1, t2);
    WorthsAdd(j, k);
    TimesDistributes(j, k, cfg.refillNanos);
  }

  /** The product does wrap: after 213 idle days at the highest rate a single refill leaves
      the bucket nearly empty, where refilling a nanosecond earlier would have filled it. */
  lemma RefillCanWrap()
    ensures
      var cfg := TB.Config(1_000_000, 1);
      var empty := Level(0, 0);
      && Refill(cfg, empty, 18_446_744_073_709_551).tokens == 1_000_000
      && Refill(cfg, empty, 18_446_744_073_709_552).tokens == 384
  {
  }

  /** After a refill at `now` less than one interval is left over. */
  lemma RefillCatchesUp(cfg: TB.Config, l: Level, now: nat)
    requires cfg.refillNanos >= 1
    ensures now < Refill(cfg, l, now).lastRefill + cfg.refillNanos
  {
  }

  // --------------------------------------------- a sequence of calls is a run of the machine

  /** The levels and admissions of a sequence of calls, one per clock reading. */
  function Calls(cfg: TB.Config, l: Level, readings: seq<U64>): (Level, nat)
    requires cfg.refillNanos >= 1
    decreases |readings|
  {
    if readings == [] then (l, 0)
    else
      var (next, admitted) := TryAcquire(cfg, l, readings[0]);
      var (end, more) := Calls(cfg, next, readings[1..]);
      (end, more + if admitted then 1 else 0)
  }

  function LevelOf(s: TB.Sys): Level { Level(s.tokens, s.lastRefill) }

  lemma ExecOne(cfg: TB.Config, s: TB.Sys, e: TB.Event)
    ensures TB.Exec(cfg, s, [e]) == TB.Step(cfg, s, e)
  {
    assert TB.Exec(cfg, TB.Step(cfg, s, e), [e][1..]) == TB.Step(cfg, s, e);
  }

  lemma ExecMore(cfg: TB.Config, s: TB.Sys, events: seq<TB.Event>, e: TB.Event)
    ensures TB.Exec(cfg, s, events + [e]) == TB.Step(cfg, TB.Exec(cfg, s, events), e)
  {
    TB.ExecAppend(cfg, s, events, [e]);
    ExecOne(cfg, TB.Exec(cfg, s, events), e);
  }

  /** Left alone from the load of `lastRefill`, a thread reaches the acquire loop with the
      bucket at its refilled level. */
  lemma SoloRefill(cfg: TB.Config, s: TB.Sys, tid: nat, now: U64) returns (events: seq<TB.Event>)
    requires cfg.refillNanos >= 1 && tid < |s.threads| && s.tokens <= cfg.capacity
    requires s.threads[tid] == TB.Claiming(now, 0)
    ensures
      var t := TB.Exec(cfg, s, events);
      && t.threads == s.threads[tid := TB.Acquiring]
      && LevelOf(t) == Refill(cfg, LevelOf(s), now)
      && t.acquired == s.acquired && t.latest == s.latest
  {
    var e := TB.Event(tid, now, false);
    var k := Elapsed(cfg, LevelOf(s), now);
    events := [e];
    ExecOne(cfg, s, e);
    if SaturatingSub(now, s.lastRefill) < cfg.refillNanos {
      QuotientIsUnique(SaturatingSub(now, s.lastRefill), 0, cfg.refillNanos);
    } else {
      TB.IntervalsFitInElapsed(now - s.lastRefill, cfg.refillNanos);
      var s1 := TB.Exec(cfg, s, events);
      assert s1.threads[tid] == TB.Claim(now, s.lastRefill, k, 0);
      ExecMore(cfg, s, events, e);
      events := events + [e];
      var s2 := TB.Exec(cfg, s, events);
      if !s2.threads[tid].Acquiring? {
        assert s2.threads[tid] == TB.Crediting(WrappingMul(k, TB.TOKEN));
        ExecMore(cfg, s, events, e);
        events := events + [e];
        if !TB.Exec(cfg, s, events).threads[tid].Acquiring? {
          ExecMore(cfg, s, events, e);
          events := events + [e];
        }
      }
    }
  }

  /** A whole call run without interruption has the sequential meaning. */
  lemma SoloCall(cfg: TB.Config, s: TB.Sys, tid: nat, now: U64) returns (events: seq<TB.Event>)
    requires cfg.refillNanos >= 1 && tid < |s.threads| && s.tokens <= cfg.capacity
    requires s.threads[tid] == TB.Idle
    ensures
      var t := TB.Exec(cfg, s, events);
      var (level, admitted) := TryAcquire(cfg, LevelOf(s), now);
      && t.threads == s.threads
      && LevelOf(t) == level
      && t.acquired == s.acquired + (if admitted then 1 else 0)
      && t.latest == Max(s.latest, now)
      && t.tokens <= cfg.capacity
  {
    var e := TB.Event(tid, now, false);
    var begun := TB.Step(cfg, s, e);
    ExecOne(cfg, s, e);
    var refill := SoloRefill(cfg, begun, tid, now);
    TB.ExecAppend(cfg, s, [e], refill);
    events := [e] + refill;
    var r := TB.Exec(cfg, s, events);
    assert r.threads == s.threads[tid := TB.Acquiring];
    ExecMore(cfg, s, events, e);
    events := events + [e];
    if r.tokens >= TB.TOKEN {
      ExecMore(cfg, s, events, e);
      events := events + [e];
    }
    assert TB.Exec(cfg, s, events).threads == s.threads;
  }

  /** Every sequence of calls is an interleaving of the step machine: same level, same
      number of admissions. */
  lemma {:induction false} CallsAreARun(cfg: TB.Config, s: TB.Sys, tid: nat, readings: seq<U64>, bound: nat)
    returns (events: seq<TB.Event>)
    requires cfg.refillNanos >= 1 && tid < |s.threads| && s.tokens <= cfg.capacity
    requires s.threads[tid] == TB.Idle
    requires s.latest <= bound && forall r :: r in readings ==> r <= bound
    ensures
      var t := TB.Exec(cfg, s, events);
      var (level, admitted) := Calls(cfg, LevelOf(s), readings);
      && t.threads == s.threads
      && LevelOf(t) == level
      && t.acquired == s.acquired + admitted
      && t.tokens <= cfg.capacity
      && t.latest <= bound
    decreases |readings|
  {
    if readings == [] {
      events := [];
    } else {
      assert readings[0] in readings && forall r :: r in readings[1..] ==> r in readings;
      var first := SoloCall(cfg, s, tid, readings[0]);
      var t := TB.Exec(cfg, s, first);
      var rest := CallsAreARun(cfg, t, tid, readings[1..], bound);
      TB.ExecAppend(cfg, s, first, rest);
      events := first + rest;
    }
  }

  lemma {:induction false} CallsAppend(cfg: TB.Config, l: Level, a: seq<U64>, b: seq<U64>)
    requires cfg.refillNanos >= 1
    ensures
      var (mid, x) := Calls(cfg, l, a);
      var (end, y) := Calls(cfg, mid, b);
      Calls(cfg, l, a + b) == (end, x + y)
    decreases |a|
  {
    if a == [] {
      assert a + b == b;
    } else {
      assert (a + b)[1..] == a[1..] + b;
      CallsAppend(cfg, TryAcquire(cfg, l, a[0]).0, a[1..], b);
    }
  }

  /** A limiter called at `t1` admits, over all its later calls with readings up to `t2`,
      at most burst + (t2 - t1) / refillNanos + 1 messages. */
  lemma CallsWindowLaw(rate: U64, burst: U64, before: seq<U64>, t1: U64, window: seq<U64>, t2: U64)
    requires rate <= TB.NANOS_PER_SECOND && t1 <= t2
    requires forall r :: r in before || r in window ==> r <= t2
    ensures
      var cfg := TB.Configure(rate, burst);
      && cfg.refillNanos >= 1
      && var mid := Calls(cfg, Level(cfg.capacity, 0), before + [t1]).0;
         Calls(cfg, mid, window).1 <= burst + (t2 - t1) / cfg.refillNanos + 1
  {
    TB.ConfigureFacts(rate, burst);
    var cfg := TB.Configure(rate, burst);
    var s0 := TB.Init(cfg, 1);
    var head := CallsAreARun(cfg, s0, 0, before + [t1], t2);
    var s1 := TB.Exec(cfg, s0, head);
    var tail := CallsAreARun(cfg, s1, 0, window, t2);
    TB.ExecAppend(cfg, s0, head, tail);
    TB.PendingOfIdle(s1.threads);
    LastCallCatchesUp(cfg, before, t1);
    TB.WindowLaw(rate, burst, 1, head, tail, t1, t2);
  }

  lemma {:induction false} CallsBeforeTheFirstRefill(cfg: TB.Config, l: Level, readings: seq<U64>)
    requires cfg.refillNanos >= 1 && l.lastRefill == 0
    requires forall i :: 0 <= i < |readings| ==> readings[i] < cfg.refillNanos
    ensures Calls(cfg, l, readings).1 == Min(|readings|, l.tokens / TB.TOKEN)
    decreases |readings|
  {
    if readings != [] {
      QuotientIsUnique(readings[0], 0, cfg.refillNanos);
      var next := TryAcquire(cfg, l, readings[0]).0;
      CallsBeforeTheFirstRefill(cfg, next, readings[1..]);
    }
  }

  /** The reading comes before the first message's worth of time has passed: never within the
      64-bit clock for rate zero, else within 10^9 / rate nanoseconds. */
  predicate WithinFirstInterval(rate: U64, reading: U64) {
    if rate == 0 then reading < 18_446_744_073_709_551_615 else (reading + 1) * rate <= 1_000_000_000
  }

  /** A fresh limiter called `n` times before the first refill is due, at time zero for one,
      admits exactly the first `burst` calls, or all the 64-bit capacity can pay for. */
  lemma FreshLimiterAdmitsTheBurst(rate: U64, burst: U64, readings: seq<U64>)
    requires rate <= 1_000_000_000
    requires forall i :: 0 <= i < |readings| ==> WithinFirstInterval(rate, readings[i])
    ensures
      var cfg := TB.Configure(rate, burst);
      && cfg.refillNanos >= 1
      && Calls(cfg, Level(cfg.capacity, 0), readings).1 == Min(|readings|, Min(burst, 18_446_744_073_709_551))
    ensures WithinFirstInterval(rate, 0)
  {
    var cfg := TB.Configure(rate, burst);
    TB.ConfigureFacts(rate, burst);
    forall i | 0 <= i < |readings| ensures readings[i] < cfg.refillNanos {
      assert WithinFirstInterval(rate, readings[i]);
      TimesMonotone(cfg.refillNanos + 1, readings[i] + 1, rate);
    }
    CallsBeforeTheFirstRefill(cfg, Level(cfg.capacity, 0), readings);
    assert cfg.capacity / TB.TOKEN == Min(burst, 18_446_744_073_709_551);
  }

  lemma LastCallCatchesUp(cfg: TB.Config, before: seq<U64>, t1: U64)
    requires cfg.refillNanos >= 1
    ensures t1 < Calls(cfg, Level(cfg.capacity, 0), before + [t1]).0.lastRefill + cfg.refillNanos
  {
    var mid := Calls(cfg, Level(cfg.capacity, 0), before).0;
    CallsAppend(cfg, Level(cfg.capacity, 0), before, [t1]);
    RefillCatchesUp(cfg, mid, t1);
    assert Calls(cfg, mid, [t1]).0 == TryAcquire(cfg, mid, t1).0;
  }

  // ------------------------------------------------------------------------- the class

  datatype Outcome = Admitted | Limited | DividedByZero

  /** The limiter with its retry loops. `spurious` is the number of weak exchanges that
      fail for no reason during the call; it never shows in the result. */
  class RateLimiter {
    const capacity: U64
    const refillNanos: U64
    var tokens: U64
    var lastRefill: U64

    ghost function Cfg(): TB.Config { TB.Config(capacity, refillNanos) }

    ghost predicate Valid() reads this { tokens <= capacity }

    ghost function Now(): Level reads this { Level(tokens, lastRefill) }

    constructor (rate: U64, burst: U64)
      ensures Cfg() == TB.Configure(rate, burst)
      ensures capacity == if burst <= 18_446_744_073_709_551 then burst * 1000 else 18_446_744_073_709_551_615
      ensures
        if rate == 0 then refillNanos == 18_446_744_073_709_551_615
        else refillNanos * rate <= 1_000_000_000 < (refillNanos + 1) * rate
      ensures Valid() && Now() == Level(capacity, 0)
    {
      refillNanos := if rate == 0 then U64_MAX else TB.NANOS_PER_SECOND / rate;
      var scaledBurst := SaturatingMul(burst, TB.TOKEN);
      capacity := scaledBurst;
      tokens := scaledBurst;
      lastRefill := 0;
      TB.ConfigureFacts(rate, burst);
    }

    /** Returns false where the source divides by zero. */
    method DoRefill(now: U64, spurious: nat) returns (ok: bool, left: nat)
      requires Valid()
      modifies this
      ensures Valid()
      ensures ok <==> refillNanos >= 1
      ensures ok ==> Now() == Refill(Cfg(), old(Now()), now)
      ensures !ok ==> Now() == old(Now())
    {
      left := spurious;
      while true
        invariant Valid() && Now() == old(Now())
        decreases left
      {
        var last := lastRefill;
        var elapsed := SaturatingSub(now, last);
        if elapsed < refillNanos {
          QuotientIsUnique(elapsed, 0, refillNanos);
          return true, left;
        }
        if refillNanos == 0 {
          return false, left;
        }
        var intervals := elapsed / refillNanos;
        TB.IntervalsFitInElapsed(elapsed, refillNanos);
        var newLast := last + intervals * refillNanos;
        if lastRefill == last && left == 0 {
          lastRefill := newLast;
          var toAdd := WrappingMul(intervals, TB.TOKEN);
          if toAdd > 0 {
            left := CreditLoop(toAdd, left);
          }
          return true, left;
        }
        left := left - 1;
      }
    }

    method CreditLoop(toAdd: nat, spurious: nat) returns (left: nat)
      modifies this`tokens
      ensures tokens == TB.Topped(Cfg(), old(tokens), toAdd) <= capacity
    {
      left := spurious;
      while true
        invariant tokens == old(tokens)
        decreases left
      {
        var current := tokens;
        var newTokens := Min(SaturatingAdd(current, toAdd), capacity);
        if current == newTokens {
          return;
        }
        if tokens == current && left == 0 {
          tokens := newTokens;
          return;
        }
        left := left - 1;
      }
    }

    method Acquire(now: U64, spurious: nat) returns (r: Outcome)
      requires Valid()
      modifies this
      ensures Valid()
      ensures r == DividedByZero <==> refillNanos == 0
      ensures r != DividedByZero ==>
        TryAcquire(Cfg(), old(Now()), now) == (Now(), r == Admitted)
    {
      var ok, left := DoRefill(now, spurious);
      if !ok {
        return DividedByZero;
      }
      ghost var refilled := Now();
      while true
        invariant Valid() && Now() == refilled
        decreases left
      {
        var current := tokens;
        if current < TB.TOKEN {
          return Limited;
        }
        if tokens == current && left == 0 {
          tokens := current - TB.TOKEN;
          return Admitted;
        }
        left := left - 1;
      }
    }
  }
}
