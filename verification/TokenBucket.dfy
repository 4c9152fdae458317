/** The lock-free token bucket behind `RateLimiter` and each bucket of `Throttle`.

    Two atomics are updated separately: a thread first claims elapsed time by moving
    `lastRefill`, and only later credits `tokens`. Every atomic access is one step, every
    list of events is one interleaving, and a weak exchange may fail for no reason. */
module TokenBucket {
  import opened Machine

  /** One token, scaled. */
  const TOKEN: nat := 1000
  const NANOS_PER_SECOND: nat := 1_000_000_000

  datatype Config = Config(capacity: U64, refillNanos: U64)

  /** `RateLimiter::new` and `TokenBucket::new`. */
  function Configure(rate: U64, burst: U64): Config {
    Config(SaturatingMul(burst, TOKEN), if rate == 0 then U64_MAX else NANOS_PER_SECOND / rate)
  }

  /** The scaled burst, saturated at 64 bits; the whole number of nanoseconds per message,
      which a rate above one per nanosecond truncates to zero; no refill in 64 bits of
      nanoseconds for rate zero. */
  lemma ConfigureFacts(rate: U64, burst: U64)
    ensures Configure(rate, burst).capacity <= burst * TOKEN
    ensures Configure(rate, burst).refillNanos == 0 <==> rate > NANOS_PER_SECOND
    ensures
      Configure(rate, burst).capacity ==
        if burst <= 18_446_744_073_709_551 then burst * 1000 else 18_446_744_073_709_551_615
    ensures
      var n := Configure(rate, burst).refillNanos;
      if rate == 0 then n == 18_446_744_073_709_551_615 else n * rate <= 1_000_000_000 < (n + 1) * rate
  {
    CapacityFacts(burst);
    if rate >= 1 {
      IntervalFacts(rate);
    }
  }

  lemma CapacityFacts(burst: U64)
    ensures SaturatingMul(burst, TOKEN) <= burst * TOKEN
    ensures
      SaturatingMul(burst, TOKEN) ==
        if burst <= 18_446_744_073_709_551 then burst * 1000 else 18_446_744_073_709_551_615
  {
  }

  lemma IntervalFacts(rate: U64)
    requires rate >= 1
    ensures
      var n := NANOS_PER_SECOND / rate;
      n * rate <= 1_000_000_000 < (n + 1) * rate && (n == 0 <==> rate > NANOS_PER_SECOND)
  {
    var n := NANOS_PER_SECOND / rate;
    QuotientBounds(NANOS_PER_SECOND, rate);
    TimesDistributes(n, 1, rate);
    TimesMonotone(1, n, rate);
  }

  // ------------------------------------------------------------------ the step machine

  /** Where a thread stands in `try_acquire`. `lost` counts the exchanges on `lastRefill`
      this call has lost to another thread. */
  datatype Pc =
    | Idle
    | Claiming(now: U64, lost: nat)
    | Claim(now: U64, last: nat, intervals: nat, lost: nat)
    | Crediting(amount: nat)
    | Credit(amount: nat, current: nat)
    | Acquiring
    | Acquire(current: nat)
    | Panicked

  /** Thread `tid` claimed the refill intervals numbered `first .. first + count`. */
  datatype Claimed = Claimed(tid: nat, first: nat, count: nat)

  /** The two atomics and the threads, followed by history: calls admitted and rejected,
      tokens that found the bucket full or overflowed, the latest clock reading, and who
      claimed which refill intervals. */
  datatype Sys = Sys(
    tokens: nat,
    lastRefill: nat,
    threads: seq<Pc>,
    acquired: nat,
    rejected: nat,
    spilled: nat,
    latest: U64,
    claims: seq<Claimed>)

  /** Thread `tid` takes its next step. `now` is what the clock returns if it is read,
      `spurious` makes a weak exchange fail for no reason. */
  datatype Event = Event(tid: nat, now: U64, spurious: bool)

  function Init(cfg: Config, threads: nat): Sys {
    Sys(cfg.capacity, 0, seq(threads, _ => Idle), 0, 0, 0, 0, [])
  }

  /** The bucket's content after crediting `amount` on top of `current`. */
  function Topped(cfg: Config, current: nat, amount: nat): nat {
    Min(SaturatingAdd(current, amount), cfg.capacity)
  }

  function Goto(s: Sys, tid: nat, pc: Pc): Sys
    requires tid < |s.threads|
  {
    s.(threads := s.threads[tid := pc])
  }

  /** Load `lastRefill` and decide whether whole intervals have passed. */
  function LoadLastRefill(cfg: Config, s: Sys, tid: nat, now: U64, lost: nat): Sys
    requires tid < |s.threads|
  {
    var elapsed := SaturatingSub(now, s.lastRefill);
    if elapsed < cfg.refillNanos then Goto(s, tid, Acquiring)
    else if cfg.refillNanos == 0 then Goto(s, tid, Panicked)
    else
      var intervals := elapsed / cfg.refillNanos;
      if intervals == 0 then Goto(s, tid, Acquiring)
      else Goto(s, tid, Claim(now, s.lastRefill, intervals, lost))
  }

  /** Exchange `lastRefill`; on success the elapsed intervals belong to this thread. */
  function ClaimIntervals(cfg: Config, s: Sys, tid: nat, pc: Pc, spurious: bool): Sys
    requires tid < |s.threads| && pc.Claim?
  {
    if s.lastRefill != pc.last then Goto(s, tid, Claiming(pc.now, pc.lost + 1))
    else if spurious || cfg.refillNanos == 0 then Goto(s, tid, Claiming(pc.now, pc.lost))
    else
      var amount := WrappingMul(pc.intervals, TOKEN);
      Goto(s, tid, if amount == 0 then Acquiring else Crediting(amount)).(
        lastRefill := pc.last + pc.intervals * cfg.refillNanos,
        spilled := s.spilled + SaturatingSub(pc.intervals * TOKEN, amount),
        claims := s.claims + [Claimed(tid, s.lastRefill / cfg.refillNanos, pc.intervals)])
  }

  function LoadForCredit(cfg: Config, s: Sys, tid: nat, amount: nat): Sys
    requires tid < |s.threads|
  {
    if s.tokens == Topped(cfg, s.tokens, amount)
    then Goto(s, tid, Acquiring).(spilled := s.spilled + amount)
    else Goto(s, tid, Credit(amount, s.tokens))
  }

  function CreditTokens(cfg: Config, s: Sys, tid: nat, pc: Pc, spurious: bool): Sys
    requires tid < |s.threads| && pc.Credit?
  {
    if s.tokens != pc.current || spurious then Goto(s, tid, Crediting(pc.amount))
    else
      var topped := Topped(cfg, pc.current, pc.amount);
      Goto(s, tid, Acquiring).(
        tokens := topped,
        spilled := s.spilled + SaturatingSub(pc.current + pc.amount, topped))
  }

  function LoadForAcquire(s: Sys, tid: nat): Sys
    requires tid < |s.threads|
  {
    if s.tokens < TOKEN
    then Goto(s, tid, Idle).(rejected := s.rejected + 1)
    else Goto(s, tid, Acquire(s.tokens))
  }

  function TakeToken(s: Sys, tid: nat, pc: Pc, spurious: bool): Sys
    requires tid < |s.threads| && pc.Acquire?
  {
    if s.tokens != pc.current || spurious then Goto(s, tid, Acquiring)
    else Goto(s, tid, Idle).(
        tokens := SaturatingSub(pc.current, TOKEN),
        acquired := s.acquired + 1)
  }

  function Step(cfg: Config, s: Sys, e: Event): Sys {
    if e.tid >= |s.threads| then s else
    var pc := s.threads[e.tid];
    match pc
    case Idle => Goto(s, e.tid, Claiming(e.now, 0)).(latest := Max(s.latest, e.now))
    case Claiming(now, lost) => LoadLastRefill(cfg, s, e.tid, now, lost)
    case Claim(_, _, _, _) => ClaimIntervals(cfg, s, e.tid, pc, e.spurious)
    case Crediting(amount) => LoadForCredit(cfg, s, e.tid, amount)
    case Credit(_, _) => CreditTokens(cfg, s, e.tid, pc, e.spurious)
    case Acquiring => LoadForAcquire(s, e.tid)
    case Acquire(_) => TakeToken(s, e.tid, pc, e.spurious)
    case Panicked => s
  }

  function Exec(cfg: Config, s: Sys, events: seq<Event>): Sys
    decreases |events|
  {
    if events == [] then s else Exec(cfg, Step(cfg, s, events[0]), events[1..])
  }

  /** The state after `events` from a fresh bucket shared by `threads` threads. */
  function Run(cfg: Config, threads: nat, events: seq<Event>): Sys {
    Exec(cfg, Init(cfg, threads), events)
  }

  lemma {:induction false} ExecAppend(cfg: Config, s: Sys, a: seq<Event>, b: seq<Event>)
    ensures Exec(cfg, s, a + b) == Exec(cfg, Exec(cfg, s, a), b)
    decreases |a|
  {
    if a == [] {
      assert a + b == b;
    } else {
      assert (a + b)[1..] == a[1..] + b;
      ExecAppend(cfg, Step(cfg, s, a[0]), a[1..], b);
    }
  }

  // ----------------------------------------------------------------------- conservation

  /** Tokens a thread has claimed and not yet credited. */
  function Owed(pc: Pc): nat {
    match pc
    case Crediting(amount) => amount
    case Credit(amount, _) => amount
    case _ => 0
  }

  function Pending(threads: seq<Pc>): nat {
    if threads == [] then 0 else Owed(threads[0]) + Pending(threads[1..])
  }

  lemma {:induction false} PendingUpdate(threads: seq<Pc>, tid: nat, pc: Pc)
    requires tid < |threads|
    ensures Pending(threads[tid := pc]) + Owed(threads[tid]) == Pending(threads) + Owed(pc)
  {
    if tid == 0 {
      assert threads[0 := pc][1..] == threads[1..];
    } else {
      assert threads[tid := pc][1..] == threads[1..][tid - 1 := pc];
      PendingUpdate(threads[1..], tid - 1, pc);
    }
  }

  lemma {:induction false} PendingOfIdle(threads: seq<Pc>)
    requires forall i :: 0 <= i < |threads| ==> Owed(threads[i]) == 0
    ensures Pending(threads) == 0
  {
    if threads != [] {
      PendingOfIdle(threads[1..]);
    }
  }

  /** The claims cover the intervals `0 .. upTo` without gap or overlap. */
  ghost predicate Tiles(claims: seq<Claimed>, upTo: nat) {
    if claims == [] then upTo == 0
    else
      var last := claims[|claims| - 1];
      && last.count >= 1
      && last.first + last.count == upTo
      && Tiles(claims[..|claims| - 1], last.first)
  }

  /** What a thread's loaded values still say about the shared state. */
  ghost predicate ThreadOk(cfg: Config, s: Sys, pc: Pc) {
    match pc
    case Claiming(now, lost) =>
      now <= s.latest && lost * cfg.refillNanos <= now && lost * cfg.refillNanos <= s.lastRefill
    case Claim(now, last, intervals, lost) =>
      && now <= s.latest
      && lost * cfg.refillNanos <= last <= s.lastRefill
      && intervals >= 1
      && last + intervals * cfg.refillNanos <= now
    case Acquire(current) => current >= TOKEN
    case Panicked => false
    case _ => true
  }

  ghost predicate ThreadsOk(cfg: Config, s: Sys) {
    forall i :: 0 <= i < |s.threads| ==> ThreadOk(cfg, s, s.threads[i])
  }

  /** Every scaled token is somewhere: in the bucket, owed by a thread, handed out or spilled. */
  ghost predicate Conserves(cfg: Config, s: Sys)
    requires cfg.refillNanos >= 1
  {
    s.tokens + Pending(s.threads) + TOKEN * s.acquired + s.spilled
      == cfg.capacity + TOKEN * (s.lastRefill / cfg.refillNanos)
  }

  ghost predicate Inv(cfg: Config, s: Sys) {
    && cfg.refillNanos >= 1
    && s.tokens <= cfg.capacity
    && s.lastRefill % cfg.refillNanos == 0
    && s.lastRefill <= s.latest
    && Conserves(cfg, s)
    && Tiles(s.claims, s.lastRefill / cfg.refillNanos)
    && ThreadsOk(cfg, s)
  }

  lemma InitInv(cfg: Config, threads: nat)
    requires cfg.refillNanos >= 1
    ensures Inv(cfg, Init(cfg, threads))
  {
    PendingOfIdle(Init(cfg, threads).threads);
  }

  /** Moving one thread, and the clock and `lastRefill` only forward, keeps the other
      threads' loaded values meaningful. */
  lemma ThreadsFrame(cfg: Config, s: Sys, t: Sys, tid: nat)
    requires ThreadsOk(cfg, s) && tid < |s.threads|
    requires |t.threads| == |s.threads| && t.threads == s.threads[tid := t.threads[tid]]
    requires s.latest <= t.latest && s.lastRefill <= t.lastRefill
    requires ThreadOk(cfg, t, t.threads[tid])
    ensures ThreadsOk(cfg, t)
  {
    forall i | 0 <= i < |t.threads| ensures ThreadOk(cfg, t, t.threads[i]) {
      assert i != tid ==> ThreadOk(cfg, s, s.threads[i]);
    }
  }

  lemma IntervalsFitInElapsed(elapsed: nat, n: nat)
    requires 1 <= n <= elapsed
    ensures elapsed / n >= 1 && elapsed / n * n <= elapsed
  {
    QuotientBound(1, elapsed, n);
  }

  lemma LoadLastRefillInv(cfg: Config, s: Sys, tid: nat)
    requires Inv(cfg, s) && tid < |s.threads| && s.threads[tid].Claiming?
    ensures Inv(cfg, LoadLastRefill(cfg, s, tid, s.threads[tid].now, s.threads[tid].lost))
  {
    var pc := s.threads[tid];
    var t := LoadLastRefill(cfg, s, tid, pc.now, pc.lost);
    PendingUpdate(s.threads, tid, t.threads[tid]);
    assert ThreadOk(cfg, s, pc);
    if t.threads[tid].Claim? {
      IntervalsFitInElapsed(pc.now - s.lastRefill, cfg.refillNanos);
    }
    ThreadsFrame(cfg, s, t, tid);
  }

  /** A lost exchange means `lastRefill` moved on by at least one whole interval. */
  lemma LosingMeansProgress(cfg: Config, s: Sys, pc: Pc)
    requires cfg.refillNanos >= 1 && s.lastRefill % cfg.refillNanos == 0
    requires pc.Claim? && ThreadOk(cfg, s, pc) && s.lastRefill != pc.last
    ensures (pc.lost + 1) * cfg.refillNanos <= pc.now
    ensures (pc.lost + 1) * cfg.refillNanos <= s.lastRefill
  {
    var n := cfg.refillNanos;
    TimesMonotone(1, pc.intervals, n);
    assert (pc.lost + 1) * n == pc.lost * n + n;
    var k := s.lastRefill / n;
    assert s.lastRefill == k * n;
    TimesMonotone(k, pc.lost, n);
    TimesMonotone(pc.lost + 1, k, n);
  }

  lemma LoseClaimInv(cfg: Config, s: Sys, tid: nat, spurious: bool)
    requires Inv(cfg, s) && tid < |s.threads| && s.threads[tid].Claim?
    requires s.lastRefill != s.threads[tid].last || spurious
    ensures Inv(cfg, ClaimIntervals(cfg, s, tid, s.threads[tid], spurious))
  {
    var pc := s.threads[tid];
    var t := ClaimIntervals(cfg, s, tid, pc, spurious);
    PendingUpdate(s.threads, tid, t.threads[tid]);
    assert ThreadOk(cfg, s, pc);
    if s.lastRefill != pc.last {
      LosingMeansProgress(cfg, s, pc);
    }
    ThreadsFrame(cfg, s, t, tid);
  }

  lemma WrappingMulBound(a: nat, b: nat)
    ensures WrappingMul(a, b) <= a * b
    ensures a * b <= U64_MAX ==> WrappingMul(a, b) == a * b
  {}

  lemma WinClaimConserves(cfg: Config, s: Sys, tid: nat)
    requires Inv(cfg, s) && tid < |s.threads| && s.threads[tid].Claim?
    requires s.lastRefill == s.threads[tid].last
    ensures Conserves(cfg, ClaimIntervals(cfg, s, tid, s.threads[tid], false))
  {
    var pc := s.threads[tid];
    var t := ClaimIntervals(cfg, s, tid, pc, false);
    WrappingMulBound(pc.intervals, TOKEN);
    AddMultiple(s.lastRefill, pc.intervals, cfg.refillNanos);
    PendingUpdate(s.threads, tid, t.threads[tid]);
  }

  lemma WinClaimInv(cfg: Config, s: Sys, tid: nat)
    requires Inv(cfg, s) && tid < |s.threads| && s.threads[tid].Claim?
    requires s.lastRefill == s.threads[tid].last
    ensures Inv(cfg, ClaimIntervals(cfg, s, tid, s.threads[tid], false))
  {
    var pc := s.threads[tid];
    var t := ClaimIntervals(cfg, s, tid, pc, false);
    assert ThreadOk(cfg, s, pc);
    AddMultiple(s.lastRefill, pc.intervals, cfg.refillNanos);
    WinClaimConserves(cfg, s, tid);
    assert t.claims[..|t.claims| - 1] == s.claims;
    ThreadsFrame(cfg, s, t, tid);
  }

  lemma LoadForCreditInv(cfg: Config, s: Sys, tid: nat)
    requires Inv(cfg, s) && tid < |s.threads| && s.threads[tid].Crediting?
    ensures Inv(cfg, LoadForCredit(cfg, s, tid, s.threads[tid].amount))
  {
    var t := LoadForCredit(cfg, s, tid, s.threads[tid].amount);
    PendingUpdate(s.threads, tid, t.threads[tid]);
    ThreadsFrame(cfg, s, t, tid);
  }

  lemma CreditTokensInv(cfg: Config, s: Sys, tid: nat, spurious: bool)
    requires Inv(cfg, s) && tid < |s.threads| && s.threads[tid].Credit?
    ensures Inv(cfg, CreditTokens(cfg, s, tid, s.threads[tid], spurious))
  {
    var t := CreditTokens(cfg, s, tid, s.threads[tid], spurious);
    PendingUpdate(s.threads, tid, t.threads[tid]);
    ThreadsFrame(cfg, s, t, tid);
  }

  lemma AcquireStepInv(cfg: Config, s: Sys, e: Event)
    requires Inv(cfg, s) && e.tid < |s.threads|
    requires s.threads[e.tid].Idle? || s.threads[e.tid].Acquiring? || s.threads[e.tid].Acquire?
    ensures Inv(cfg, Step(cfg, s, e))
  {
    var t := Step(cfg, s, e);
    PendingUpdate(s.threads, e.tid, t.threads[e.tid]);
    assert ThreadOk(cfg, s, s.threads[e.tid]);
    assert 0 * cfg.refillNanos == 0;
    ThreadsFrame(cfg, s, t, e.tid);
  }

  lemma StepInv(cfg: Config, s: Sys, e: Event)
    requires Inv(cfg, s)
    ensures Inv(cfg, Step(cfg, s, e))
  {
    if e.tid < |s.threads| {
      match s.threads[e.tid]
      case Claiming(_, _) => LoadLastRefillInv(cfg, s, e.tid);
      case Claim(_, last, _, _) =>
        if s.lastRefill == last && !e.spurious {
          WinClaimInv(cfg, s, e.tid);
        } else {
          LoseClaimInv(cfg, s, e.tid, e.spurious);
        }
      case Crediting(_) => LoadForCreditInv(cfg, s, e.tid);
      case Credit(_, _) => CreditTokensInv(cfg, s, e.tid, e.spurious);
      case Panicked =>
      case _ => AcquireStepInv(cfg, s, e);
    }
  }

  lemma {:induction false} ExecInv(cfg: Config, s: Sys, events: seq<Event>)
    requires Inv(cfg, s)
    ensures Inv(cfg, Exec(cfg, s, events))
    decreases |events|
  {
    if events != [] {
      StepInv(cfg, s, events[0]);
      ExecInv(cfg, Step(cfg, s, events[0]), events[1..]);
    }
  }

  // ---------------------------------------------------------------------- main theorems

  /** In every interleaving of any number of threads, the bucket never overfills and every
      scaled token is accounted for: in the bucket, claimed but not yet credited, handed
      out, or spilled, against the initial burst and the intervals claimed so far. */
  lemma TokensAreConserved(rate: U64, burst: U64, threads: nat, events: seq<Event>)
    requires rate <= NANOS_PER_SECOND
    ensures
      var cfg := Configure(rate, burst);
      var s := Run(cfg, threads, events);
      && cfg.refillNanos >= 1
      && s.tokens <= cfg.capacity
      && s.tokens + Pending(s.threads) + TOKEN * s.acquired + s.spilled
           == cfg.capacity + TOKEN * (s.lastRefill / cfg.refillNanos)
      && s.lastRefill % cfg.refillNanos == 0
      && s.lastRefill <= s.latest
  {
    var cfg := Configure(rate, burst);
    ConfigureFacts(rate, burst);
    InitInv(cfg, threads);
    ExecInv(cfg, Init(cfg, threads), events);
  }

  /** For any configuration with a positive refill interval. */
  lemma RunAdmissions(cfg: Config, threads: nat, events: seq<Event>)
    requires cfg.refillNanos >= 1
    ensures
      var s := Run(cfg, threads, events);
      s.acquired <= cfg.capacity / TOKEN + s.latest / cfg.refillNanos
  {
    InitInv(cfg, threads);
    ExecInv(cfg, Init(cfg, threads), events);
    var s := Run(cfg, threads, events);
    QuotientMonotone(s.lastRefill, s.latest, cfg.refillNanos);
  }

  /** Up to any moment, no more calls were admitted than the burst plus one per refill
      interval on the latest clock reading; no monotonicity of the clock is needed. */
  lemma AdmissionsAreBounded(rate: U64, burst: U64, threads: nat, events: seq<Event>)
    requires rate <= NANOS_PER_SECOND
    ensures
      var cfg := Configure(rate, burst);
      var s := Run(cfg, threads, events);
      cfg.refillNanos >= 1 && s.acquired <= burst + s.latest / cfg.refillNanos
  {
    ConfigureFacts(rate, burst);
    RunAdmissions(Configure(rate, burst), threads, events);
  }

  /** `latest` is the largest reading a call has taken; no reading beyond it was used. */
  lemma {:induction false} LatestIsARead(cfg: Config, s: Sys, events: seq<Event>, bound: nat)
    requires s.latest <= bound && forall i :: 0 <= i < |events| ==> events[i].now <= bound
    ensures Exec(cfg, s, events).latest <= bound
    decreases |events|
  {
    if events != [] {
      LatestIsARead(cfg, Step(cfg, s, events[0]), events[1..], bound);
    }
  }

  /** The admission bound in terms of the clock alone. */
  lemma AdmissionsByTime(rate: U64, burst: U64, threads: nat, events: seq<Event>, time: nat)
    requires 1 <= rate <= NANOS_PER_SECOND
    requires forall i :: 0 <= i < |events| ==> events[i].now <= time
    ensures
      var n := NANOS_PER_SECOND / rate;
      n >= 1 && Run(Configure(rate, burst), threads, events).acquired <= burst + time / n
  {
    var cfg := Configure(rate, burst);
    ConfigureFacts(rate, burst);
    AdmissionsAreBounded(rate, burst, threads, events);
    LatestIsARead(cfg, Init(cfg, threads), events, time);
    QuotientMonotone(Run(cfg, threads, events).latest, time, cfg.refillNanos);
  }

  // ------------------------------------------------------ before the first refill is due

  /** How many calls have returned: steps after which a thread that was inside is idle. */
  function Returns(cfg: Config, s: Sys, events: seq<Event>): nat
    decreases |events|
  {
    if events == [] then 0
    else
      var e, t := events[0], Step(cfg, s, events[0]);
      (if e.tid < |s.threads| <= |t.threads| && !s.threads[e.tid].Idle? && t.threads[e.tid].Idle? then 1 else 0)
        + Returns(cfg, t, events[1..])
  }

  /** Every call that returns was either admitted or refused. */
  lemma {:induction false} ReturnsAreCounted(cfg: Config, s: Sys, events: seq<Event>)
    ensures
      var t := Exec(cfg, s, events);
      t.acquired + t.rejected == s.acquired + s.rejected + Returns(cfg, s, events)
    decreases |events|
  {
    if events != [] {
      ReturnIsCounted(cfg, s, events[0]);
      ReturnsAreCounted(cfg, Step(cfg, s, events[0]), events[1..]);
    }
  }

  lemma ReturnIsCounted(cfg: Config, s: Sys, e: Event)
    ensures
      var t := Step(cfg, s, e);
      && |t.threads| == |s.threads|
      && t.acquired + t.rejected == s.acquired + s.rejected +
           if e.tid < |s.threads| && !s.threads[e.tid].Idle? && t.threads[e.tid].Idle? then 1 else 0
  {
  }

  /** No time has been claimed: what is missing from the bucket was handed out token by token,
      and a refusal found less than one left. */
  ghost predicate Unrefilled(cfg: Config, s: Sys) {
    && s.lastRefill == 0
    && s.tokens + TOKEN * s.acquired == cfg.capacity
    && (s.rejected > 0 ==> s.tokens < TOKEN)
    && forall i :: 0 <= i < |s.threads| ==>
         match s.threads[i]
         case Idle => true
         case Claiming(now, _) => now < cfg.refillNanos
         case Acquiring => true
         case Acquire(current) => current >= TOKEN
         case _ => false
  }

  lemma {:induction false} StaysUnrefilled(cfg: Config, s: Sys, events: seq<Event>)
    requires Unrefilled(cfg, s) && forall i :: 0 <= i < |events| ==> events[i].now < cfg.refillNanos
    ensures Unrefilled(cfg, Exec(cfg, s, events))
    decreases |events|
  {
    if events != [] {
      StaysUnrefilled(cfg, Step(cfg, s, events[0]), events[1..]);
    }
  }

  /** While every reading lies within the first refill interval, any interleaving of calls on a
      fresh bucket admits exactly the first `burst` that return, or all the 64-bit capacity can
      pay for. */
  lemma FirstIntervalAdmitsTheBurst(rate: U64, burst: U64, threads: nat, events: seq<Event>)
    requires forall i :: 0 <= i < |events| ==> events[i].now < Configure(rate, burst).refillNanos
    ensures
      var cfg := Configure(rate, burst);
      Run(cfg, threads, events).acquired
        == Min(Returns(cfg, Init(cfg, threads), events), Min(burst, 18_446_744_073_709_551))
  {
    var cfg := Configure(rate, burst);
    ConfigureFacts(rate, burst);
    StaysUnrefilled(cfg, Init(cfg, threads), events);
    ReturnsAreCounted(cfg, Init(cfg, threads), events);
  }

  /** With rate zero nothing is ever refilled: up to the last nanosecond of the 64-bit clock
      every run admits exactly the burst. */
  lemma RateZeroNeverRefills(burst: U64, threads: nat, events: seq<Event>)
    requires forall i :: 0 <= i < |events| ==> events[i].now < 18_446_744_073_709_551_615
    ensures
      var cfg := Configure(0, burst);
      Run(cfg, threads, events).acquired
        == Min(Returns(cfg, Init(cfg, threads), events), Min(burst, 18_446_744_073_709_551))
  {
    ConfigureFacts(0, burst);
    FirstIntervalAdmitsTheBurst(0, burst, threads, events);
  }

  /** Tokens spill only into a full bucket, or when the 64-bit product of a claim wraps. */
  lemma SpillsOnlyWhenFull(cfg: Config, s: Sys, e: Event)
    requires Inv(cfg, s) && Step(cfg, s, e).spilled != s.spilled
    ensures
      || Step(cfg, s, e).tokens == cfg.capacity
      || (s.threads[e.tid].Claim? && s.threads[e.tid].intervals * TOKEN > U64_MAX)
  {
    if s.threads[e.tid].Claim? {
      WrappingMulBound(s.threads[e.tid].intervals, TOKEN);
    }
  }

  /** A call is refused only when less than one token is left of everything granted: what was
      handed out, what threads still owe and what spilled account for all but a fraction. */
  lemma RefusalMeansSpent(rate: U64, burst: U64, threads: nat, events: seq<Event>, e: Event)
    requires rate <= NANOS_PER_SECOND
    requires
      var cfg := Configure(rate, burst);
      Step(cfg, Run(cfg, threads, events), e).rejected > Run(cfg, threads, events).rejected
    ensures
      var cfg := Configure(rate, burst);
      var s := Run(cfg, threads, events);
      && cfg.refillNanos >= 1
      && cfg.capacity + TOKEN * (s.lastRefill / cfg.refillNanos)
           < TOKEN * (s.acquired + 1) + Pending(s.threads) + s.spilled
  {
    TokensAreConserved(rate, burst, threads, events);
  }

  ghost predicate Covers(c: Claimed, k: nat) { c.first <= k < c.first + c.count }

  lemma {:induction false} TilesCoverOnce(claims: seq<Claimed>, upTo: nat, k: nat)
    requires Tiles(claims, upTo)
    ensures k < upTo ==> exists i :: 0 <= i < |claims| && Covers(claims[i], k)
    ensures forall i :: 0 <= i < |claims| && Covers(claims[i], k) ==> k < upTo
    ensures forall i, j :: 0 <= i < j < |claims| ==> !(Covers(claims[i], k) && Covers(claims[j], k))
  {
    if claims != [] {
      var front, last := claims[..|claims| - 1], claims[|claims| - 1];
      TilesCoverOnce(front, last.first, k);
      if last.first <= k < upTo {
        assert Covers(claims[|claims| - 1], k);
      } else if k < last.first {
        var i :| 0 <= i < |front| && Covers(front[i], k);
        assert Covers(claims[i], k);
      }
      forall i | 0 <= i < |claims| && Covers(claims[i], k) ensures k < upTo {
        assert i < |front| ==> Covers(front[i], k);
      }
      forall i, j | 0 <= i < j < |claims| ensures !(Covers(claims[i], k) && Covers(claims[j], k)) {
        assert Covers(claims[i], k) ==> Covers(front[i], k);
        assert j < |front| ==> claims[j] == front[j];
      }
    }
  }

  /** Refill interval `k` has been claimed exactly when `lastRefill` has passed it, and then
      by exactly one successful exchange of one thread. */
  lemma IntervalsAreClaimedOnce(rate: U64, burst: U64, threads: nat, events: seq<Event>, k: nat)
    requires rate <= NANOS_PER_SECOND
    ensures
      var cfg := Configure(rate, burst);
      var s := Run(cfg, threads, events);
      && cfg.refillNanos >= 1
      && (k < s.lastRefill / cfg.refillNanos <==>
          exists i :: 0 <= i < |s.claims| && Covers(s.claims[i], k))
      && forall i, j :: 0 <= i < j < |s.claims| ==> !(Covers(s.claims[i], k) && Covers(s.claims[j], k))
  {
    var cfg := Configure(rate, burst);
    ConfigureFacts(rate, burst);
    InitInv(cfg, threads);
    ExecInv(cfg, Init(cfg, threads), events);
    var s := Run(cfg, threads, events);
    TilesCoverOnce(s.claims, s.lastRefill / cfg.refillNanos, k);
  }

  /** A call's refill loop loses at most `now / refillNanos` exchanges to other threads,
      whatever they do: its retries are bounded. */
  lemma LostRacesAreBounded(rate: U64, burst: U64, threads: nat, events: seq<Event>, tid: nat)
    requires rate <= NANOS_PER_SECOND && tid < threads
    ensures |Run(Configure(rate, burst), threads, events).threads| == threads
    ensures
      var cfg := Configure(rate, burst);
      var pc := Run(cfg, threads, events).threads[tid];
      && cfg.refillNanos >= 1
      && (pc.Claiming? ==> pc.lost <= pc.now / cfg.refillNanos)
      && (pc.Claim? ==> pc.lost + 1 <= pc.now / cfg.refillNanos)
  {
    var cfg := Configure(rate, burst);
    ConfigureFacts(rate, burst);
    InitInv(cfg, threads);
    ExecInv(cfg, Init(cfg, threads), events);
    ExecKeepsThreads(cfg, Init(cfg, threads), events);
    var s := Run(cfg, threads, events);
    var pc := s.threads[tid];
    assert ThreadOk(cfg, s, pc);
    if pc.Claiming? {
      QuotientBound(pc.lost, pc.now, cfg.refillNanos);
    } else if pc.Claim? {
      TimesMonotone(1, pc.intervals, cfg.refillNanos);
      assert (pc.lost + 1) * cfg.refillNanos == pc.lost * cfg.refillNanos + cfg.refillNanos;
      QuotientBound(pc.lost + 1, pc.now, cfg.refillNanos);
    }
  }

  lemma {:induction false} ExecKeepsThreads(cfg: Config, s: Sys, events: seq<Event>)
    ensures |Exec(cfg, s, events).threads| == |s.threads|
    decreases |events|
  {
    if events != [] {
      ExecKeepsThreads(cfg, Step(cfg, s, events[0]), events[1..]);
    }
  }

  // ------------------------------------------------------------- catching up with the clock

  /** The clock reading of thread `tid`'s latest call, from the events. */
  function LatestReading(cfg: Config, threads: nat, events: seq<Event>, tid: nat): Option<U64> {
    if events == [] then None
    else
      var front, e := events[..|events| - 1], events[|events| - 1];
      var s := Run(cfg, threads, front);
      if e.tid == tid < |s.threads| && s.threads[tid].Idle? then Some(e.now)
      else LatestReading(cfg, threads, front, tid)
  }

  lemma RunSnoc(cfg: Config, threads: nat, events: seq<Event>, e: Event)
    ensures Run(cfg, threads, events + [e]) == Step(cfg, Run(cfg, threads, events), e)
  {
    ExecAppend(cfg, Init(cfg, threads), events, [e]);
    var s := Run(cfg, threads, events);
    assert Exec(cfg, Step(cfg, s, e), [e][1..]) == Step(cfg, s, e);
  }

  /** A thread still refilling carries its reading; past that, less than one interval of it
      is unclaimed. */
  ghost predicate CaughtUp(cfg: Config, s: Sys, pc: Pc, reading: Option<U64>) {
    match pc
    case Claiming(now, _) => reading == Some(now)
    case Claim(now, last, intervals, _) =>
      reading == Some(now) && now < last + intervals * cfg.refillNanos + cfg.refillNanos
    case _ => reading.Some? ==> reading.value < s.lastRefill + cfg.refillNanos
  }

  lemma StepCatchesUp(cfg: Config, s: Sys, e: Event, tid: nat, reading: Option<U64>)
    requires cfg.refillNanos >= 1 && tid < |s.threads| && CaughtUp(cfg, s, s.threads[tid], reading)
    requires !s.threads[tid].Panicked?
    ensures
      var t := Step(cfg, s, e);
      && |t.threads| == |s.threads|
      && CaughtUp(cfg, t, t.threads[tid], if e.tid == tid && s.threads[tid].Idle? then Some(e.now) else reading)
  {
    StepIsMonotone(cfg, s, e);
    if e.tid == tid && s.threads[tid].Claiming? {
      QuotientBounds(SaturatingSub(s.threads[tid].now, s.lastRefill), cfg.refillNanos);
    }
  }

  lemma {:induction false} RunCatchesUp(cfg: Config, threads: nat, events: seq<Event>, tid: nat)
    requires cfg.refillNanos >= 1 && tid < threads
    ensures
      var s := Run(cfg, threads, events);
      |s.threads| == threads && CaughtUp(cfg, s, s.threads[tid], LatestReading(cfg, threads, events, tid))
  {
    if events != [] {
      var front, e := events[..|events| - 1], events[|events| - 1];
      RunCatchesUp(cfg, threads, front, tid);
      RunNeverPanics(cfg, threads, front);
      StepCatchesUp(cfg, Run(cfg, threads, front), e, tid, LatestReading(cfg, threads, front, tid));
      RunSnoc(cfg, threads, front, e);
      assert front + [e] == events;
    }
  }

  lemma RunNeverPanics(cfg: Config, threads: nat, events: seq<Event>)
    requires cfg.refillNanos >= 1
    ensures
      var s := Run(cfg, threads, events);
      |s.threads| == threads && forall i :: 0 <= i < |s.threads| ==> !s.threads[i].Panicked?
  {
    InitInv(cfg, threads);
    ExecInv(cfg, Init(cfg, threads), events);
    ExecKeepsThreads(cfg, Init(cfg, threads), events);
    var s := Run(cfg, threads, events);
    forall i | 0 <= i < |s.threads| ensures !s.threads[i].Panicked? {
      assert ThreadOk(cfg, s, s.threads[i]);
    }
  }

  /** In every interleaving, once a call has returned, all whole intervals up to the clock
      reading it took have been claimed, by itself or by others. */
  lemma ReturnedCallsCaughtUp(rate: U64, burst: U64, threads: nat, events: seq<Event>, tid: nat)
    requires rate <= NANOS_PER_SECOND && tid < threads
    requires |Run(Configure(rate, burst), threads, events).threads| == threads
    requires Run(Configure(rate, burst), threads, events).threads[tid].Idle?
    ensures
      var cfg := Configure(rate, burst);
      var reading := LatestReading(cfg, threads, events, tid);
      reading.Some? ==> reading.value < Run(cfg, threads, events).lastRefill + cfg.refillNanos
  {
    ConfigureFacts(rate, burst);
    RunCatchesUp(Configure(rate, burst), threads, events, tid);
  }

  // ------------------------------------------------------------------- running alone

  /** Steps a thread needs at most to return if nobody else moves; a stale load costs one
      failed exchange. */
  function Rank(s: Sys, pc: Pc): nat {
    match pc
    case Idle => 0
    case Panicked => 0
    case Acquire(current) => if current == s.tokens then 1 else 3
    case Acquiring => 2
    case Credit(_, current) => if current == s.tokens then 3 else 5
    case Crediting(_) => 4
    case Claim(_, last, _, _) => if last == s.lastRefill then 5 else 7
    case Claiming(_, _) => 6
  }

  lemma SoloStep(cfg: Config, s: Sys, tid: nat, now: U64)
    requires cfg.refillNanos >= 1 && tid < |s.threads| && !s.threads[tid].Panicked?
    ensures
      var t := Step(cfg, s, Event(tid, now, false));
      && |t.threads| == |s.threads| && !t.threads[tid].Panicked?
      && (if s.threads[tid].Idle? then Rank(t, t.threads[tid]) == 6
          else Rank(t, t.threads[tid]) < Rank(s, s.threads[tid]))
  {
    if s.threads[tid].Claiming? && s.lastRefill + cfg.refillNanos <= s.threads[tid].now {
      IntervalsFitInElapsed(s.threads[tid].now - s.lastRefill, cfg.refillNanos);
    }
  }

  lemma NobodyPanics(cfg: Config, s: Sys, e: Event)
    requires cfg.refillNanos >= 1 && e.tid < |s.threads| && !s.threads[e.tid].Panicked?
    ensures |Step(cfg, s, e).threads| == |s.threads| && !Step(cfg, s, e).threads[e.tid].Panicked?
  {
  }

  /** `n` steps of one thread, none failing for no reason. */
  function Alone(tid: nat, now: U64, n: nat): seq<Event> { seq(n, _ => Event(tid, now, false)) }

  lemma {:induction false} SoloReturns(cfg: Config, s: Sys, tid: nat, now: U64) returns (n: nat)
    requires cfg.refillNanos >= 1 && tid < |s.threads| && !s.threads[tid].Panicked?
    ensures n <= Rank(s, s.threads[tid])
    ensures
      var t := Exec(cfg, s, Alone(tid, now, n));
      tid < |t.threads| && t.threads[tid].Idle?
    decreases Rank(s, s.threads[tid])
  {
    if s.threads[tid].Idle? {
      n := 0;
    } else {
      SoloStep(cfg, s, tid, now);
      var t := Step(cfg, s, Event(tid, now, false));
      var m := SoloReturns(cfg, t, tid, now);
      n := m + 1;
      assert Alone(tid, now, n)[1..] == Alone(tid, now, m);
    }
  }

  /** Whatever the others were doing when they stopped, a thread in the middle of a call that
      runs alone returns within seven steps. */
  lemma SoloCallsFinish(rate: U64, burst: U64, threads: nat, events: seq<Event>, tid: nat, now: U64)
    requires rate <= NANOS_PER_SECOND && tid < threads
    ensures
      exists n: nat :: n <= 7 &&
        var t := Run(Configure(rate, burst), threads, events + Alone(tid, now, n));
        tid < |t.threads| && t.threads[tid].Idle?
  {
    var cfg := Configure(rate, burst);
    ConfigureFacts(rate, burst);
    InitInv(cfg, threads);
    ExecInv(cfg, Init(cfg, threads), events);
    ExecKeepsThreads(cfg, Init(cfg, threads), events);
    var s := Run(cfg, threads, events);
    assert ThreadOk(cfg, s, s.threads[tid]);
    var n := SoloReturns(cfg, s, tid, now);
    ExecAppend(cfg, Init(cfg, threads), events, Alone(tid, now, n));
  }

  /** Some interleaving divides by zero exactly when the rate exceeds one per nanosecond. */
  lemma PanicsExactlyOnExcessiveRate(rate: U64, burst: U64, threads: nat)
    requires threads >= 1
    ensures
      rate > NANOS_PER_SECOND <==>
      exists events: seq<Event> :: Panicked in Run(Configure(rate, burst), threads, events).threads
  {
    var cfg := Configure(rate, burst);
    ConfigureFacts(rate, burst);
    if rate > NANOS_PER_SECOND {
      var e := Event(0, 0, false);
      var s := Step(cfg, Init(cfg, threads), e);
      var t := Step(cfg, s, e);
      assert [e, e][1..] == [e];
      assert Exec(cfg, Init(cfg, threads), [e, e]) == Exec(cfg, s, [e]) == t;
      assert t.threads[0] == Panicked;
      assert Panicked in Run(cfg, threads, [e, e]).threads;
    } else {
      InitInv(cfg, threads);
      forall events: seq<Event> ensures Panicked !in Run(cfg, threads, events).threads {
        ExecInv(cfg, Init(cfg, threads), events);
        var s := Run(cfg, threads, events);
        forall i | 0 <= i < |s.threads| ensures s.threads[i] != Panicked {
          assert ThreadOk(cfg, s, s.threads[i]);
        }
      }
    }
  }

  lemma StepIsMonotone(cfg: Config, s: Sys, e: Event)
    ensures s.lastRefill <= Step(cfg, s, e).lastRefill
    ensures s.acquired <= Step(cfg, s, e).acquired
    ensures s.spilled <= Step(cfg, s, e).spilled
    ensures s.latest <= Step(cfg, s, e).latest
  {}

  lemma {:induction false} ExecIsMonotone(cfg: Config, s: Sys, events: seq<Event>)
    ensures s.lastRefill <= Exec(cfg, s, events).lastRefill
    ensures s.acquired <= Exec(cfg, s, events).acquired
    ensures s.spilled <= Exec(cfg, s, events).spilled
    ensures s.latest <= Exec(cfg, s, events).latest
    decreases |events|
  {
    if events != [] {
      StepIsMonotone(cfg, s, events[0]);
      ExecIsMonotone(cfg, Step(cfg, s, events[0]), events[1..]);
    }
  }

  /** The window law. Take any reachable moment at which the bucket has been refilled up to
      `t1` and no claimed tokens are outstanding, and any continuation whose clock readings
      stay within `t2`: at most burst + (t2 - t1) / refillNanos + 1 calls are admitted. */
  lemma WindowLaw(rate: U64, burst: U64, threads: nat, before: seq<Event>, window: seq<Event>, t1: nat, t2: nat)
    requires rate <= NANOS_PER_SECOND
    requires
      var cfg := Configure(rate, burst);
      var s := Run(cfg, threads, before);
      && Pending(s.threads) == 0
      && t1 < s.lastRefill + cfg.refillNanos
      && t1 <= t2
      && Run(cfg, threads, before + window).latest <= t2
    ensures
      var cfg := Configure(rate, burst);
      && cfg.refillNanos >= 1
      && Run(cfg, threads, before + window).acquired
           <= Run(cfg, threads, before).acquired + burst + (t2 - t1) / cfg.refillNanos + 1
  {
    var cfg := Configure(rate, burst);
    var n := cfg.refillNanos;
    ConfigureFacts(rate, burst);
    InitInv(cfg, threads);
    ExecInv(cfg, Init(cfg, threads), before);
    var s := Run(cfg, threads, before);
    ExecAppend(cfg, Init(cfg, threads), before, window);
    ExecInv(cfg, s, window);
    ExecIsMonotone(cfg, s, window);
    var t := Exec(cfg, s, window);
    SpanInIntervals(s.lastRefill, t.lastRefill, t1, t2, n);
  }

  lemma SpanInIntervals(a: nat, b: nat, t1: nat, t2: nat, n: nat)
    requires n >= 1 && a % n == 0 && a <= b <= t2 && t1 <= t2 && t1 < a + n
    ensures b / n <= a / n + (t2 - t1) / n + 1
  {
    var q, d, p := a / n, (t2 - t1) / n, b / n;
    QuotientBounds(a, n);
    QuotientBounds(t2 - t1, n);
    QuotientBounds(b, n);
    TimesDistributes(q, d, n);
    TimesDistributes(q + d, 2, n);
    TimesMonotone(q + d + 2, p, n);
  }
}
