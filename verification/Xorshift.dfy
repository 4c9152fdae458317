/** The lock-free xorshift64 generator shared by the sampler and by retry jitter:
    its step on 64-bit words, the compare-and-swap loop that advances it from any
    number of threads, and what that implies for the sampler's decisions. */
module Xorshift {

  // ---------------------------------------------------------------- the step on words

  function Mix13(x: bv64): bv64 { x ^ (x << 13) }

  function Mix7(x: bv64): bv64 { x ^ (x >> 7) }

  function Mix17(x: bv64): bv64 { x ^ (x << 17) }

  /** One generator step. */
  function Next(x: bv64): bv64 { Mix17(Mix7(Mix13(x))) }

  lemma Mix13Is(x: bv64, a: bv64) requires a == x ^ (x << 13) ensures Mix13(x) == a {}

  lemma Mix7Is(x: bv64, a: bv64) requires a == x ^ (x >> 7) ensures Mix7(x) == a {}

  lemma Mix17Is(x: bv64, a: bv64) requires a == x ^ (x << 17) ensures Mix17(x) == a {}

  lemma MixedIsNext(x: bv64, a: bv64, b: bv64, c: bv64)
    requires Mix13(x) == a && Mix7(a) == b && Mix17(b) == c
    ensures Next(x) == c
  {
  }

  /** The step on the shifts themselves, first 13 left, then 7 right, then 17 left. */
  lemma NextOnShifts(x: bv64, a: bv64, b: bv64, c: bv64)
    requires a == x ^ (x << 13)
    requires b == a ^ (a >> 7)
    requires c == b ^ (b << 17)
    ensures Next(x) == c
  {
    Mix13Is(x, a);
    Mix7Is(a, b);
    Mix17Is(b, c);
    MixedIsNext(x, a, b, c);
  }

  /** The first two values the generator draws from the word 1. */
  lemma FirstDraws()
    ensures Next(1) == 1_082_269_761
    ensures Next(1_082_269_761) == 1_152_992_998_833_853_505
  {
    assert Mix13(1) == 0x2001;
    assert Mix7(0x2001) == 0x2041;
    assert Mix17(0x2041) == 0x40822041;
    SecondDraw();
  }

  lemma SecondDraw()
    ensures Next(0x40822041) == 1_152_992_998_833_853_505
  {
    assert Mix13(0x40822041) == 0x810_048A_0041;
    assert Mix7(0x810_048A_0041) == 0x800_2483_1441;
    assert Mix17(0x800_2483_1441) == 0x1000_4106_0C01_1441;
  }

  function Unmix13(y: bv64): bv64 { var a := y ^ (y << 13); var b := a ^ (a << 26); b ^ (b << 52) }

  function Unmix7(y: bv64): bv64 {
    var a := y ^ (y >> 7);
    var b := a ^ (a >> 14);
    var c := b ^ (b >> 28);
    c ^ (c >> 56)
  }

  function Unmix17(y: bv64): bv64 { var a := y ^ (y << 17); a ^ (a << 34) }

  /** The inverse of a generator step. */
  function Previous(y: bv64): bv64 { Unmix13(Unmix7(Unmix17(y))) }

  // The word identities are stated on the shift expressions themselves, where the
  // solver can simplify them, and lifted to the named mixers afterwards.

  lemma Unmix13Word(x: bv64) ensures Unmix13(x ^ (x << 13)) == x {}

  lemma Unmix7Word(x: bv64) ensures Unmix7(x ^ (x >> 7)) == x {}

  lemma Unmix17Word(x: bv64) ensures Unmix17(x ^ (x << 17)) == x {}

  lemma Mix13Word(y: bv64)
    ensures Mix13((var a := y ^ (y << 13); var b := a ^ (a << 26); b ^ (b << 52))) == y
  {}

  lemma Mix7Word(y: bv64)
    ensures Mix7((var a := y ^ (y >> 7); var b := a ^ (a >> 14); var c := b ^ (b >> 28); c ^ (c >> 56))) == y
  {}

  lemma Mix17Word(y: bv64)
    ensures Mix17((var a := y ^ (y << 17); a ^ (a << 34))) == y
  {}

  lemma Unmix13Cancels(x: bv64) ensures Unmix13(Mix13(x)) == x { Unmix13Word(x); }

  lemma Unmix7Cancels(x: bv64) ensures Unmix7(Mix7(x)) == x { Unmix7Word(x); }

  lemma Unmix17Cancels(x: bv64) ensures Unmix17(Mix17(x)) == x { Unmix17Word(x); }

  lemma Mix13Cancels(y: bv64) ensures Mix13(Unmix13(y)) == y { Mix13Word(y); }

  lemma Mix7Cancels(y: bv64) ensures Mix7(Unmix7(y)) == y { Mix7Word(y); }

  lemma Mix17Cancels(y: bv64) ensures Mix17(Unmix17(y)) == y { Mix17Word(y); }

  lemma PreviousOfNext(x: bv64)
    ensures Previous(Next(x)) == x
  {
    Unmix17Cancels(Mix7(Mix13(x)));
    Unmix7Cancels(Mix13(x));
    Unmix13Cancels(x);
  }

  lemma NextOfPrevious(y: bv64)
    ensures Next(Previous(y)) == y
  {
    Mix13Cancels(Unmix7(Unmix17(y)));
    Mix7Cancels(Unmix17(y));
    Mix17Cancels(y);
  }

  /** The step and its inverse cancel both ways, so the step is a bijection on words. */
  lemma StepIsABijection(x: bv64)
    ensures Previous(Next(x)) == x
    ensures Next(Previous(x)) == x
  {
    PreviousOfNext(x);
    NextOfPrevious(x);
  }

  /** Zero is the only word that steps to zero. */
  lemma OnlyZeroStepsToZero(x: bv64)
    ensures Next(x) == 0 <==> x == 0
  {
  }

  /** The word reached from `seed` after `n` steps. */
  function Orbit(seed: bv64, n: nat): bv64 {
    if n == 0 then seed else Next(Orbit(seed, n - 1))
  }

  /** A non-zero seed never reaches zero. */
  lemma {:induction false} OrbitAvoidsZero(seed: bv64, n: nat)
    requires seed != 0
    ensures Orbit(seed, n) != 0
  {
    if n > 0 {
      OrbitAvoidsZero(seed, n - 1);
      OnlyZeroStepsToZero(Orbit(seed, n - 1));
    }
  }

  /** Orbits have no tail: the first word to come back is the seed itself. */
  lemma {:induction false} OrbitIsACycle(seed: bv64, i: nat, j: nat)
    requires i < j && Orbit(seed, i) == Orbit(seed, j)
    ensures Orbit(seed, j - i) == seed
  {
    if i > 0 {
      StepIsABijection(Orbit(seed, i - 1));
      StepIsABijection(Orbit(seed, j - 1));
      OrbitIsACycle(seed, i - 1, j - 1);
    }
  }

  // ------------------------------------------------- the compare-and-swap loop, N threads

  /** Where a thread stands: outside, at the load, or holding a loaded word. */
  datatype Pc = Idle | Loading | Loaded(word: bv64)

  datatype Drawn = Drawn(tid: nat, word: bv64)

  /** The shared word, every thread's position, and the returned values in order. */
  datatype Sys = Sys(word: bv64, threads: seq<Pc>, drawn: seq<Drawn>)

  /** Thread `tid` takes its next step; `spurious` makes a weak exchange fail for no reason. */
  datatype Event = Event(tid: nat, spurious: bool)

  function Init(seed: bv64, threads: nat): Sys { Sys(seed, seq(threads, _ => Idle), []) }

  function Step(s: Sys, e: Event): Sys {
    if e.tid >= |s.threads| then s else
    match s.threads[e.tid]
    case Idle => s.(threads := s.threads[e.tid := Loading])
    case Loading => s.(threads := s.threads[e.tid := Loaded(s.word)])
    case Loaded(word) =>
      if s.word == word && !e.spurious then
        Sys(Next(word), s.threads[e.tid := Idle], s.drawn + [Drawn(e.tid, Next(word))])
      else
        s.(threads := s.threads[e.tid := Loading])
  }

  function Exec(s: Sys, events: seq<Event>): Sys
    decreases |events|
  {
    if events == [] then s else Exec(Step(s, events[0]), events[1..])
  }

  ghost predicate DrawsTheOrbit(seed: bv64, s: Sys) {
    && s.word == Orbit(seed, |s.drawn|)
    && forall i :: 0 <= i < |s.drawn| ==> s.drawn[i].word == Orbit(seed, i + 1)
  }

  lemma StepDrawsTheOrbit(seed: bv64, s: Sys, e: Event)
    requires DrawsTheOrbit(seed, s)
    ensures DrawsTheOrbit(seed, Step(s, e))
  {
    assert Orbit(seed, |s.drawn| + 1) == Next(s.word);
  }

  lemma {:induction false} ExecDrawsTheOrbit(seed: bv64, s: Sys, events: seq<Event>)
    requires DrawsTheOrbit(seed, s)
    ensures DrawsTheOrbit(seed, Exec(s, events))
    decreases |events|
  {
    if events != [] {
      StepDrawsTheOrbit(seed, s, events[0]);
      ExecDrawsTheOrbit(seed, Step(s, events[0]), events[1..]);
    }
  }

  /** Under every interleaving, retry and spurious failure, the values handed out are
      exactly the successive orbit words, one per returning call. */
  lemma DrawsAreTheOrbit(seed: bv64, threads: nat, events: seq<Event>)
    ensures
      var s := Exec(Init(seed, threads), events);
      && s.word == Orbit(seed, |s.drawn|)
      && forall i :: 0 <= i < |s.drawn| ==> s.drawn[i].word == Orbit(seed, i + 1)
  {
    ExecDrawsTheOrbit(seed, Init(seed, threads), events);
  }

  // ------------------------------------------------------------------------- the sampler

  const WORD_MAX: bv64 := 0xFFFF_FFFF_FFFF_FFFF

  /** Seeds are made odd, hence non-zero. */
  function SamplerSeed(seed: bv64): bv64 { seed | 1 }

  /** The sampler's decision on a drawn word. */
  predicate Keeps(threshold: bv64, word: bv64) { word <= threshold }

  /** Only the lowest bit of the seed is changed, to one. */
  lemma SamplerSeedIsTheOddOne(seed: bv64)
    ensures SamplerSeed(seed) & 1 == 1
    ensures SamplerSeed(seed) >> 1 == seed >> 1
  {}

  lemma SamplerSeedIsNotZero(seed: bv64) ensures SamplerSeed(seed) != 0 {}

  lemma ThresholdExtremes(word: bv64)
    ensures Keeps(0, word) <==> word == 0
    ensures Keeps(WORD_MAX, word)
  {}

  /** Thresholds are inclusive: a word is its own boundary and the next one is out. */
  lemma ThresholdsAreInclusive(threshold: bv64)
    ensures Keeps(threshold, threshold)
    ensures threshold != WORD_MAX ==> !Keeps(threshold, threshold + 1)
  {
  }

  /** The next threshold still keeps the boundary word. */
  lemma NextThresholdKeeps(threshold: bv64)
    ensures threshold != WORD_MAX ==> Keeps(threshold + 1, threshold)
  {
  }

  /** A higher threshold keeps whatever a lower one does; with the boundaries above, the
      words a threshold keeps are exactly those up to it. */
  lemma ThresholdsAreMonotone(lower: bv64, higher: bv64, word: bv64)
    requires Keeps(higher, lower) && Keeps(lower, word)
    ensures Keeps(higher, word)
  {
  }

  /** In every run of every number of threads, threshold 0 keeps nothing and the maximum
      threshold keeps everything. */
  lemma SamplerExtremes(seed: bv64, threads: nat, events: seq<Event>, i: nat)
    requires i < |Exec(Init(SamplerSeed(seed), threads), events).drawn|
    ensures
      var word := Exec(Init(SamplerSeed(seed), threads), events).drawn[i].word;
      !Keeps(0, word) && Keeps(WORD_MAX, word)
  {
    DrawsAreTheOrbit(SamplerSeed(seed), threads, events);
    SamplerSeedIsNotZero(seed);
    OrbitAvoidsZero(SamplerSeed(seed), i + 1);
    ThresholdExtremes(Orbit(SamplerSeed(seed), i + 1));
  }

  /** The sampler as one caller sees it. `spurious` is the number of weak exchanges that
      fail for no reason before one goes through. */
  class Sampler {
    const threshold: bv64
    var state: bv64

    constructor (threshold: bv64, seed: bv64)
      ensures this.threshold == threshold && state == SamplerSeed(seed) && state != 0
    {
      this.threshold := threshold;
      state := seed | 1;
      new;
      SamplerSeedIsNotZero(seed);
    }

    method NextRandom(spurious: nat) returns (x: bv64)
      modifies this
      ensures x == state == Next(old(state))
    {
      var left := spurious;
      while true
        invariant state == old(state)
        decreases left
      {
        var loaded := state;
        var a := loaded ^ (loaded << 13);
        var b := a ^ (a >> 7);
        x := b ^ (b << 17);
        NextOnShifts(loaded, a, b, x);
        if state == loaded && left == 0 {
          state := x;
          return;
        }
        left := left - 1;
      }
    }

    method ShouldSample(spurious: nat) returns (keep: bool)
      modifies this
      ensures state == Next(old(state))
      ensures keep <==> Keeps(threshold, Next(old(state)))
    {
      var x := NextRandom(spurious);
      keep := Keeps(threshold, x);
    }
  }
}
