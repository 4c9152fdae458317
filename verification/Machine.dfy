/** What the other modules share: optional values, machine integers, and a few facts about
    concatenation, multiplication and floor division. */
module Machine {

  datatype Option<T> = None | Some(value: T)

  const U32_MAX: nat := 0xFFFF_FFFF
  const U64_MAX: nat := 0xFFFF_FFFF_FFFF_FFFF

  type U32 = n: nat | n <= 0xFFFF_FFFF
  type U64 = n: nat | n <= 0xFFFF_FFFF_FFFF_FFFF

  function Min(a: nat, b: nat): nat { if a <= b then a else b }

  function Max(a: nat, b: nat): nat { if a >= b then a else b }

  function SaturatingSub(a: nat, b: nat): nat { if a >= b then a - b else 0 }

  function SaturatingAdd(a: nat, b: nat): U64 { if a + b <= U64_MAX then a + b else U64_MAX }

  function SaturatingMul(a: nat, b: nat): U64 { if a * b <= U64_MAX then a * b else U64_MAX }

  /** The wrap-around of an unchecked 32-bit `+= 1`. */
  function WrappingInc(a: U32): U32 { if a == U32_MAX then 0 else a + 1 }

  /** The wrap-around of an unchecked 64-bit multiplication. */
  function WrappingMul(a: nat, b: nat): U64 { (a * b) % (U64_MAX + 1) }

  lemma Regroup<T>(a: seq<T>, b: seq<T>, c: seq<T>)
    ensures a + b + c == a + (b + c)
  {
  }

  lemma TimesMonotone(a: nat, b: nat, n: nat)
    ensures a <= b ==> a * n <= b * n
  {}

  lemma TimesDistributes(a: nat, b: nat, n: nat)
    ensures (a + b) * n == a * n + b * n
  {}

  lemma QuotientBounds(a: nat, n: nat)
    requires n >= 1
    ensures a == a / n * n + a % n
    ensures a / n * n <= a < a / n * n + n
  {}

  /** Floor division is the only quotient that leaves a remainder below the divisor. */
  lemma QuotientIsUnique(a: nat, q: nat, n: nat)
    requires q * n <= a < (q + 1) * n
    ensures a / n == q
  {
    var d := a / n;
    assert a == d * n + a % n;
    TimesMonotone(d + 1, q, n);
    TimesMonotone(q + 1, d, n);
  }

  /** Adding a multiple of the divisor moves the quotient and keeps the remainder. */
  lemma AddMultiple(a: nat, k: nat, n: nat)
    requires n >= 1
    ensures (a + k * n) / n == a / n + k
    ensures (a + k * n) % n == a % n
  {
    var q := a / n;
    assert (q + k) * n == q * n + k * n;
    assert (q + k + 1) * n == q * n + k * n + n;
    QuotientIsUnique(a + k * n, q + k, n);
  }

  /** Floor division is monotone. */
  lemma QuotientMonotone(a: nat, b: nat, n: nat)
    requires n >= 1 && a <= b
    ensures a / n <= b / n
  {
    TimesMonotone(b / n + 1, a / n, n);
  }

  /** Floors of two parts never add up to more than the floor of the whole. */
  lemma QuotientSuperadditive(a: nat, b: nat, n: nat)
    requires n >= 1
    ensures a / n + b / n <= (a + b) / n
  {
    AddMultiple(a, b / n, n);
    QuotientMonotone(a + b / n * n, a + b, n);
  }

  /** A product bound is a quotient bound. */
  lemma QuotientBound(k: nat, a: nat, n: nat)
    requires n >= 1 && k * n <= a
    ensures k <= a / n
  {
    AddMultiple(0, k, n);
    QuotientMonotone(k * n, a, n);
  }
}
