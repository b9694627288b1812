/** 64-by-32-bit unsigned multiplication and division of BaseLib/Math64.c.
    The public functions assert their preconditions and forward to the
    InternalMath workers; the workers evaluate one C expression in 64-bit
    unsigned arithmetic. */
module Math64 {
  import opened BaseTypes

  /** Dividend / Divisor in C: the quotient rounded down. Division by zero is
      undefined in C, so the worker demands a non-zero divisor. */
  function InternalMathDivU64x32(dividend: uint64, divisor: uint32): (q: uint64)
    requires divisor != 0
    ensures q * divisor <= dividend < (q + 1) * divisor
  {
    DivModUnique(dividend, divisor, dividend / divisor, dividend % divisor);
    dividend / divisor
  }

  /** Multiplicand * Multiplier in C: the product promoted to 64 bits, kept modulo 2^64. */
  function InternalMathMultU64x32(multiplicand: uint64, multiplier: uint32): (r: uint64)
    ensures (multiplicand * multiplier - r) % TWO64 == 0
  {
    var p := multiplicand * multiplier;
    DivModUnique(p - p % TWO64, TWO64, p / TWO64, 0);
    p % TWO64
  }

  /** MultU64x32: the worker's result, which is the exact product whenever that fits in 64 bits. */
  function MultU64x32(multiplicand: uint64, multiplier: uint32): (r: uint64)
    ensures r == InternalMathMultU64x32(multiplicand, multiplier)
    ensures multiplicand * multiplier < TWO64 ==> r == multiplicand * multiplier
  {
    var p := multiplicand * multiplier;
    assert p < TWO64 ==> p % TWO64 == p by {
      if p < TWO64 { DivModUnique(p, TWO64, 0, p); }
    }
    InternalMathMultU64x32(multiplicand, multiplier)
  }

  /** DivU64x32: ASSERT(Divisor != 0), then the worker's result, the rounded-down quotient. */
  function DivU64x32(dividend: uint64, divisor: uint32): (q: uint64)
    requires divisor != 0
    ensures q == InternalMathDivU64x32(dividend, divisor)
    ensures q * divisor <= dividend < (q + 1) * divisor
  {
    InternalMathDivU64x32(dividend, divisor)
  }

  /** Dividing a product that did not overflow by its non-zero multiplier gives back the multiplicand. */
  lemma MultThenDivRoundTrip(multiplicand: uint64, multiplier: uint32)
    requires multiplier != 0 && multiplicand * multiplier < TWO64
    ensures DivU64x32(MultU64x32(multiplicand, multiplier), multiplier) == multiplicand
  {
    var p := MultU64x32(multiplicand, multiplier);
    DivModUnique(p, multiplier, multiplicand, 0);
  }
}
