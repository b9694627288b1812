/** Fixed-width integer types and the helper macros of UefiBaseTypes.h:
    ALIGN_VALUE, SIGNATURE_16, SIGNATURE_32 and MAX_UINT16.
    C's unsigned types become subset types of int; every wrap-around is
    written out with `%`. The bitwise operators `&` and `|` are defined on
    natural numbers one bit at a time. */
module BaseTypes {

  type uint8 = x: int | 0 <= x < 0x100
  type uint16 = x: int | 0 <= x < 0x1_0000
  type uint32 = x: int | 0 <= x < 0x1_0000_0000
  type uint64 = x: int | 0 <= x < 0x1_0000_0000_0000_0000

  const TWO32: int := 0x1_0000_0000
  const TWO64: int := 0x1_0000_0000_0000_0000

  /** MAX_UINT16: the largest message length the logger accepts. */
  const MAX_UINT16: uint16 := 0xFFFF

  /** An address that may be NULL. */
  datatype Option<T> = None | Some(value: T)

  function Pow2(k: nat): (p: nat)
    ensures p >= 1
  {
    if k == 0 then 1 else 2 * Pow2(k - 1)
  }

  lemma {:induction false} Pow2Add(a: nat, b: nat)
    ensures Pow2(a + b) == Pow2(a) * Pow2(b)
  {
    if a > 0 {
      Pow2Add(a - 1, b);
      assert Pow2(a + b) == 2 * Pow2(a - 1 + b);
    }
  }

  lemma Pow2Of16()
    ensures Pow2(16) == 0x1_0000
  {
    Pow2Add(8, 8);
    assert Pow2(8) == 0x100;
  }

  lemma Pow2Of32()
    ensures Pow2(32) == TWO32
  {
    Pow2Add(16, 16);
    Pow2Of16();
  }

  lemma Pow2Of64()
    ensures Pow2(64) == TWO64
  {
    Pow2Add(32, 32);
    Pow2Of32();
  }

  /** Powers of two below 2^64 have exponents below 64, and 2^64 is a multiple of each. */
  lemma Pow2Divides64(k: nat)
    requires Pow2(k) < TWO64
    ensures k < 64 && Pow2(k) * Pow2(64 - k) == TWO64
  {
    Pow2Of64();
    if k >= 64 {
      Pow2Add(64, k - 64);
    }
    Pow2Add(k, 64 - k);
  }

  lemma {:induction false} Pow2Monotone(j: nat, k: nat)
    requires j <= k
    ensures Pow2(j) <= Pow2(k)
  {
    if j < k {
      Pow2Monotone(j, k - 1);
    }
  }

  /** Bitwise AND (`&`) of two unsigned values. */
  function BitAnd(a: nat, b: nat): (r: nat)
    ensures r <= a && r <= b
    decreases a
  {
    if a == 0 || b == 0 then 0
    else 2 * BitAnd(a / 2, b / 2) + (if a % 2 == 1 && b % 2 == 1 then 1 else 0)
  }

  /** Bitwise OR (`|`) of two unsigned values. */
  function BitOr(a: nat, b: nat): (r: nat)
    ensures a <= r && b <= r && r <= a + b
    decreases a
  {
    if a == 0 then b
    else if b == 0 then a
    else 2 * BitOr(a / 2, b / 2) + (if a % 2 == 1 || b % 2 == 1 then 1 else 0)
  }

  /** Left shift (`<<`) without loss of bits. */
  function ShiftLeft(x: nat, n: nat): nat
  {
    x * Pow2(n)
  }

  lemma {:induction false} MulAtLeast(n: int, d: int)
    requires n >= 1 && d > 0
    ensures n * d >= d
  {
    if n > 1 {
      MulAtLeast(n - 1, d);
      assert n * d == (n - 1) * d + d;
    }
  }

  /** Euclidean division is unique: a quotient and a remainder in range are the ones `/` and `%` give. */
  lemma DivModUnique(x: int, d: int, q: int, r: int)
    requires d > 0 && x == q * d + r && 0 <= r < d
    ensures x / d == q && x % d == r
  {
    var q', r' := x / d, x % d;
    assert x == q' * d + r';
    if q' > q {
      assert (q' - q) * d == r - r';
      MulAtLeast(q' - q, d);
    } else if q' < q {
      assert (q - q') * d == r' - r;
      MulAtLeast(q - q', d);
    }
  }

  /** Reducing modulo a multiple `n` of `a` first does not change the remainder modulo `a`. */
  lemma ModOfMultipleMod(x: int, a: int, b: int, n: int)
    requires a > 0 && b > 0 && n == a * b
    ensures x % n % a == x % a
  {
    var big, rest := x / n, x % n;
    assert x == big * n + rest;
    var q, r := rest / a, rest % a;
    assert rest == q * a + r;
    assert x == (big * b + q) * a + r;
    DivModUnique(x, a, big * b + q, r);
  }

  lemma ModHalving(x: nat, m: nat)
    requires m > 0
    ensures x % (2 * m) == 2 * ((x / 2) % m) + x % 2
  {
    var h, bit := x / 2, x % 2;
    var t, u := h / m, h % m;
    assert h == t * m + u;
    assert x == t * (2 * m) + (2 * u + bit);
    DivModUnique(x, 2 * m, t, 2 * u + bit);
  }

  /** Reducing a summand first does not change a sum's remainder. */
  lemma ModAddMod(a: int, y: int, m: int)
    requires m > 0
    ensures (a % m + y) % m == (a + y) % m
  {
    var q, t, u := a / m, (a + y) % m, (a + y) / m;
    assert a == q * m + a % m;
    assert a + y == u * m + t;
    assert a % m + y == (u - q) * m + t;
    DivModUnique(a % m + y, m, u - q, t);
  }

  /** Two additions, each reduced modulo `m`, are one addition reduced once. */
  lemma ModAddTwice(a: int, x: int, y: int, m: int, t: int, u: int)
    requires m > 0 && t == (a + x) % m && u == (t + y) % m
    ensures u == (a + (x + y)) % m
  {
    ModAddMod(a + x, y, m);
    assert a + x + y == a + (x + y);
  }

  /** Masking with `2^k - 1` keeps the low `k` bits: `x & (2^k - 1) == x mod 2^k`. */
  lemma {:induction false} BitAndLowMask(x: nat, k: nat)
    ensures BitAnd(x, Pow2(k) - 1) == x % Pow2(k)
  {
    if k == 0 {
      assert Pow2(k) - 1 == 0;
    } else if x == 0 {
      assert BitAnd(x, Pow2(k) - 1) == 0;
    } else {
      var m := Pow2(k - 1);
      var mask := Pow2(k) - 1;
      assert Pow2(k) == 2 * m;
      assert mask / 2 == m - 1 && mask % 2 == 1;
      var low := BitAnd(x / 2, m - 1);
      assert BitAnd(x, mask) == 2 * low + x % 2;
      BitAndLowMask(x / 2, k - 1);
      assert low == (x / 2) % m;
      ModHalving(x, m);
      assert x % Pow2(k) == 2 * low + x % 2;
    }
  }

  /** OR-ing a value below `2^k` with a value shifted left by `k` is addition. */
  lemma {:induction false} BitOrShifted(a: nat, b: nat, k: nat)
    requires a < Pow2(k)
    ensures BitOr(a, ShiftLeft(b, k)) == a + ShiftLeft(b, k)
  {
    if k > 0 && a > 0 && b > 0 {
      var m := Pow2(k - 1);
      assert ShiftLeft(b, k) == 2 * (b * m);
      assert ShiftLeft(b, k) / 2 == ShiftLeft(b, k - 1) && ShiftLeft(b, k) % 2 == 0;
      BitOrShifted(a / 2, b, k - 1);
    }
  }

  /** ALIGN_VALUE(Value, Alignment): Value + ((Alignment - Value) & (Alignment - 1)),
      evaluated in 64-bit unsigned arithmetic. */
  function AlignValue(value: uint64, alignment: uint64): (r: uint64)
    ensures 0 < alignment && value + alignment <= TWO64 ==> value <= r < value + alignment
  {
    var gap := BitAnd((alignment - value) % TWO64, (alignment - 1) % TWO64);
    AlignGapBound(value, alignment, gap);
    (value + gap) % TWO64
  }

  /** A masked gap is at most `Alignment - 1`, so without overflow it never carries past
      the next multiple. */
  lemma AlignGapBound(v: uint64, a: uint64, gap: nat)
    requires gap <= (a - 1) % TWO64
    ensures 0 < a && v + a <= TWO64 ==> v <= (v + gap) % TWO64 < v + a
  {
    if 0 < a && v + a <= TWO64 {
      assert (a - 1) % TWO64 == a - 1;
      assert (v + gap) % TWO64 == v + gap;
    }
  }

  /** The amount that rounds `v` up to a multiple of `a`. */
  lemma RoundUpGap(v: int, a: int)
    requires a > 0
    ensures 0 <= (a - v) % a < a
    ensures (v + (a - v) % a) % a == 0
    ensures v % a == 0 ==> (a - v) % a == 0
  {
    var t, q := (a - v) % a, (a - v) / a;
    assert a - v == q * a + t;
    assert v + t == (1 - q) * a;
    DivModUnique(v + t, a, 1 - q, 0);
    if v % a == 0 {
      var p := v / a;
      assert v == p * a;
      assert a - v == (1 - p) * a;
      DivModUnique(a - v, a, 1 - p, 0);
    }
  }

  /** For a power of two below 2^64, reducing modulo 2^64 first does not change the
      remainder modulo that power. */
  lemma ModTwo64ModPow2(x: int, k: nat)
    requires Pow2(k) < TWO64
    ensures x % TWO64 % Pow2(k) == x % Pow2(k)
  {
    Pow2Divides64(k);
    ModOfMultipleMod(x, Pow2(k), Pow2(64 - k), TWO64);
  }

  /** Masking a 64-bit value with `a - 1`, for a power of two `a`, leaves its remainder modulo `a`. */
  lemma MaskIsRemainder(x: int, a: nat, k: nat)
    requires a == Pow2(k) && a < TWO64
    ensures BitAnd(x % TWO64, (a - 1) % TWO64) == x % a
  {
    assert (a - 1) % TWO64 == Pow2(k) - 1;
    BitAndLowMask(x % TWO64, k);
    ModTwo64ModPow2(x, k);
  }

  /** ALIGN_VALUE adds the masked difference to the value, modulo 2^64. */
  lemma AlignValueByMask(v: uint64, a: uint64, gap: int)
    requires BitAnd((a - v) % TWO64, (a - 1) % TWO64) == gap
    ensures AlignValue(v, a) == (v + gap) % TWO64
  {
  }

  /** With a power-of-two alignment the mask in ALIGN_VALUE yields the gap to the next multiple. */
  lemma AlignValueAddsGap(v: uint64, a: uint64, k: nat)
    requires a == Pow2(k)
    ensures AlignValue(v, a) == (v + (a - v) % a) % TWO64
  {
    MaskIsRemainder(a - v, a, k);
    AlignValueByMask(v, a, (a - v) % a);
  }

  /** For a power-of-two alignment the result is a multiple of the alignment; without
      overflow it is the least such multiple at or above the value, and an aligned value
      is left unchanged. */
  lemma AlignValueRoundsUp(v: uint64, a: uint64, k: nat)
    requires a == Pow2(k)
    ensures AlignValue(v, a) % a == 0
    ensures v + a <= TWO64 ==> v <= AlignValue(v, a) < v + a
    ensures v % a == 0 ==> AlignValue(v, a) == v
  {
    AlignValueAddsGap(v, a, k);
    GapRoundsUp(v, k, (a - v) % a, AlignValue(v, a));
  }

  /** Adding the gap `(a - v) mod a` to `v`, modulo 2^64, gives a multiple of `a`; without
      overflow it is the least one at or above `v`. */
  lemma GapRoundsUp(v: uint64, k: nat, gap: int, r: int)
    requires Pow2(k) < TWO64
    requires gap == (Pow2(k) - v) % Pow2(k) && r == (v + gap) % TWO64
    ensures r % Pow2(k) == 0
    ensures v + Pow2(k) <= TWO64 ==> v <= r < v + Pow2(k)
    ensures v % Pow2(k) == 0 ==> r == v
  {
    RoundUpGap(v, Pow2(k));
    ModTwo64ModPow2(v + gap, k);
    if v + Pow2(k) <= TWO64 {
      assert r == v + gap;
    }
  }

  /** Aligning twice is the same as aligning once. */
  lemma AlignValueIdempotent(v: uint64, a: uint64, k: nat)
    requires a == Pow2(k)
    ensures AlignValue(AlignValue(v, a), a) == AlignValue(v, a)
  {
    AlignValueRoundsUp(v, a, k);
    AlignValueRoundsUp(AlignValue(v, a), a, k);
  }

  /** SIGNATURE_16(A, B): (A) | (B << 8). */
  function Signature16(a: uint8, b: uint8): (r: nat)
    ensures r == a + 0x100 * b
    ensures r < 0x1_0000
  {
    assert Pow2(8) == 0x100;
    BitOrShifted(a, b, 8);
    BitOr(a, ShiftLeft(b, 8))
  }

  /** SIGNATURE_32(A, B, C, D): SIGNATURE_16(A, B) | (SIGNATURE_16(C, D) << 16). */
  function Signature32(a: uint8, b: uint8, c: uint8, d: uint8): (r: nat)
    ensures r == a + 0x100 * b + 0x1_0000 * c + 0x100_0000 * d
    ensures r < TWO32
  {
    Pow2Of16();
    var lo, hi := Signature16(a, b), Signature16(c, d);
    BitOrShifted(lo, hi, 16);
    BitOr(lo, ShiftLeft(hi, 16))
  }
}
