/**
 * The SILK fixed-point helpers of SigProcFIX: saturation, clamping,
 * rounding shifts, 32-bit rotation and the linear congruential generator,
 * all on Java `int` values with Java's wrap-around and shift masking.
 */
module SigProcFix {
  import opened JavaBase
  import opened JavaBits

  const SHORT_MIN: int := -0x8000
  const SHORT_MAX: int := 0x7fff

  /** SKP_SAT16: saturates a 32-bit value to the 16-bit range. */
  function Sat16(a: int): (r: int)
    requires IsInt(a)
    ensures SHORT_MIN <= r <= SHORT_MAX
    ensures SHORT_MIN <= a <= SHORT_MAX ==> r == a
    ensures a > SHORT_MAX ==> r == SHORT_MAX
    ensures a < SHORT_MIN ==> r == SHORT_MIN
  {
    if a > SHORT_MAX then SHORT_MAX else if a < SHORT_MIN then SHORT_MIN else a
  }

  /** SKP_LIMIT (and SKP_LIMIT_int, SKP_LIMIT_32): clamps a between two limits given in either order. */
  function Limit(a: int, limit1: int, limit2: int): (r: int)
    ensures Min(limit1, limit2) <= r <= Max(limit1, limit2)
    ensures Min(limit1, limit2) <= a <= Max(limit1, limit2) ==> r == a
    ensures a < Min(limit1, limit2) ==> r == Min(limit1, limit2)
    ensures a > Max(limit1, limit2) ==> r == Max(limit1, limit2)
  {
    if limit1 > limit2 then
      (if a > limit1 then limit1 else if a < limit2 then limit2 else a)
    else
      (if a > limit2 then limit2 else if a < limit1 then limit1 else a)
  }

  /** SKP_RSHIFT_ROUND: right shift that rounds to nearest, halves upwards. */
  function RShiftRound(a: int, shift: int): (r: int)
    requires IsInt(a) && IsInt(shift) && shift > 0
    ensures IsInt(r)
  {
    if shift == 1 then WrapInt(Sar(a, 1) + IntAnd(a, 1))
    else Sar(WrapInt(Sar(a, shift - 1) + 1), 1)
  }

  /** For every real shift count the result is a / 2^shift rounded half up. */
  lemma {:induction false} RShiftRoundRounds(a: int, shift: int)
    requires IsInt(a) && 1 <= shift <= 31
    ensures RShiftRound(a, shift) == (a + Pow2(shift - 1)) / Pow2(shift)
  {
    if shift == 1 {
      RShiftRoundOne(a);
    } else {
      RShiftRoundSteps(a, shift);
    }
  }

  lemma {:induction false} RShiftRoundOne(a: int)
    requires IsInt(a)
    ensures RShiftRound(a, 1) == (a + 1) / 2
  {
    IntAndOne(a);
    HalfPlusBit(a);
    assert Pow2(1) == 2;
  }

  /** (a + 1) / 2 is a / 2 plus the low bit, also an int. */
  lemma {:induction false} HalfPlusBit(a: int)
    requires IsInt(a)
    ensures (a + 1) / 2 == a / 2 + a % 2 && IsInt(a / 2 + a % 2)
  {
    DivModUnique(a + 1, 2, a / 2 + a % 2, if a % 2 == 0 then 1 else 0);
  }

  lemma {:induction false} RShiftRoundSteps(a: int, shift: int)
    requires IsInt(a) && 2 <= shift <= 31
    ensures RShiftRound(a, shift) == (a + Pow2(shift - 1)) / Pow2(shift)
  {
    var m := Pow2(shift - 1);
    Pow2Monotone(1, shift - 1);
    var q := a / m;
    assert Sar(a, shift - 1) == q;
    assert IsInt(q + 1) by { DivShrinks(a, m); }
    assert WrapInt(q + 1) == q + 1;
    assert RShiftRound(a, shift) == (q + 1) / 2;
    HalfUp(a, m);
    assert Pow2(shift) == m * 2;
  }

  /** Rounding a / m half up is halving a / m + 1. */
  lemma {:induction false} HalfUp(a: int, m: int)
    requires m >= 1
    ensures (a / m + 1) / 2 == (a + m) / (m * 2)
  {
    var q := a / m;
    DivModUnique(a + m, m, q + 1, a % m);
    DivDiv(a + m, m, 2);
  }

  lemma {:induction false} DivShrinks(a: int, m: int)
    requires IsInt(a) && m >= 2
    ensures INT_MIN / 2 <= a / m <= INT_MAX / 2
  {
    if a >= 0 {
      DivModUnique(a, m, a / m, a % m);
      MulMonotone(2, m, a / m);
    } else {
      MulMonotone(2, m, -(a / m) - 1);
    }
  }

  /** `a & 1` is the low bit of a. */
  lemma {:induction false} IntAndOne(a: int)
    requires IsInt(a)
    ensures IntAnd(a, 1) == a % 2
  {
    var u := UInt32(a);
    assert UInt32(1) == 1;
    BitAndLowMask(u, 1);
    assert (u - a) % TWO32 == 0;
    var k := (u - a) / TWO32;
    assert u == a + (k * 0x8000_0000) * 2;
    ModAddMultiple(a, k * 0x8000_0000, 2);
  }

  /** Rotation of a 32-bit pattern u right by k places: the low k bits move to the top. */
  function RotateRight(u: nat, k: nat): (r: nat)
    requires u < TWO32 && k < 32
  {
    var low, q := u % Pow2(k), Pow2(32 - k);
    MulMonotone(0, low, q);
    u / Pow2(k) + low * q
  }

  /** SKP_ROR32: rotates a32 right by rot places; a negative rot rotates left. */
  function Ror32(a32: int, rot: int): (r: int)
    requires IsInt(a32) && IsInt(rot)
    ensures IsInt(r)
  {
    if rot <= 0 then IntOr(Shl(a32, -rot), UShr(a32, 32 + rot))
    else IntOr(Shl(a32, 32 - rot), UShr(a32, rot))
  }

  /** SKP_ROR32 is a rotation of the 32-bit pattern by rot mod 32 places. */
  lemma {:induction false} Ror32IsRotation(a32: int, rot: int)
    requires IsInt(a32) && IsInt(rot)
    ensures Ror32(a32, rot) == WrapInt(RotateRight(UInt32(a32), rot % 32))
  {
    var k := rot % 32;
    RotationAmounts(rot);
    if rot <= 0 {
      ShiftsAgree(a32, -rot, 32 - k);
      ShiftsAgree(a32, 32 + rot, k);
    } else {
      ShiftsAgree(a32, 32 - rot, 32 - k);
      ShiftsAgree(a32, rot, k);
    }
    RotateCore(a32, k);
  }

  /** The shift amounts of SKP_ROR32 modulo 32, in terms of rot mod 32. */
  lemma {:induction false} RotationAmounts(rot: int)
    ensures var k := rot % 32;
      (-rot) % 32 == (32 - k) % 32 && (32 + rot) % 32 == k % 32 && (32 - rot) % 32 == (32 - k) % 32
  {
    var q, k := rot / 32, rot % 32;
    assert rot == q * 32 + k;
    DivModUnique(k, 32, 0, k);
    DivModUnique(32 + rot, 32, q + 1, k);
    if k == 0 {
      DivModUnique(32 - k, 32, 1, 0);
      DivModUnique(-rot, 32, -q, 0);
      DivModUnique(32 - rot, 32, 1 - q, 0);
    } else {
      DivModUnique(32 - k, 32, 0, 32 - k);
      DivModUnique(-rot, 32, -q - 1, 32 - k);
      DivModUnique(32 - rot, 32, -q, 32 - k);
    }
  }

  /** Java's shifts use only the amount modulo 32. */
  lemma {:induction false} ShiftsAgree(a: int, n: int, m: int)
    requires n % 32 == m % 32
    ensures Shl(a, n) == Shl(a, m) && UShr(a, n) == UShr(a, m)
  {
  }

  /** (a << (32-k)) | (a >>> k) is the rotation by k, for 0 <= k < 32. */
  lemma {:induction false} RotateCore(a: int, k: nat)
    requires IsInt(a) && k < 32
    ensures IntOr(Shl(a, 32 - k), UShr(a, k)) == WrapInt(RotateRight(UInt32(a), k))
  {
    if k == 0 {
      RotateByZero(a);
    } else {
      RotateByPlaces(a, k);
    }
  }

  lemma {:induction false} RotateByZero(a: int)
    requires IsInt(a)
    ensures IntOr(Shl(a, 32), UShr(a, 0)) == WrapInt(RotateRight(UInt32(a), 0))
  {
    var u := UInt32(a);
    assert Pow2(0) == 1;
    assert Shl(a, 32) == WrapInt(a) == a;
    assert UShr(a, 0) == WrapInt(u) == a;
    BitOrSelf(u);
    assert IntOr(a, a) == WrapInt(u);
    RotateRightZero(u);
  }

  lemma {:induction false} RotateByPlaces(a: int, k: nat)
    requires IsInt(a) && 0 < k < 32
    ensures IntOr(Shl(a, 32 - k), UShr(a, k)) == WrapInt(RotateRight(UInt32(a), k))
  {
    var u, p, q := UInt32(a), Pow2(k), Pow2(32 - k);
    var low, high := u % p, u / p;
    RotateParts(a, k);
    BitOrDisjoint(low, high, 32 - k);
    assert BitOr(low * q, high) == low * q + high;
    assert IntOr(Shl(a, 32 - k), UShr(a, k)) == WrapInt(BitOr(low * q, high));
    assert RotateRight(u, k) == high + low * q;
  }

  /** The two halves of a rotation: the shifted-out low bits and the remaining high bits. */
  lemma {:induction false} RotateParts(a: int, k: nat)
    requires IsInt(a) && 0 < k < 32
    ensures UInt32(Shl(a, 32 - k)) == (UInt32(a) % Pow2(k)) * Pow2(32 - k)
    ensures UInt32(UShr(a, k)) == UInt32(a) / Pow2(k) < Pow2(32 - k)
  {
    Pow2Add(k, 32 - k);
    Pow2Values();
    RotateLowPart(a, k);
    RotateHighPart(a, k);
  }

  lemma {:induction false} RotateLowPart(a: int, k: nat)
    requires IsInt(a) && 0 < k < 32 && Pow2(k) * Pow2(32 - k) == TWO32
    ensures UInt32(Shl(a, 32 - k)) == (UInt32(a) % Pow2(k)) * Pow2(32 - k)
  {
    ShlPattern(a, 32 - k);
    ModMulPow(UInt32(a), Pow2(k), Pow2(32 - k));
  }

  lemma {:induction false} RotateHighPart(a: int, k: nat)
    requires IsInt(a) && 0 < k < 32 && Pow2(k) * Pow2(32 - k) == TWO32 && Pow2(31) == 0x8000_0000
    ensures UInt32(UShr(a, k)) == UInt32(a) / Pow2(k) < Pow2(32 - k)
  {
    var u, p, q := UInt32(a), Pow2(k), Pow2(32 - k);
    HighBitsBound(u, p, q);
    Pow2Monotone(32 - k, 31);
    assert k % 32 == k;
    var h := u / p;
    assert 0 <= h < 0x8000_0000;
  }

  lemma {:induction false} HighBitsBound(u: nat, p: nat, q: nat)
    requires p > 0 && u < p * q
    ensures 0 <= u / p < q
  {
    DivModUnique(u, p, u / p, u % p);
    if u / p >= q { MulMonotone(q, u / p, p); }
  }

  lemma {:induction false} ModMulPow(u: nat, p: nat, q: nat)
    requires p > 0 && q > 0 && u < p * q
    ensures (u * q) % (p * q) == (u % p) * q
  {
    var d, m := u / p, u % p;
    assert u == d * p + m;
    assert u * q == d * (p * q) + m * q;
    MulMonotone(m, p - 1, q);
    DivModUnique(u * q, p * q, d, m * q);
  }

  /** Rotating back by the opposite amount restores the pattern. */
  lemma {:induction false} RotateRightInverse(u: nat, k: nat)
    requires u < TWO32 && 0 < k < 32
    ensures RotateRight(u, k) < TWO32
    ensures RotateRight(RotateRight(u, k), 32 - k) == u
  {
    Pow2Values();
    Pow2Add(k, 32 - k);
    assert 32 - (32 - k) == k;
    SwapHalves(u, Pow2(k), Pow2(32 - k));
  }

  /** Swapping the two digits of u in the mixed radix (q, p) twice is the identity. */
  lemma {:induction false} SwapHalves(u: nat, p: nat, q: nat)
    requires p > 0 && q > 0 && u < p * q
    ensures u / p + (u % p) * q < p * q
    ensures var v := u / p + (u % p) * q; v / q + (v % q) * p == u
  {
    var hi, lo := u / p, u % p;
    assert u == hi * p + lo;
    HighBitsBound(u, p, q);
    MulMonotone(lo, p - 1, q);
    var v := hi + lo * q;
    assert v < p * q;
    DivModUnique(v, q, lo, hi);
  }

  /** SKP_ROR32 by rot and then by -rot gives back the input. */
  lemma {:induction false} Ror32RoundTrip(a32: int, rot: int)
    requires IsInt(a32) && IsInt(rot) && IsInt(-rot)
    ensures Ror32(Ror32(a32, rot), -rot) == a32
  {
    var k := rot % 32;
    Ror32IsRotation(a32, rot);
    Ror32IsRotation(Ror32(a32, rot), -rot);
    NegMod32(rot);
    PatternRoundTrip(a32, k);
  }

  lemma {:induction false} NegMod32(x: int)
    ensures (-x) % 32 == (32 - x % 32) % 32
  {
    var q, r := x / 32, x % 32;
    if r == 0 {
      DivModUnique(-x, 32, -q, 0);
    } else {
      DivModUnique(-x, 32, -q - 1, 32 - r);
    }
  }

  lemma {:induction false} PatternRoundTrip(a: int, k: nat)
    requires IsInt(a) && k < 32
    ensures WrapInt(RotateRight(UInt32(WrapInt(RotateRight(UInt32(a), k))), (32 - k) % 32)) == a
  {
    var u := UInt32(a);
    WrapOfUInt32(a);
    if k == 0 {
      RotateRightZero(u);
      UInt32OfWrap(u);
      DivModUnique(u, TWO32, 0, u);
    } else {
      var r := RotateRight(u, k);
      RotateRightInverse(u, k);
      PatternOfRotation(u, k);
      DivModUnique(32 - k, 32, 0, 32 - k);
      assert RotateRight(r, 32 - k) == u;
    }
  }

  lemma {:induction false} PatternOfRotation(u: nat, k: nat)
    requires u < TWO32 && 0 < k < 32
    ensures UInt32(WrapInt(RotateRight(u, k))) == RotateRight(u, k)
  {
    RotateRightInverse(u, k);
    UInt32OfWrap(RotateRight(u, k));
  }

  lemma {:induction false} RotateRightZero(u: nat)
    requires u < TWO32
    ensures RotateRight(u, 0) == u
  {
    assert Pow2(0) == 1 && u % 1 == 0;
  }

  /** `x & 0x80000000` is non-zero exactly for a negative x. */
  lemma {:induction false} SignBitTest(x: int)
    requires IsInt(x)
    ensures (IntAnd(x, INT_MIN) != 0) <==> x < 0
  {
    Pow2Values();
    var u := UInt32(x);
    assert UInt32(INT_MIN) == Pow2(31);
    BitAndSingleBit(u, 31);
    TopBitOfPattern(x);
  }

  /** Bit 31 of the pattern of an int is its sign. */
  lemma {:induction false} TopBitOfPattern(x: int)
    requires IsInt(x)
    ensures (UInt32(x) / 0x8000_0000) % 2 == if x < 0 then 1 else 0
  {
    var u := UInt32(x);
    if x < 0 {
      DivModUnique(x, TWO32, -1, x + TWO32);
      DivModUnique(u, 0x8000_0000, 1, x + 0x8000_0000);
    } else {
      DivModUnique(x, TWO32, 0, x);
      DivModUnique(u, 0x8000_0000, 0, x);
    }
  }

  /** SKP_ADD_POS_SAT32: addition that saturates at MAX_INT for non-negative inputs. */
  function AddPosSat32(a: int, b: int): (r: int)
    requires IsInt(a) && IsInt(b)
    ensures IsInt(r) && r >= 0
  {
    var sum := WrapInt(a + b);
    SignBitTest(sum);
    if IntAnd(sum, INT_MIN) != 0 then INT_MAX else sum
  }

  lemma {:induction false} AddPosSat32Saturates(a: int, b: int)
    requires IsInt(a) && IsInt(b) && a >= 0 && b >= 0
    ensures AddPosSat32(a, b) == Min(a + b, INT_MAX)
  {
    SignBitTest(WrapInt(a + b));
  }

  const RAND_INCREMENT: int := 907633515
  const RAND_MULTIPLIER: int := 196314165
  /** The inverse of RAND_MULTIPLIER modulo 2^32. */
  const RAND_MULTIPLIER_INVERSE: int := 592883229

  /** SKP_RAND: one step of the linear congruential generator, modulo 2^32. */
  function Rand(seed: int): (r: int)
    requires IsInt(seed)
    ensures IsInt(r)
    ensures (RAND_INCREMENT + seed * RAND_MULTIPLIER - r) % TWO32 == 0
  {
    WrapInt(RAND_INCREMENT + seed * RAND_MULTIPLIER)
  }

  /** The seed that Rand maps to r. */
  function RandPrevious(r: int): (seed: int)
    requires IsInt(r)
    ensures IsInt(seed)
  {
    WrapInt((r - RAND_INCREMENT) * RAND_MULTIPLIER_INVERSE)
  }

  /** The generator is a bijection on int: no two seeds collide. */
  lemma {:induction false} RandInvertible(seed: int)
    requires IsInt(seed)
    ensures RandPrevious(Rand(seed)) == seed
  {
    var r := Rand(seed);
    var j := (907633515 + seed * 196314165 - r) / 0x1_0000_0000;
    assert r - 907633515 == seed * 196314165 - j * 0x1_0000_0000;
    var y := (r - 907633515) * 592883229;
    assert y == (r - RAND_INCREMENT) * RAND_MULTIPLIER_INVERSE;
    assert y == seed * 116391376043638785 - j * 592883229 * 0x1_0000_0000;
    var k := seed * 27099479 - j * 592883229;
    assert y - seed == 0 + k * 0x1_0000_0000;
    ModAddMultiple(0, k, TWO32);
    WrapCongruent(y, seed);
  }

  lemma {:induction false} RandSurjective(r: int)
    requires IsInt(r)
    ensures Rand(RandPrevious(r)) == r
  {
    var y := (r - 907633515) * 592883229;
    assert y == (r - RAND_INCREMENT) * RAND_MULTIPLIER_INVERSE;
    var s := RandPrevious(r);
    var j := (y - s) / 0x1_0000_0000;
    assert s == y - j * 0x1_0000_0000;
    var x := 907633515 + s * 196314165;
    assert x == RAND_INCREMENT + s * RAND_MULTIPLIER;
    assert x == 907633515 + (r - 907633515) * 116391376043638785 - j * 196314165 * 0x1_0000_0000;
    var k := (r - 907633515) * 27099479 - j * 196314165;
    assert x - r == 0 + k * 0x1_0000_0000;
    ModAddMultiple(0, k, TWO32);
    WrapCongruent(x, r);
  }

  /** SKP_LSHIFT_SAT32: clamps a to the range that survives the shift, then shifts. */
  function LShiftSat32(a: int, shift: int): (r: int)
    requires IsInt(a) && IsInt(shift)
    ensures IsInt(r)
  {
    Shl(Limit(a, Sar(INT_MIN, shift), Sar(INT_MAX, shift)), shift)
  }

  /**
   * For a shift count in 0..31 the result is a * 2^shift when that fits in
   * an int, and otherwise the extreme multiple of 2^shift on that side.
   */
  lemma {:induction false} LShiftSat32Saturates(a: int, shift: nat)
    requires IsInt(a) && 0 <= shift <= 31
    ensures var p := Pow2(shift);
      && (IsInt(a * p) ==> LShiftSat32(a, shift) == a * p)
      && (a * p > INT_MAX ==> LShiftSat32(a, shift) == INT_MAX + 1 - p)
      && (a * p < INT_MIN ==> LShiftSat32(a, shift) == INT_MIN)
  {
    ShiftedLimits(shift);
    var c := Limit(a, Sar(INT_MIN, shift), Sar(INT_MAX, shift));
    ClampedProduct(a, c, Pow2(31 - shift), Pow2(shift));
    ShlNoOverflow(c, shift);
  }

  /** MIN_INT >> s and MAX_INT >> s are -2^(31-s) and 2^(31-s) - 1. */
  lemma {:induction false} ShiftedLimits(shift: nat)
    requires shift <= 31
    ensures Pow2(31 - shift) * Pow2(shift) == 0x8000_0000
    ensures Sar(INT_MIN, shift) + Pow2(31 - shift) == 0
    ensures Sar(INT_MAX, shift) == Pow2(31 - shift) - 1
  {
    Pow2Values();
    Pow2Add(31 - shift, shift);
    assert shift % 32 == shift;
    LimitQuotients(Pow2(31 - shift), Pow2(shift));
  }

  lemma {:induction false} LimitQuotients(h: int, p: int)
    requires h >= 1 && p >= 1 && h * p == 0x8000_0000
    ensures INT_MIN / p == -h && INT_MAX / p == h - 1
  {
    DivModUnique(INT_MIN, p, -h, 0);
    DivModUnique(INT_MAX, p, h - 1, p - 1);
  }

  /** Clamping a to [-h, h-1] before scaling by p, where h * p = 2^31. */
  lemma {:induction false} ClampedProduct(a: int, c: int, h: int, p: int)
    requires h >= 1 && p >= 1 && h * p == 0x8000_0000
    requires c == Limit(a, -h, h - 1)
    ensures IsInt(c * p)
    ensures IsInt(a * p) ==> c == a
    ensures a * p > INT_MAX ==> c * p == INT_MAX + 1 - p
    ensures a * p < INT_MIN ==> c * p == INT_MIN
  {
    MulMonotone(-h, c, p);
    MulMonotone(c, h - 1, p);
    if a > h - 1 { MulMonotone(h, a, p); }
    if a < -h { MulMonotone(a, -h - 1, p); }
  }
}
