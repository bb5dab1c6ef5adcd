/**
 * Java's `int` bit operations on two's-complement values: shifts with the
 * shift count masked to five bits, and `|`/`&` computed on the 32-bit
 * pattern. The bitwise operators are defined bit by bit on naturals so
 * that their arithmetic meaning can be proved by induction.
 */
module JavaBits {
  import opened JavaBase

  /** The 32-bit pattern (0 .. 2^32-1) of a Java int. */
  function UInt32(a: int): (r: nat)
    ensures r < TWO32
    ensures (a - r) % TWO32 == 0
  {
    a % TWO32
  }

  /** `a << n` on Java ints. */
  function Shl(a: int, n: int): (r: int)
    ensures IsInt(r)
  {
    WrapInt(a * Pow2(n % 32))
  }

  /** `a >> n` on Java ints: arithmetic (flooring) shift. */
  function Sar(a: int, n: int): int
  {
    a / Pow2(n % 32)
  }

  /** `a >>> n` on Java ints: logical shift of the 32-bit pattern. */
  function UShr(a: int, n: int): (r: int)
    ensures IsInt(r)
  {
    WrapInt(UInt32(a) / Pow2(n % 32))
  }

  /** Bitwise or of two naturals, lowest bit first. */
  function BitOr(a: nat, b: nat): nat
    decreases a + b
  {
    if a == 0 && b == 0 then 0
    else (if a % 2 == 1 || b % 2 == 1 then 1 else 0) + 2 * BitOr(a / 2, b / 2)
  }

  /** Bitwise and of two naturals, lowest bit first. */
  function BitAnd(a: nat, b: nat): nat
    decreases a + b
  {
    if a == 0 || b == 0 then 0
    else (if a % 2 == 1 && b % 2 == 1 then 1 else 0) + 2 * BitAnd(a / 2, b / 2)
  }

  /** `a | b` on Java ints. */
  function IntOr(a: int, b: int): (r: int)
    ensures IsInt(r)
  {
    WrapInt(BitOr(UInt32(a), UInt32(b)))
  }

  /** `a & b` on Java ints. */
  function IntAnd(a: int, b: int): (r: int)
    ensures IsInt(r)
  {
    WrapInt(BitAnd(UInt32(a), UInt32(b)))
  }

  // ------------------------------------------------------------ arithmetic

  lemma {:induction false} Pow2Add(a: nat, b: nat)
    ensures Pow2(a + b) == Pow2(a) * Pow2(b)
  {
    if a > 0 { Pow2Add(a - 1, b); }
  }

  lemma {:induction false} Pow2Values()
    ensures Pow2(7) == 128 && Pow2(8) == 256 && Pow2(15) == 0x8000
    ensures Pow2(16) == 0x1_0000 && Pow2(24) == 0x100_0000
    ensures Pow2(31) == 0x8000_0000 && Pow2(32) == TWO32
  {
    assert Pow2(2) == 4;
    Pow2Add(2, 2); Pow2Add(4, 4); Pow2Add(8, 8); Pow2Add(16, 16);
    Pow2Add(4, 3); Pow2Add(8, 7); Pow2Add(16, 8); Pow2Add(16, 15);
  }

  lemma {:induction false} Pow2Monotone(a: nat, b: nat)
    requires a <= b
    ensures Pow2(a) <= Pow2(b)
  {
    if a < b { Pow2Monotone(a, b - 1); }
  }

  lemma {:induction false} MulAtLeast(d: int, m: int)
    requires d >= 1 && m > 0
    ensures d * m >= m
  {
  }

  /** Quotient and remainder are determined by the Euclidean equation. */
  lemma {:induction false} DivModUnique(x: int, m: int, q: int, s: int)
    requires m > 0 && 0 <= s < m && x == q * m + s
    ensures x / m == q && x % m == s
  {
    var q', s' := x / m, x % m;
    assert (q' - q) * m == s - s';
    assert (q - q') * m == s' - s;
    if q' > q { MulAtLeast(q' - q, m); }
    if q' < q { MulAtLeast(q - q', m); }
  }

  lemma {:induction false} MulMonotone(a: int, b: int, c: int)
    requires a <= b && c >= 0
    ensures a * c <= b * c
  {
  }

  lemma {:induction false} DivDiv(x: int, m: int, n: int)
    requires m > 0 && n > 0
    ensures (x / m) / n == x / (m * n)
  {
    var q, r := x / m, x % m;
    var q2, r2 := q / n, q % n;
    assert x == q * m + r;
    assert q == q2 * n + r2;
    assert q * m == q2 * (m * n) + r2 * m;
    assert x == q2 * (m * n) + (r2 * m + r);
    MulMonotone(r2, n - 1, m);
    assert (n - 1) * m == m * n - m;
    assert 0 <= r2 * m;
    DivModUnique(x, m * n, q2, r2 * m + r);
  }

  /** The remainder modulo 2p splits into the low bit and the rest modulo p. */
  lemma {:induction false} ModTwice(x: int, p: int)
    requires p > 0
    ensures x % (2 * p) == x % 2 + 2 * ((x / 2) % p)
  {
    var h := x / 2;
    assert x == ((h / p) * (2 * p)) + (x % 2 + 2 * (h % p));
    DivModUnique(x, 2 * p, h / p, x % 2 + 2 * (h % p));
  }

  /** A multiple of the modulus does not change a remainder. */
  lemma {:induction false} ModAddMultiple(x: int, k: int, m: int)
    requires m > 0
    ensures (x + k * m) % m == x % m
  {
    DivModUnique(x + k * m, m, x / m + k, x % m);
  }

  lemma {:induction false} ModCongruent(x: int, y: int, m: int)
    requires m > 0 && (x - y) % m == 0
    ensures x % m == y % m
  {
    var k := (x - y) / m;
    assert x == y + k * m;
    ModAddMultiple(y, k, m);
  }

  /** The Java int a 32-bit pattern stands for has that pattern back. */
  lemma {:induction false} UInt32OfWrap(x: int)
    ensures UInt32(WrapInt(x)) == x % TWO32
  {
    ModCongruent(WrapInt(x), x, TWO32);
  }

  lemma {:induction false} WrapOfUInt32(a: int)
    requires IsInt(a)
    ensures WrapInt(UInt32(a)) == a
  {
  }

  /** Wrapping depends only on the value modulo 2^32. */
  lemma {:induction false} WrapCongruent(x: int, y: int)
    requires (x - y) % TWO32 == 0
    ensures WrapInt(x) == WrapInt(y)
  {
    ModCongruent(x, y, TWO32);
  }

  /**
   * `(long) a & 0xFFFFFFFFL`: masking the 64-bit pattern of a widened value
   * with the low 32 bits gives its unsigned 32-bit value.
   */
  lemma {:induction false} LongMaskLow32(a: int)
    ensures BitAnd(a % TWO64, 0xFFFF_FFFF) == UInt32(a)
  {
    var pattern := a % TWO64;
    Pow2Values();
    BitAndLowMask(pattern, 32);
    var k := a / TWO64;
    assert a == pattern + k * TWO64;
    assert k * TWO64 == (k * TWO32) * TWO32;
    ModAddMultiple(pattern, k * TWO32, TWO32);
  }

  // ------------------------------------------------------------- bitwise

  lemma {:induction false} BitOrZero(a: nat)
    ensures BitOr(a, 0) == a && BitOr(0, a) == a
    decreases a
  {
    if a > 0 { BitOrZero(a / 2); }
  }

  lemma {:induction false} BitOrSelf(a: nat)
    ensures BitOr(a, a) == a
    decreases a
  {
    if a > 0 { BitOrSelf(a / 2); }
  }

  lemma {:induction false} BitAndSelf(a: nat)
    ensures BitAnd(a, a) == a
    decreases a
  {
    if a > 0 { BitAndSelf(a / 2); }
  }

  /**
   * Or-ing a value below 2^m into a multiple of 2^m is addition: the two
   * have no set bit in common.
   */
  lemma {:induction false} BitOrDisjoint(a: nat, b: nat, m: nat)
    requires b < Pow2(m)
    ensures BitOr(a * Pow2(m), b) == a * Pow2(m) + b
    decreases m
  {
    if m == 0 {
      BitOrZero(a);
    } else {
      var big := a * Pow2(m);
      assert big == 2 * (a * Pow2(m - 1));
      if big != 0 || b != 0 {
        BitOrDisjoint(a, b / 2, m - 1);
        assert big / 2 == a * Pow2(m - 1) && big % 2 == 0;
      }
    }
  }

  /** And-ing with 2^k - 1 keeps the low k bits. */
  lemma {:induction false} BitAndLowMask(x: nat, k: nat)
    ensures BitAnd(x, Pow2(k) - 1) == x % Pow2(k)
    decreases k, 1
  {
    if k > 0 && x != 0 {
      BitAndLowMaskStep(x, k);
    } else if k == 0 {
      assert BitAnd(x, 0) == 0;
    } else {
      assert BitAnd(0, Pow2(k) - 1) == 0;
    }
  }

  /** The step of BitAndLowMask: the low bit, then the rest shifted. */
  lemma {:induction false} BitAndLowMaskStep(x: nat, k: nat)
    requires k > 0 && x != 0
    ensures BitAnd(x, Pow2(k) - 1) == x % Pow2(k)
    decreases k, 0
  {
    BitAndLowMask(x / 2, k - 1);
    var half := Pow2(k - 1);
    assert Pow2(k) == 2 * half;
    BitAndOddMask(x, half);
    ModTwice(x, half);
  }

  /** And-ing with an odd mask keeps the low bit and and-s the rest with half the mask. */
  lemma {:induction false} BitAndOddMask(x: nat, half: nat)
    requires x != 0 && half >= 1
    ensures BitAnd(x, 2 * half - 1) == x % 2 + 2 * BitAnd(x / 2, half - 1)
  {
    var mask := 2 * half - 1;
    DivModUnique(mask, 2, half - 1, 1);
  }

  /** And-ing with 2^k keeps bit k. */
  lemma {:induction false} BitAndSingleBit(x: nat, k: nat)
    ensures BitAnd(x, Pow2(k)) == ((x / Pow2(k)) % 2) * Pow2(k)
    decreases k
  {
    var bit := Pow2(k);
    if x == 0 {
      assert BitAnd(x, bit) == 0 && x / bit == 0;
    } else if k == 0 {
      assert bit == 1 && x / bit == x;
      assert BitAnd(x / 2, 0) == 0;
      assert BitAnd(x, bit) == x % 2;
    } else {
      var half := Pow2(k - 1);
      assert bit == 2 * half;
      assert bit / 2 == half && bit % 2 == 0;
      assert BitAnd(x, bit) == 2 * BitAnd(x / 2, half);
      BitAndSingleBit(x / 2, k - 1);
      DivDiv(x, 2, half);
      var t := (x / bit) % 2;
      assert (x / 2) / half == x / bit;
      assert BitAnd(x / 2, half) == t * half;
      assert t * bit == 2 * (t * half);
    }
  }

  /** And-ing with a mask shifted left by k is and-ing the shifted-down value with the mask. */
  lemma {:induction false} BitAndShiftedMask(x: nat, m: nat, k: nat, p: nat, mask: nat, q: nat)
    requires p == Pow2(k) && mask == m * p && q == x / p
    ensures BitAnd(x, mask) == BitAnd(q, m) * p
    decreases k
  {
    if k == 0 {
      assert q == x && mask == m;
    } else if x != 0 && m != 0 {
      var h := Pow2(k - 1);
      assert p == 2 * h;
      DoubleMul(m, h, mask);
      var y := x / 2;
      assert BitAnd(x, mask) == 2 * BitAnd(y, m * h);
      DivDiv(x, 2, h);
      BitAndShiftedMask(y, m, k - 1, h, m * h, q);
      var t := BitAnd(q, m);
      DoubleMul(t, h, t * p);
    } else if x == 0 {
      ZeroDiv(p);
    }
  }

  lemma {:induction false} ZeroDiv(p: int)
    requires p >= 1
    ensures 0 / p == 0
  {
  }

  lemma {:induction false} DoubleMul(m: nat, h: nat, v: int)
    requires h >= 1 && v == m * (2 * h)
    ensures v == 2 * (m * h) && v % 2 == 0 && v / 2 == m * h
  {
  }

  /**
   * The two nibbles of a Java byte as `(b & 0xF0) >>> 4` and `b & 0x0F`: the
   * sign extension of a negative byte is masked off.
   */
  lemma {:induction false} ByteNibbles(b: Byte)
    ensures UShr(IntAnd(SignedByte(b), 0xF0), 4) == b / 16
    ensures IntAnd(SignedByte(b), 0x0F) == b % 16
  {
    var u := UInt32(SignedByte(b));
    ExtendedByteDigits(b, u);
    assert Pow2(4) == 16 by { assert Pow2(2) == 4; }
    BitAndLowMask(u, 4);
    BitAndShiftedMask(u, 15, 4, 16, 240, u / 16);
    BitAndLowMask(u / 16, 4);
    HighNibbleShift(b / 16);
  }

  /** The 32-bit pattern of a sign-extended byte has the byte's two hex digits at the bottom. */
  lemma {:induction false} ExtendedByteDigits(b: Byte, u: int)
    requires u == UInt32(SignedByte(b))
    ensures u >= 0 && u % 16 == b % 16 && (u / 16) % 16 == b / 16
  {
    var q := if b >= 128 then TWO32 / 256 - 1 else 0;
    assert u == 256 * q + b;
    DivModUnique(u, 16, 16 * q + b / 16, b % 16);
    DivModUnique(u / 16, 16, q, b / 16);
  }

  lemma {:induction false} HighNibbleShift(d: int)
    requires 0 <= d < 16
    ensures WrapInt(d * 16) == d * 16 && UShr(d * 16, 4) == d
  {
    UShrNonNegative(d * 16, 4);
    assert Pow2(4) == 16 by { assert Pow2(2) == 4; }
  }

  /** `>>>` of a non-negative int is division by a power of two. */
  lemma {:induction false} UShrNonNegative(a: int, n: nat)
    requires 0 <= a <= INT_MAX && n < 32
    ensures UShr(a, n) == a / Pow2(n)
  {
    var p := Pow2(n);
    assert n % 32 == n;
    assert UInt32(a) == a;
    DivBounds(a, p);
    assert IsInt(a / p);
  }

  lemma {:induction false} DivBounds(a: int, p: int)
    requires a >= 0 && p >= 1
    ensures 0 <= a / p <= a
  {
    DivModUnique(a, p, a / p, a % p);
    if a / p > a { MulMonotone(a + 1, a / p, p); }
  }

  /** Or of two values below 2^n stays below 2^n. */
  lemma {:induction false} BitOrBound(a: nat, b: nat, n: nat)
    requires a < Pow2(n) && b < Pow2(n)
    ensures BitOr(a, b) < Pow2(n)
    decreases n
  {
    if n > 0 && (a != 0 || b != 0) { BitOrBound(a / 2, b / 2, n - 1); }
  }

  // -------------------------------------------------------------- shifts

  /** `a << n` for a shift count in 0..31 keeps the pattern modulo 2^32. */
  lemma {:induction false} ShlPattern(a: int, k: nat)
    requires k < 32
    ensures UInt32(Shl(a, k)) == (UInt32(a) * Pow2(k)) % TWO32
  {
    var p := Pow2(k);
    assert k % 32 == k;
    var shifted := a * p;
    assert Shl(a, k) == WrapInt(shifted);
    UInt32OfWrap(shifted);
    var q, u := a / TWO32, UInt32(a);
    assert a == q * TWO32 + u;
    assert shifted == (q * TWO32 + u) * p;
    assert shifted == u * p + (q * p) * TWO32;
    ModAddMultiple(u * p, q * p, TWO32);
    assert shifted % TWO32 == (u * p) % TWO32;
  }

  /** An in-range left shift is multiplication. */
  lemma {:induction false} ShlNoOverflow(a: int, k: nat)
    requires k < 32 && IsInt(a * Pow2(k))
    ensures Shl(a, k) == a * Pow2(k)
  {
  }
}
