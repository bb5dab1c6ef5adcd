/**
 * SKP_Silk_sum_sqr_shift: the energy of a vector of 16-bit samples,
 * right-shifted by the smallest even amount that makes it fit in 30 bits.
 */
module SumSqrShift {
  import opened JavaBase
  import opened JavaBits

  predicate IsShort(v: int) { -0x8000 <= v <= 0x7fff }

  /** The sum of the squares of the samples. */
  function SumSquares(s: seq<int>): nat
  {
    if s == [] then 0 else SumSquares(s[..|s| - 1]) + s[|s| - 1] * s[|s| - 1]
  }

  /** Each 16-bit square is at most 2^30, so the sum stays far inside a Java long. */
  lemma {:induction false} SumSquaresBound(s: seq<int>)
    requires forall i :: 0 <= i < |s| ==> IsShort(s[i])
    ensures SumSquares(s) <= |s| * 0x4000_0000
  {
    if s != [] {
      var init, v := s[..|s| - 1], s[|s| - 1];
      SumSquaresBound(init);
      SquareBound(v);
      assert SumSquares(s) == SumSquares(init) + v * v;
      assert |s| * 0x4000_0000 == |init| * 0x4000_0000 + 0x4000_0000;
    }
  }

  /** The square of a 16-bit value is at most 2^30. */
  lemma {:induction false} SquareBound(v: int)
    requires IsShort(v)
    ensures 0 <= v * v <= 0x4000_0000
  {
    var a := if v >= 0 then v else -v;
    assert v * v == a * a;
    MulMonotone(a, 0x8000, a);
    MulMonotone(a, 0x8000, 0x8000);
  }

  /** `Long.SIZE - Long.numberOfLeadingZeros(n)`: the number of significant bits of n. */
  function BitLength(n: nat): (b: nat)
    ensures n < Pow2(b)
    ensures n > 0 ==> b >= 1 && Pow2(b - 1) <= n
  {
    if n == 0 then 0 else 1 + BitLength(n / 2)
  }

  /**
   * The shift the routine applies to a sum of squares: the smallest even
   * shift after which the sum fits in 30 bits.
   */
  function ShiftFor(sum: nat): (s: nat)
    ensures s % 2 == 0
    ensures sum / Pow2(s) < Pow2(30)
    ensures s >= 2 ==> sum / Pow2(s - 2) >= Pow2(30)
    ensures sum < Pow2(30) ==> s == 0
  {
    var bits := BitLength(sum);
    if bits > 30 then
      var s := ((bits - 29) / 2) * 2;
      EvenShift(bits);
      LongSumShift(sum, bits, s);
      s
    else
      Pow2Monotone(bits, 30);
      assert sum / Pow2(0) == sum;
      0
  }

  lemma {:induction false} EvenShift(bits: nat)
    requires bits > 30
    ensures var s := ((bits - 29) / 2) * 2; s % 2 == 0 && s >= 2 && (bits - s == 29 || bits - s == 30)
  {
    var h := (bits - 29) / 2;
    assert h * 2 % 2 == 0;
  }

  lemma {:induction false} LongSumShift(sum: nat, bits: nat, s: nat)
    requires bits > 30 && s >= 2 && Pow2(bits - 1) <= sum < Pow2(bits)
    requires bits - s == 29 || bits - s == 30
    ensures sum / Pow2(s) < Pow2(30)
    ensures sum / Pow2(s - 2) >= Pow2(30)
    ensures sum >= Pow2(30)
  {
    ShiftedBelow(sum, bits - s, s, bits);
    ShiftedAbove(sum, bits - s + 1, s - 2, bits - 1);
    Pow2Monotone(30, bits - 1);
  }

  lemma {:induction false} ShiftedBelow(sum: nat, t: nat, s: nat, bits: nat)
    requires t + s == bits && sum < Pow2(bits) && t <= 30
    ensures sum / Pow2(s) < Pow2(30)
  {
    DivPow2Upper(sum, t, s);
    Pow2Monotone(t, 30);
  }

  lemma {:induction false} ShiftedAbove(sum: nat, t: nat, s: nat, bits: nat)
    requires t + s == bits && sum >= Pow2(bits) && t >= 30
    ensures sum / Pow2(s) >= Pow2(30)
  {
    DivPow2Lower(sum, t, s);
    Pow2Monotone(30, t);
  }

  lemma {:induction false} DivPow2Upper(x: nat, a: nat, b: nat)
    requires x < Pow2(a + b)
    ensures x / Pow2(b) < Pow2(a)
  {
    Pow2Add(a, b);
    DivBelow(x, Pow2(b), Pow2(a));
  }

  lemma {:induction false} DivPow2Lower(x: nat, a: nat, b: nat)
    requires x >= Pow2(a + b)
    ensures x / Pow2(b) >= Pow2(a)
  {
    Pow2Add(a, b);
    DivAbove(x, Pow2(b), Pow2(a));
  }

  /** Below q multiples of p, the quotient by p is below q. */
  lemma {:induction false} DivBelow(x: nat, p: int, q: int)
    requires p > 0 && x < q * p
    ensures x / p < q
  {
    var d, r := x / p, x % p;
    assert x == d * p + r && 0 <= r;
    if d >= q {
      MulMonotone(q, d, p);
    }
  }

  /** From q multiples of p on, the quotient by p is at least q. */
  lemma {:induction false} DivAbove(x: nat, p: int, q: int)
    requires p > 0 && x >= q * p
    ensures x / p >= q
  {
    var d, r := x / p, x % p;
    assert x == d * p + r && r < p;
    assert (d + 1) * p == d * p + p;
    if d < q {
      MulMonotone(d + 1, q, p);
    }
  }

  /** The accumulation loop of SKP_Silk_sum_sqr_shift, into a Java long. */
  method SumOfSquares(x: array<int>, offset: int, len: int) returns (sum: int)
    requires len <= 0 || (0 <= offset && offset + len <= x.Length)
    requires IsInt(len) && forall i :: 0 <= i < x.Length ==> IsShort(x[i])
    ensures len <= 0 ==> sum == 0
    ensures len > 0 ==> sum == SumSquares(x[offset..offset + len])
    ensures IsLong(sum)
  {
    sum := 0;
    var ii := 0;
    while ii < len
      invariant 0 <= ii <= Max(len, 0)
      invariant ii > 0 ==> sum == SumSquares(x[offset..offset + ii])
      invariant ii == 0 ==> sum == 0
      invariant 0 <= sum <= ii * 0x4000_0000
    {
      var next := x[offset + ii];
      assert x[offset..offset + ii + 1][..ii] == x[offset..offset + ii];
      SumSquaresBound(x[offset..offset + ii + 1]);
      sum := sum + next * next;
      ii := ii + 1;
    }
  }

  /**
   * SKP_Silk_sum_sqr_shift: writes the shifted energy of x[offset..offset+len)
   * to energy[0] and the shift to shift[0].
   */
  method SumSqrShift(energy: array<int>, shift: array<int>, x: array<int>, offset: int, len: int)
    requires energy.Length >= 1 && shift.Length >= 1
    requires len <= 0 || (0 <= offset && offset + len <= x.Length)
    requires IsInt(len) && forall i :: 0 <= i < x.Length ==> IsShort(x[i])
    requires x != energy && x != shift  // a short[] is never an int[]
    modifies energy, shift
    ensures var sum := if len <= 0 then 0 else SumSquares(x[offset..offset + len]);
      && shift[0] == ShiftFor(sum)
      && (energy != shift ==> energy[0] == sum / Pow2(shift[0]))
    ensures forall i :: 1 <= i < energy.Length ==> energy[i] == old(energy[i])
    ensures forall i :: 1 <= i < shift.Length ==> shift[i] == old(shift[i])
  {
    var bigInt := SumOfSquares(x, offset, len);
    assert len <= 0 ==> bigInt == 0;
    var bits := BitLength(bigInt);
    var shift2 := 0;
    if bits > 30 {
      shift2 := ((bits - 29) / 2) * 2;
    }
    energy[0] := bigInt / Pow2(shift2);
    shift[0] := shift2;
  }
}
