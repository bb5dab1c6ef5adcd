/**
 * SKP_Silk_NLSF_stabilize: pushes a vector of normalised line spectral
 * frequencies (Q15, in (0, 2^15)) apart until every neighbour distance, and
 * the distance to both borders, is at least the given minimum; after
 * MAX_LOOPS attempts it falls back to sorting and clamping.
 */
module NlsfStabilize {
  import opened JavaBase
  import opened SigProcFix

  const MAX_LOOPS: int := 20
  /** `1 << 15`, the upper border in Q15. */
  const Q15_ONE: int := 0x8000
  /** SKP_Silk_MAX_ORDER_LPC: no caller passes more coefficients. */
  const MAX_ORDER: int := 16
  /** A magnitude the coefficients never leave, far inside the int range. */
  const BOUND: int := 0x10_0000

  /**
   * The slack of constraint i: distance of the first coefficient from 0,
   * of coefficient i from coefficient i-1, or of the last from 2^15, minus
   * the minimum demanded for it.
   */
  function Gap(a: seq<int>, d: seq<int>, L: nat, i: nat): int
    requires 1 <= L <= |a| && L < |d| && i <= L
  {
    if i == 0 then a[0] - d[0]
    else if i < L then a[i] - (a[i - 1] + d[i])
    else Q15_ONE - (a[L - 1] + d[L])
  }

  /** Every constraint holds. */
  predicate Stable(a: seq<int>, d: seq<int>, L: nat)
    requires 1 <= L <= |a| && L < |d|
  {
    forall i :: 0 <= i <= L ==> Gap(a, d, L, i) >= 0
  }

  /** d[lo] + ... + d[hi-1]. */
  function DeltaSum(d: seq<int>, lo: nat, hi: nat): int
    requires lo <= hi <= |d|
    decreases hi - lo
  {
    if lo == hi then 0 else d[lo] + DeltaSum(d, lo + 1, hi)
  }

  /** The minimum distances fit between the borders, so a stable vector exists. */
  predicate Feasible(d: seq<int>, L: nat)
    requires L < |d|
  {
    DeltaSum(d, 0, L + 1) <= Q15_ONE
  }

  /** The shape the fall-back guarantees: every upper-side constraint holds. */
  predicate UpperShape(a: seq<int>, d: seq<int>, L: nat)
    requires 1 <= L <= |a| && L < |d|
  {
    && a[L - 1] <= Q15_ONE - d[L]
    && forall i :: 0 <= i < L - 1 ==> a[i] <= a[i + 1] - d[i + 1]
  }

  /** The inputs the routine is called with: Q15 spacings, coefficients of moderate size. */
  predicate Deltas(d: seq<int>, L: nat)
  {
    L < |d| && forall i :: 0 <= i <= L ==> 0 <= d[i] <= Q15_ONE
  }

  predicate Bounded(a: seq<int>, L: nat)
  {
    L <= |a| && forall i :: 0 <= i < L ==> -BOUND <= a[i] <= BOUND
  }

  lemma {:induction false} DeltaSumSnoc(d: seq<int>, lo: nat, hi: nat)
    requires lo <= hi < |d|
    ensures DeltaSum(d, lo, hi + 1) == DeltaSum(d, lo, hi) + d[hi]
    decreases hi - lo
  {
    if lo < hi { DeltaSumSnoc(d, lo + 1, hi); }
  }

  lemma {:induction false} DeltaSumBound(d: seq<int>, L: nat, lo: nat, hi: nat)
    requires Deltas(d, L) && lo <= hi <= L + 1
    ensures 0 <= DeltaSum(d, lo, hi) <= (hi - lo) * Q15_ONE
    decreases hi - lo
  {
    if lo < hi { DeltaSumBound(d, L, lo + 1, hi); }
  }

  /** A stable vector satisfies the upper-side constraints too. */
  lemma {:induction false} StableUpper(a: seq<int>, d: seq<int>, L: nat)
    requires 1 <= L <= |a| && L < |d| && Stable(a, d, L)
    ensures UpperShape(a, d, L)
  {
    assert Gap(a, d, L, L) >= 0;
    forall i | 0 <= i < L - 1 ensures a[i] <= a[i + 1] - d[i + 1] {
      assert Gap(a, d, L, i + 1) >= 0;
    }
  }

  /** The first constraint with the smallest slack, and that slack. */
  method SmallestGap(a: array<int>, d: array<int>, L: int) returns (minDiff: int, index: int)
    requires 1 <= L <= a.Length && L < d.Length
    ensures 0 <= index <= L && minDiff == Gap(a[..], d[..], L, index)
    ensures forall j :: 0 <= j <= L ==> Gap(a[..], d[..], L, j) >= minDiff
    ensures forall j :: 0 <= j < index ==> Gap(a[..], d[..], L, j) > minDiff
    ensures minDiff >= 0 <==> Stable(a[..], d[..], L)
  {
    minDiff := a[0] - d[0];
    index := 0;
    var i := 1;
    while i <= L - 1
      invariant 1 <= i <= L && 0 <= index < i
      invariant minDiff == Gap(a[..], d[..], L, index)
      invariant forall j :: 0 <= j < i ==> Gap(a[..], d[..], L, j) >= minDiff
      invariant forall j :: 0 <= j < index ==> Gap(a[..], d[..], L, j) > minDiff
    {
      var diff := a[i] - (a[i - 1] + d[i]);
      if diff < minDiff {
        minDiff := diff;
        index := i;
      }
      i := i + 1;
    }
    var diff := Q15_ONE - (a[L - 1] + d[L]);
    if diff < minDiff {
      minDiff := diff;
      index := L;
    }
  }

  /** The lowest centre frequency the pair (I-1, I) may take. */
  function MinCenter(d: seq<int>, I: nat): int
    requires I < |d|
  {
    DeltaSum(d, 0, I) + d[I] / 2
  }

  /** The highest centre frequency the pair (I-1, I) may take. */
  function MaxCenter(d: seq<int>, L: nat, I: nat): int
    requires I <= L < |d|
  {
    Q15_ONE - DeltaSum(d, I + 1, L + 1) - (d[I] - d[I] / 2)
  }

  /** The loop `for (k = 0; k < I; k++) min_center += NDeltaMin[k]` and the half spacing. */
  method LowerCenterLimit(d: array<int>, I: int) returns (m: int)
    requires 0 <= I < d.Length
    ensures m == MinCenter(d[..], I)
  {
    m := 0;
    var k := 0;
    while k < I
      invariant 0 <= k <= I && m == DeltaSum(d[..], 0, k)
    {
      DeltaSumSnoc(d[..], 0, k);
      m := m + d[k];
      k := k + 1;
    }
    m := m + d[I] / 2;
  }

  /** The loop `for (k = L; k > I; k--) max_center -= NDeltaMin[k]` and the other half. */
  method UpperCenterLimit(d: array<int>, L: int, I: int) returns (m: int)
    requires 0 <= I <= L < d.Length
    ensures m == MaxCenter(d[..], L, I)
  {
    m := Q15_ONE;
    var k := L;
    while k > I
      invariant I <= k <= L && m == Q15_ONE - DeltaSum(d[..], k + 1, L + 1)
    {
      m := m - d[k];
      k := k - 1;
    }
    m := m - (d[I] - d[I] / 2);
  }

  /** The centre limits stay well inside the coefficients' bound. */
  lemma {:induction false} CenterLimitsBounded(d: seq<int>, L: nat, I: nat)
    requires Deltas(d, L) && 1 <= I < L <= MAX_ORDER
    ensures -BOUND / 2 <= MinCenter(d, I) <= BOUND / 2
    ensures -BOUND / 2 <= MaxCenter(d, L, I) <= BOUND / 2
  {
    DeltaSumBound(d, L, 0, I);
    DeltaSumBound(d, L, I + 1, L + 1);
  }

  /**
   * Moves coefficients I-1 and I apart to exactly the minimum distance,
   * keeping their rounded centre within the centre limits.
   */
  method MoveApart(a: array<int>, d: array<int>, L: int, I: int)
    requires a != d && 1 <= I < L <= a.Length && L <= MAX_ORDER
    requires Deltas(d[..], L) && Bounded(a[..], L)
    modifies a
    ensures Bounded(a[..], L)
    ensures forall k :: 0 <= k < a.Length && k != I - 1 && k != I ==> a[k] == old(a[k])
    ensures a[I - 1] == Limit(RShiftRound(old(a[I - 1]) + old(a[I]), 1), MinCenter(d[..], I), MaxCenter(d[..], L, I)) - d[I] / 2
    ensures a[I] == a[I - 1] + d[I]
  {
    var minCenter := LowerCenterLimit(d, I);
    var maxCenter := UpperCenterLimit(d, L, I);
    CenterLimitsBounded(d[..], L, I);
    var center := Limit(RShiftRound(a[I - 1] + a[I], 1), minCenter, maxCenter);
    a[I - 1] := center - d[I] / 2;
    a[I] := a[I - 1] + d[I];
  }

  predicate SortedPrefix(s: seq<int>, n: nat)
    requires n <= |s|
  {
    forall p, q :: 0 <= p < q < n ==> s[p] <= s[q]
  }

  /** SKP_Silk_insertion_sort_increasing_all_values: sorts a[0..L) in place. */
  method InsertionSortIncreasing(a: array<int>, L: int)
    requires 0 < L <= a.Length
    modifies a
    ensures SortedPrefix(a[..], L)
    ensures multiset(a[..]) == multiset(old(a[..]))
    ensures forall k :: L <= k < a.Length ==> a[k] == old(a[k])
  {
    var i := 1;
    while i < L
      invariant 1 <= i <= L
      invariant SortedPrefix(a[..], i)
      invariant multiset(a[..]) == multiset(old(a[..]))
      invariant forall k :: L <= k < a.Length ==> a[k] == old(a[k])
    {
      InsertAt(a, i);
      i := i + 1;
    }
  }

  /** One pass of the outer loop: a[i] moves down into the sorted a[0..i). */
  method InsertAt(a: array<int>, i: int)
    requires 0 < i < a.Length && SortedPrefix(a[..], i)
    modifies a
    ensures SortedPrefix(a[..], i + 1)
    ensures multiset(a[..]) == multiset(old(a[..]))
    ensures forall k :: i < k < a.Length ==> a[k] == old(a[k])
  {
    var value := a[i];
    var j := ShiftLarger(a, i, value);
    ghost var shifted := a[..];
    a[j + 1] := value;
    assert a[..] == shifted[j + 1 := value];
    InsertedSorted(old(a[..]), a[..], i, j, value);
    InsertedShape(old(a[..]), a[..], i, j);
    InsertedPermutes(old(a[..]), i, j);
  }

  /** The sequence with element i moved down to position j + 1. */
  function Inserted(was: seq<int>, i: int, j: int): seq<int>
    requires -1 <= j < i < |was|
  {
    was[..j + 1] + [was[i]] + was[j + 1..i] + was[i + 1..]
  }

  /** The state InsertAt leaves: everything above the hole moved up one place. */
  lemma {:induction false} InsertedShape(was: seq<int>, now: seq<int>, i: int, j: int)
    requires 0 < i < |was| == |now| && -1 <= j < i
    requires now[j + 1] == was[i]
    requires forall k :: 0 <= k <= j ==> now[k] == was[k]
    requires forall k :: j + 1 < k <= i ==> now[k] == was[k - 1]
    requires forall k :: i < k < |was| ==> now[k] == was[k]
    ensures now == Inserted(was, i, j)
  {
    var r := Inserted(was, i, j);
    forall t | 0 <= t < |now| ensures now[t] == r[t] {
      if t <= j {
        assert r[t] == was[t];
      } else if t == j + 1 {
        assert r[t] == was[i];
      } else if t <= i {
        assert r[t] == was[t - 1];
      } else {
        assert r[t] == was[t];
      }
    }
  }

  /** Moving element i down to position j + 1 only reorders the sequence. */
  lemma {:induction false} InsertedPermutes(was: seq<int>, i: int, j: int)
    requires -1 <= j < i < |was|
    ensures multiset(Inserted(was, i, j)) == multiset(was)
  {
    var head, mid, tail := was[..j + 1], was[j + 1..i], was[i + 1..];
    assert was == head + mid + [was[i]] + tail;
    assert multiset(was) == multiset(head) + multiset(mid) + multiset{was[i]} + multiset(tail);
  }

  /**
   * The inner loop: moves the elements of a[0..i) greater than value one
   * place up; j + 1 is the hole left for value.
   */
  method ShiftLarger(a: array<int>, i: int, value: int) returns (j: int)
    requires 0 < i < a.Length && a[i] == value
    modifies a
    ensures -1 <= j <= i - 1 && (j >= 0 ==> value >= a[j])
    ensures forall k :: i < k < a.Length ==> a[k] == old(a[k])
    ensures forall k :: 0 <= k <= j ==> a[k] == old(a[k])
    ensures forall k :: j + 1 < k <= i ==> a[k] == old(a[k - 1]) && a[k] > value
  {
    j := i - 1;
    while j >= 0 && value < a[j]
      invariant -1 <= j <= i - 1
      invariant forall k :: i < k < a.Length ==> a[k] == old(a[k])
      invariant forall k :: 0 <= k <= j ==> a[k] == old(a[k])
      invariant forall k :: j + 1 < k <= i ==> a[k] == old(a[k - 1]) && a[k] > value
    {
      a[j + 1] := a[j];
      j := j - 1;
    }
  }

  lemma {:induction false} InsertedSorted(was: seq<int>, now: seq<int>, i: int, j: int, value: int)
    requires 0 < i < |was| == |now| && -1 <= j < i && SortedPrefix(was, i)
    requires now[j + 1] == value && (j >= 0 ==> value >= was[j])
    requires forall k :: 0 <= k <= j ==> now[k] == was[k]
    requires forall k :: j + 1 < k <= i ==> now[k] == was[k - 1] && now[k] > value
    ensures SortedPrefix(now, i + 1)
  {
    forall p, q | 0 <= p < q < i + 1 ensures now[p] <= now[q] {
      if q <= j {
        assert now[p] == was[p] && now[q] == was[q];
      } else if q == j + 1 {
        assert now[p] == was[p] && was[p] <= was[j];
      } else if p < j + 1 {
        assert now[p] == was[p] && now[q] > value && was[p] <= was[j];
      } else if p > j + 1 {
        assert now[p] == was[p - 1] && now[q] == was[q - 1];
      }
    }
  }

  /**
   * The fall-back: sort, then push coefficients up from the lower border
   * and finally down from the upper border.
   */
  method Fallback(a: array<int>, d: array<int>, L: int)
    requires a != d && 1 <= L <= a.Length && Deltas(d[..], L)
    modifies a
    ensures UpperShape(a[..], d[..], L)
    ensures Feasible(d[..], L) ==> Stable(a[..], d[..], L)
    ensures forall k :: L <= k < a.Length ==> a[k] == old(a[k])
  {
    InsertionSortIncreasing(a, L);
    PushUp(a, d, L);
    PushDown(a, d, L);
  }

  /** The upward pass: each coefficient at least its lower neighbour plus the spacing. */
  method PushUp(a: array<int>, d: array<int>, L: int)
    requires a != d && 1 <= L <= a.Length && L < d.Length
    modifies a
    ensures forall k :: 0 <= k < L ==> a[k] >= DeltaSum(d[..], 0, k + 1)
    ensures forall k :: L <= k < a.Length ==> a[k] == old(a[k])
  {
    a[0] := Max(a[0], d[0]);
    var i := 1;
    while i < L
      invariant 1 <= i <= L
      invariant forall k :: 0 <= k < i ==> a[k] >= DeltaSum(d[..], 0, k + 1)
      invariant forall k :: L <= k < a.Length ==> a[k] == old(a[k])
    {
      DeltaSumSnoc(d[..], 0, i);
      a[i] := Max(a[i], a[i - 1] + d[i]);
      i := i + 1;
    }
  }

  /**
   * The downward pass: the last coefficient at most 2^15 minus its spacing,
   * each one at most its upper neighbour minus the spacing.
   */
  method PushDown(a: array<int>, d: array<int>, L: int)
    requires a != d && 1 <= L <= a.Length && L < d.Length
    requires forall k :: 0 <= k < L ==> a[k] >= DeltaSum(d[..], 0, k + 1)
    modifies a
    ensures UpperShape(a[..], d[..], L)
    ensures Feasible(d[..], L) ==> Stable(a[..], d[..], L)
    ensures forall k :: L <= k < a.Length ==> a[k] == old(a[k])
  {
    DeltaSumSnoc(d[..], 0, L);
    a[L - 1] := Min(a[L - 1], Q15_ONE - d[L]);
    var i := L - 2;
    while i >= 0
      invariant -1 <= i <= L - 2
      invariant forall k :: 0 <= k <= i ==> a[k] >= DeltaSum(d[..], 0, k + 1)
      invariant Feasible(d[..], L) ==> forall k :: i < k < L ==> a[k] >= DeltaSum(d[..], 0, k + 1)
      invariant a[L - 1] <= Q15_ONE - d[L]
      invariant forall k :: i < k < L - 1 ==> a[k] <= a[k + 1] - d[k + 1]
      invariant forall k :: L <= k < a.Length ==> a[k] == old(a[k])
    {
      DeltaSumSnoc(d[..], 0, i + 1);
      a[i] := Min(a[i], a[i + 1] - d[i + 1]);
      i := i - 1;
    }
    if Feasible(d[..], L) {
      StableFromShape(a[..], d[..], L);
    }
  }

  /** The upper-side distances and a first coefficient above d[0] are all the distances. */
  lemma {:induction false} StableFromShape(s: seq<int>, ds: seq<int>, L: nat)
    requires 1 <= L <= |s| && L < |ds| && UpperShape(s, ds, L) && s[0] >= DeltaSum(ds, 0, 1)
    ensures Stable(s, ds, L)
  {
    forall j | 0 <= j <= L ensures Gap(s, ds, L, j) >= 0 {
      if j == 0 { assert DeltaSum(ds, 0, 1) == ds[0] + DeltaSum(ds, 1, 1); }
    }
  }

  /**
   * SKP_Silk_NLSF_stabilize on a[0..L): a vector that already keeps every
   * minimum distance is left alone; whenever the distances can be met at
   * all, the result keeps them; in every case the upper-side distances hold.
   */
  method Stabilize(a: array<int>, d: array<int>, L: int)
    requires a != d && 1 <= L <= a.Length && L <= MAX_ORDER
    requires Deltas(d[..], L) && d[L] >= 1
    requires Bounded(a[..], L)
    modifies a
    ensures Stable(old(a[..]), d[..], L) ==> a[..] == old(a[..])
    ensures Feasible(d[..], L) ==> Stable(a[..], d[..], L)
    ensures UpperShape(a[..], d[..], L)
    ensures forall k :: L <= k < a.Length ==> a[k] == old(a[k])
  {
    var loops := 0;
    while loops < MAX_LOOPS
      invariant 0 <= loops <= MAX_LOOPS
      invariant Bounded(a[..], L)
      invariant loops == 0 ==> a[..] == old(a[..])
      invariant loops > 0 ==> !Stable(old(a[..]), d[..], L)
      invariant forall k :: L <= k < a.Length ==> a[k] == old(a[k])
    {
      var minDiff, index := SmallestGap(a, d, L);
      if minDiff >= 0 {
        StableUpper(a[..], d[..], L);
        return;
      }
      if index == 0 {
        a[0] := d[0];
      } else if index == L {
        a[L - 1] := Q15_ONE - d[L];
      } else {
        MoveApart(a, d, L, index);
      }
      loops := loops + 1;
    }
    Fallback(a, d, L);
  }
}
