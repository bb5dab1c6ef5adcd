/**
 * The java.lang.System and java.util.Arrays operations on `byte[]` that the
 * audio renderers and streams use: System.arraycopy (from another array, and
 * within one array, where it behaves as if through a temporary copy) and
 * Arrays.fill.
 */
module JavaArrays {
  import opened JavaBase

  /** `n` zero bytes. */
  function Zeros(n: nat): (r: seq<Byte>)
    ensures |r| == n && forall i :: 0 <= i < n ==> r[i] == 0
  {
    if n == 0 then [] else Zeros(n - 1) + [0]
  }

  /**
   * System.arraycopy(src, srcPos, dest, destPos, length) from another array,
   * whose contents are given: dest[destPos .. destPos + length) takes
   * src[srcPos .. srcPos + length) and nothing else of dest changes.
   */
  method Arraycopy(src: seq<Byte>, srcPos: int, dest: array<Byte>, destPos: int, length: int)
    requires 0 <= srcPos && 0 <= destPos && 0 <= length
    requires srcPos + length <= |src| && destPos + length <= dest.Length
    modifies dest
    ensures dest[..] == old(dest[..destPos]) + src[srcPos..srcPos + length] + old(dest[destPos + length..])
  {
    forall i | destPos <= i < destPos + length {
      dest[i] := src[srcPos + i - destPos];
    }
    assert dest[..] == old(dest[..destPos]) + src[srcPos..srcPos + length] + old(dest[destPos + length..]) by {
      forall i | 0 <= i < dest.Length
        ensures dest[i] == (old(dest[..destPos]) + src[srcPos..srcPos + length] + old(dest[destPos + length..]))[i]
      {
      }
    }
  }

  /**
   * System.arraycopy(a, from, a, 0, length): the `length` bytes at `from`
   * move to the front; the bytes from `length` on keep their values.
   */
  method ShiftToFront(a: array<Byte>, from: int, length: int)
    requires 0 <= from && 0 <= length && from + length <= a.Length
    modifies a
    ensures a[..] == old(a[from..from + length]) + old(a[length..])
  {
    forall i | 0 <= i < length {
      a[i] := a[from + i];
    }
    assert a[..] == old(a[from..from + length]) + old(a[length..]) by {
      forall i | 0 <= i < a.Length ensures a[i] == (old(a[from..from + length]) + old(a[length..]))[i] {
      }
    }
  }

  /** Arrays.fill(a, fromIndex, toIndex, (byte) 0). */
  method FillZero(a: array<Byte>, fromIndex: int, toIndex: int)
    requires 0 <= fromIndex <= toIndex <= a.Length
    modifies a
    ensures a[..] == old(a[..fromIndex]) + Zeros(toIndex - fromIndex) + old(a[toIndex..])
  {
    forall i | fromIndex <= i < toIndex {
      a[i] := 0;
    }
    assert a[..] == old(a[..fromIndex]) + Zeros(toIndex - fromIndex) + old(a[toIndex..]) by {
      forall i | 0 <= i < a.Length ensures a[i] == (old(a[..fromIndex]) + Zeros(toIndex - fromIndex) + old(a[toIndex..]))[i] {
      }
    }
  }
}
