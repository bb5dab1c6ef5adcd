/**
 * ByteBufferPool: a pool of native byte buffers. getBuffer hands out the
 * first pooled buffer that is large enough (or a new one), a freed buffer
 * goes back to the pool once, and drain frees every pooled buffer. A buffer
 * is identified by the id it was created with; its native memory is not
 * modelled, only which buffers are freed and in which order.
 */
module BufferPool {
  import opened JavaBase

  /** AV_INPUT_BUFFER_PADDING_SIZE of FFmpeg's avcodec.h. */
  const AV_INPUT_BUFFER_PADDING_SIZE: int := 64

  /** A PooledByteBuffer: its identity and its capacity in bytes. */
  datatype PooledBuffer = PooledBuffer(id: nat, capacity: int)

  /** The IllegalArgumentException of NeomediaByteBuffer for a capacity below 1. */
  datatype CapacityError = IllegalArgumentException(capacity: int)

  /** The index of the first buffer with at least `need` bytes, or -1. */
  function FirstFit(buffers: seq<PooledBuffer>, need: int): (r: int)
    ensures -1 <= r < |buffers|
    ensures r >= 0 ==> buffers[r].capacity >= need
    ensures forall j :: 0 <= j < |buffers| && (r == -1 || j < r) ==> buffers[j].capacity < need
  {
    if buffers == [] then -1
    else if buffers[0].capacity >= need then 0
    else
      var k := FirstFit(buffers[1..], need);
      assert forall j :: 1 <= j < |buffers| ==> buffers[j] == buffers[1..][j - 1];
      if k == -1 then -1 else k + 1
  }

  /** The capacity asked of the pool: the request plus the padding, as a Java int. */
  function PaddedCapacity(capacity: int): (r: int)
    requires IsInt(capacity)
    ensures IsInt(r)
    ensures capacity <= INT_MAX - AV_INPUT_BUFFER_PADDING_SIZE ==> r == capacity + AV_INPUT_BUFFER_PADDING_SIZE
    ensures capacity > INT_MAX - AV_INPUT_BUFFER_PADDING_SIZE ==> r < 0
  {
    WrapInt(capacity + AV_INPUT_BUFFER_PADDING_SIZE)
  }

  class ByteBufferPool {
    /** The pooled buffers, in the order they were returned. */
    var buffers: seq<PooledBuffer>
    /** Every buffer whose native memory was freed (doFree), in order. */
    var freed: seq<PooledBuffer>
    /** The id the next new buffer gets. */
    var nextId: nat
    /** The capacity each buffer this pool created was given, by id. */
    ghost var created: map<nat, int>

    /**
     * Every pooled buffer was created by this pool, with the capacity it
     * has (at least 1 byte), and none is pooled twice.
     */
    ghost predicate Valid()
      reads this
    {
      Distinct(buffers) &&
      (forall id: nat :: id in created <==> id < nextId) &&
      (forall id :: id in created ==> created[id] >= 1) &&
      forall k :: 0 <= k < |buffers| ==> Made(buffers[k])
    }

    /** The buffer is one this pool created, with its capacity. */
    ghost predicate Made(b: PooledBuffer)
      reads this
    {
      b.id in created && created[b.id] == b.capacity
    }

    constructor()
      ensures Valid() && buffers == [] && freed == [] && nextId == 0
    {
      buffers := [];
      freed := [];
      nextId := 0;
      created := map[];
    }

    /** drain(): every pooled buffer is removed and freed, in pool order. */
    method Drain()
      requires Valid()
      modifies this
      ensures Valid()
      ensures buffers == [] && freed == old(freed) + old(buffers) && nextId == old(nextId)
      ensures created == old(created)
    {
      ghost var all := buffers;
      var i := 0;
      while buffers != []
        invariant i <= |all| && buffers == all[i..] && freed == old(freed) + all[..i]
        invariant nextId == old(nextId) && created == old(created)
        decreases |buffers|
      {
        var buffer := buffers[0];
        assert all[..i + 1] == all[..i] + [buffer];
        buffers := buffers[1..];
        freed := freed + [buffer];
        i := i + 1;
      }
    }

    /**
     * getBuffer(capacity): the first pooled buffer holding at least the
     * padded capacity leaves the pool and is returned; when there is none a
     * new buffer of exactly the padded capacity is created, which
     * NeomediaByteBuffer refuses with an IllegalArgumentException when that
     * capacity is below 1 (a request of -64 or less, or one so large that
     * the padding wraps it negative).
     */
    method GetBuffer(capacity: int) returns (r: Result<PooledBuffer, CapacityError>)
      requires Valid() && IsInt(capacity)
      modifies this
      ensures Valid() && freed == old(freed)
      ensures var need := PaddedCapacity(capacity);
        var k := FirstFit(old(buffers), need);
        if k >= 0 then
          r == Ok(old(buffers)[k]) && buffers == old(buffers)[..k] + old(buffers)[k + 1..] &&
          nextId == old(nextId) && created == old(created)
        else if need < 1 then
          r == Err(IllegalArgumentException(need)) &&
          buffers == old(buffers) && nextId == old(nextId) && created == old(created)
        else
          r == Ok(PooledBuffer(old(nextId), need)) &&
          buffers == old(buffers) && nextId == old(nextId) + 1 && created == old(created)[old(nextId) := need]
      ensures r.Ok? ==> r.value.capacity >= PaddedCapacity(capacity) && r.value !in buffers && Made(r.value)
    {
      var need := PaddedCapacity(capacity);
      var i := 0;
      while i < |buffers|
        invariant 0 <= i <= |buffers|
        invariant forall j :: 0 <= j < i ==> buffers[j].capacity < need
        invariant buffers == old(buffers) && nextId == old(nextId) && created == old(created)
      {
        if buffers[i].capacity >= need {
          var buffer := buffers[i];
          assert FirstFit(buffers, need) == i;
          RemoveAtDistinct(buffers, i);
          buffers := buffers[..i] + buffers[i + 1..];
          return Ok(buffer);
        }
        i := i + 1;
      }
      if need < 1 {
        return Err(IllegalArgumentException(need));
      }
      created := created[nextId := need];
      r := Ok(PooledBuffer(nextId, need));
      nextId := nextId + 1;
    }

    /** returnBuffer(buffer): the buffer joins the pool unless it is already there. */
    method ReturnBuffer(buffer: PooledBuffer)
      requires Valid() && Made(buffer)
      modifies this
      ensures Valid()
      ensures buffers == AppendIfAbsent(old(buffers), buffer)
      ensures freed == old(freed) && nextId == old(nextId) && created == old(created)
    {
      AppendIfAbsentDistinct(buffers, buffer);
      if buffer !in buffers {
        buffers := buffers + [buffer];
      }
    }
  }

  /** Cutting one element out of a duplicate-free list leaves it duplicate-free and without that element. */
  lemma {:induction false} RemoveAtDistinct<T>(xs: seq<T>, i: nat)
    requires Distinct(xs) && i < |xs|
    ensures var r := xs[..i] + xs[i + 1..];
      Distinct(r) && xs[i] !in r && forall y :: y in r ==> y in xs
  {
    var r := xs[..i] + xs[i + 1..];
    forall a, b | 0 <= a < b < |r| ensures r[a] != r[b] {
      var a', b' := if a < i then a else a + 1, if b < i then b else b + 1;
      assert r[a] == xs[a'] && r[b] == xs[b'];
    }
    forall k | 0 <= k < |r| ensures r[k] != xs[i] {
      assert r[k] == xs[if k < i then k else k + 1];
    }
  }

  /**
   * A buffer handed out and freed again comes back to the pool: with a
   * reused buffer the pool then holds the same buffers as before.
   */
  lemma {:induction false} GetThenReturn(buffers: seq<PooledBuffer>, k: nat)
    requires Distinct(buffers) && k < |buffers|
    ensures var rest := buffers[..k] + buffers[k + 1..];
      multiset(AppendIfAbsent(rest, buffers[k])) == multiset(buffers)
  {
    var rest := buffers[..k] + buffers[k + 1..];
    RemoveAtDistinct(buffers, k);
    var front, b, back := buffers[..k], buffers[k], buffers[k + 1..];
    assert buffers == front + [b] + back;
    assert AppendIfAbsent(rest, b) == front + back + [b];
    calc {
      multiset(front + back + [b]);
      multiset(front) + multiset(back) + multiset{b};
      multiset(front + [b] + back);
    }
  }
}
