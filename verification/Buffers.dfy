/** The growable output buffer of `src/execution.c`. */
module Buffers {
  import opened Bytes
  import opened Masks

  const FIRST_CAPACITY := 1024
  const CHUNK := 4096

  /** What a command's captured output amounts to: its bytes, minus one trailing NUL if there is one. */
  function Capture(raw: seq<byte>): seq<byte> {
    if raw != [] && raw[|raw| - 1] == 0 then raw[..|raw| - 1] else raw
  }

  /** What the doubling loop can allocate: nothing yet, or a power of two of at least 1024. */
  ghost predicate IsCapacity(cap: nat) { cap == 0 || exists k: nat :: k >= 10 && cap == Pow2(k) }

  lemma FirstCapacity()
    ensures FIRST_CAPACITY == Pow2(10)
  {
    assert Pow2(5) == 32;
  }

  /** The doubling loop of `buffer_reserve`. */
  method NextCapacity(cap: nat, minCap: nat) returns (newCap: nat)
    requires IsCapacity(cap) && cap < minCap
    ensures IsCapacity(newCap) && minCap <= newCap == Grown(cap, minCap)
  {
    newCap := if cap > 0 then cap else FIRST_CAPACITY;
    FirstCapacity();
    ghost var k: nat :| k >= 10 && newCap == Pow2(k);
    while newCap < minCap
      invariant k >= 10 && newCap == Pow2(k)
      invariant Doublings(newCap, minCap) == Grown(cap, minCap)
      decreases minCap - newCap
    {
      PowerDoubles(k);
      newCap, k := newCap * 2, k + 1;
    }
  }

  class Buffer {
    /** The allocation; its length is the `cap` of the C struct. */
    var data: array<byte>
    var len: nat

    ghost predicate Valid()
      reads this, data
    {
      && IsCapacity(data.Length)
      && len <= data.Length
      && (len > 0 ==> len < data.Length && data[len] == 0)
    }

    ghost function Contents(): seq<byte>
      requires Valid()
      reads this, data
    {
      data[..len]
    }

    constructor ()
      ensures Valid() && fresh(data) && Contents() == []
    {
      data := new byte[0];
      len := 0;
    }

    /** `buffer_reserve`. */
    method Reserve(minCap: nat)
      requires Valid()
      modifies this
      ensures Valid() && Contents() == old(Contents()) && len == old(len)
      ensures data == old(data) || fresh(data)
      ensures minCap <= data.Length == Grown(old(data.Length), minCap)
    {
      if minCap <= data.Length { return; }
      hide IsCapacity, Grown;
      var newCap := NextCapacity(data.Length, minCap);
      var bigger := new byte[newCap](i => 0);
      for i := 0 to data.Length
        invariant bigger[..i] == data[..i]
        modifies bigger
      {
        bigger[i] := data[i];
      }
      if len > 0 {
        assert bigger[..data.Length][len] == data[..data.Length][len];
      }
      assert bigger[..len] == bigger[..data.Length][..len] == data[..len];
      data := bigger;
    }

    /** `buffer_append`. */
    method Append(src: seq<byte>)
      requires Valid()
      modifies this, data
      ensures Valid() && Contents() == old(Contents()) + src
      ensures data == old(data) || fresh(data)
    {
      hide Grown, Doublings;
      if src == [] { return; }
      Reserve(len + |src| + 1);
      ghost var after := Contents() + src;
      forall i | len <= i < len + |src| {
        data[i] := src[i - len];
      }
      assert data[..len + |src|] == after;
      len := len + |src|;
      data[len] := 0;
    }

    /** `move_buffer_to_output`. */
    method MoveToOutput() returns (out: seq<byte>)
      requires Valid()
      modifies this, data
      ensures out == Capture(old(Contents()))
      ensures Valid() && fresh(data) && Contents() == []
    {
      ghost var raw := Contents();
      if len > 0 && data[len - 1] != 0 {
        Append([0]);
      }
      out := data[..if len > 0 then len - 1 else 0];
      data := new byte[0];
      len := 0;
    }
  }

  /** `read_fd_into_buffer`: however the bytes arrive, they are appended in order. */
  method ReadIntoBuffer(fd: Stream, buf: Buffer)
    requires buf.Valid()
    modifies fd, buf, buf.data
    ensures buf.Valid() && buf.Contents() == old(buf.Contents()) + old(fd.data)
    ensures buf.data == old(buf.data) || fresh(buf.data)
  {
    ghost var all := fd.data;
    while true
      invariant buf.Valid()
      invariant buf.data == old(buf.data) || fresh(buf.data)
      invariant buf.Contents() + fd.data == old(buf.Contents()) + all
      decreases |fd.data|
    {
      var chunk := fd.Read(CHUNK);
      if chunk == [] { return; }
      assert chunk + fd.data != [];
      buf.Append(chunk);
    }
  }

  // ---------- the growth of the capacity ----------

  function Doublings(cap: nat, minCap: nat): nat
    requires cap > 0
    decreases minCap - cap
  {
    if cap >= minCap then cap else Doublings(cap * 2, minCap)
  }

  function Grown(cap: nat, minCap: nat): nat {
    if minCap <= cap then cap else Doublings(if cap > 0 then cap else FIRST_CAPACITY, minCap)
  }

  const SIZE_LIMIT := 0x1_0000_0000_0000_0000

  /** `new_cap` after `n` turns of the doubling loop in the 64-bit arithmetic of `size_t`. */
  function Capacity64(cap: nat, n: nat): nat {
    if n == 0 then cap else Capacity64(cap, n - 1) * 2 % SIZE_LIMIT
  }

  lemma Power64()
    ensures Pow2(64) == SIZE_LIMIT && Pow2(63) == 0x8000_0000_0000_0000
  {
    assert Pow2(8) == 0x100;
    assert Pow2(16) == 0x1_0000;
    assert Pow2(24) == 0x100_0000;
    assert Pow2(32) == 0x1_0000_0000;
    assert Pow2(40) == 0x100_0000_0000;
    assert Pow2(48) == 0x1_0000_0000_0000;
    assert Pow2(56) == 0x100_0000_0000_0000;
  }

  /** Starting from a power of two, the capacity doubles until it wraps to 0, where it stays. */
  lemma {:induction false} CapacityAfter(k: nat, n: nat)
    requires k < 64
    ensures Capacity64(Pow2(k), n) == if k + n < 64 then Pow2(k + n) else 0
  {
    hide Pow2;
    Power64();
    if n > 0 {
      CapacityAfter(k, n - 1);
      if k + n < 64 {
        PowerDoubles(k + n - 1);
        PowersMonotone(k + n, 63);
      }
    } else {
      PowersMonotone(k, 63);
    }
  }

  /**
   The doubling loop ends exactly for requests of at most 2^63 bytes: beyond that the 64-bit
   capacity wraps to 0 and no number of turns reaches the request.
   */
  lemma DoublingTerminates(k: nat, minCap: nat)
    requires k < 64
    ensures (exists n: nat :: Capacity64(Pow2(k), n) >= minCap) <==> minCap <= 0x8000_0000_0000_0000
  {
    Power64();
    CapacityAfter(k, 63 - k);
    forall n: nat ensures Capacity64(Pow2(k), n) <= Pow2(63) {
      CapacityAfter(k, n);
      if k + n < 64 {
        PowersMonotone(k + n, 63);
      }
    }
    assert Capacity64(Pow2(k), 63 - k) == Pow2(63);
  }

  /** Up to there it computes what unbounded arithmetic would. */
  lemma {:induction false} DoublingIsExact(k: nat, minCap: nat)
    requires k < 64 && minCap <= 0x8000_0000_0000_0000
    ensures exists n: nat | k + n < 64 ::
      Doublings(Pow2(k), minCap) == Capacity64(Pow2(k), n) == Pow2(k + n)
    decreases 64 - k
  {
    hide Capacity64, Pow2;
    if Pow2(k) >= minCap {
      CapacityAfter(k, 0);
      assert Capacity64(Pow2(k), 0) == Pow2(k + 0);
    } else {
      assert k < 63 by { Power64(); }
      DoublingIsExact(k + 1, minCap);
      var n: nat :| k + 1 + n < 64 && Doublings(Pow2(k + 1), minCap) == Capacity64(Pow2(k + 1), n) == Pow2(k + 1 + n);
      CapacityAfter(k, n + 1);
      assert Pow2(k) * 2 == Pow2(k + 1) by { PowerDoubles(k); }
      assert k + (n + 1) == k + 1 + n;
    }
  }
}
