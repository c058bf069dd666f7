/** Byte streams and big-endian integers: the lowest layer of `src/serialization.c`. */
module Bytes {

  type byte = b: int | 0 <= b < 0x100
  type uint16 = n: int | 0 <= n < 0x1_0000
  type uint32 = n: int | 0 <= n < 0x1_0000_0000
  type uint64 = n: int | 0 <= n < 0x1_0000_0000_0000_0000
  type int64 = n: int | -0x8000_0000_0000_0000 <= n < 0x8000_0000_0000_0000

  /** The characters of a `char *` before its terminating NUL. */
  type CString = s: seq<byte> | 0 !in s

  datatype Option<+T> = None | Some(value: T)

  /** The outcome of decoding the front of a byte string. */
  datatype Parse<+T> = Fail | Got(value: T, rest: seq<byte>) {
    predicate IsFailure() { Fail? }
    function PropagateFailure<U>(): Parse<U> requires Fail? { Fail }
    function Extract(): (T, seq<byte>) requires Got? { (value, rest) }
  }

  /** What a successful parse becomes when `tail` was standing behind its input. */
  function Extended<T>(p: Parse<T>, tail: seq<byte>): Parse<T> {
    if p.Fail? then Fail else Got(p.value, p.rest + tail)
  }

  /** `rest` is what is left of `all` once some prefix has been consumed. */
  ghost predicate IsSuffix(rest: seq<byte>, all: seq<byte>) {
    |rest| <= |all| && rest == all[|all| - |rest|..]
  }

  // ---------- big-endian integers ----------

  /** 256 to the power `n`. */
  function Limit(n: nat): nat {
    if n == 0 then 1 else 256 * Limit(n - 1)
  }

  lemma Limits()
    ensures Limit(1) == 0x100 && Limit(2) == 0x1_0000
    ensures Limit(4) == 0x1_0000_0000
    ensures Limit(8) == 0x1_0000_0000_0000_0000
  {
    assert Limit(3) == 0x100_0000;
    assert Limit(5) == 0x100_0000_0000;
    assert Limit(6) == 0x1_0000_0000_0000;
    assert Limit(7) == 0x100_0000_0000_0000;
  }

  /** `v` on `n` bytes, most significant byte first. */
  function BE(v: nat, n: nat): (bs: seq<byte>)
    ensures |bs| == n
  {
    if n == 0 then [] else BE(v / 256, n - 1) + [v % 256]
  }

  lemma SingleByte(v: byte)
    ensures BE(v, 1) == [v]
  {
    assert BE(v, 1) == BE(0, 0) + [v];
  }

  function Value(bs: seq<byte>): nat {
    if bs == [] then 0 else Value(bs[..|bs| - 1]) * 256 + bs[|bs| - 1]
  }

  lemma {:induction false} ValueBE(v: nat, n: nat)
    requires v < Limit(n)
    ensures Value(BE(v, n)) == v
  {
    if n == 0 {
    } else {
      ValueBE(v / 256, n - 1);
      assert BE(v, n)[..n - 1] == BE(v / 256, n - 1);
    }
  }

  lemma {:induction false} BEValue(bs: seq<byte>)
    ensures Value(bs) < Limit(|bs|)
    ensures BE(Value(bs), |bs|) == bs
  {
    if bs == [] {
    } else {
      BEValue(bs[..|bs| - 1]);
      assert bs == bs[..|bs| - 1] + [bs[|bs| - 1]];
    }
  }

  /** The order of the bytes: the first one counts for the highest power of 256. */
  lemma {:induction false} MostSignificantFirst(v: nat, n: nat, high: byte, low: nat)
    requires low < Limit(n) && v == high * Limit(n) + low
    ensures BE(v, n + 1) == [high] + BE(low, n)
  {
    if n == 0 {
    } else {
      var rest := high * Limit(n - 1);
      assert high * Limit(n) == 256 * rest;
      assert v / 256 == rest + low / 256 && v % 256 == low % 256;
      MostSignificantFirst(v / 256, n - 1, high, low / 256);
    }
  }

  function DecodeUint(n: nat, bs: seq<byte>): (r: Parse<nat>)
    ensures r.Got? <==> n <= |bs|
    ensures r.Got? ==> |r.rest| == |bs| - n && r.value < Limit(n)
  {
    if |bs| < n then Fail else
    BEValue(bs[..n]);
    Got(Value(bs[..n]), bs[n..])
  }

  function DecodeUint8(bs: seq<byte>): (r: Parse<byte>)
    ensures r.Got? ==> |r.rest| < |bs|
  {
    Limits();
    var (v, rest) :- DecodeUint(1, bs);
    Got(v, rest)
  }

  function DecodeUint16(bs: seq<byte>): (r: Parse<uint16>)
    ensures r.Got? ==> |r.rest| < |bs|
  {
    Limits();
    var (v, rest) :- DecodeUint(2, bs);
    Got(v, rest)
  }

  function DecodeUint32(bs: seq<byte>): (r: Parse<uint32>)
    ensures r.Got? ==> |r.rest| < |bs|
  {
    Limits();
    var (v, rest) :- DecodeUint(4, bs);
    Got(v, rest)
  }

  function DecodeUint64(bs: seq<byte>): (r: Parse<uint64>)
    ensures r.Got? ==> |r.rest| < |bs|
  {
    Limits();
    var (v, rest) :- DecodeUint(8, bs);
    Got(v, rest)
  }

  /** Two's complement on 64 bits, as in the cast of `write_int64`. */
  function Unsigned(v: int64): uint64 {
    if v >= 0 then v else v + 0x1_0000_0000_0000_0000
  }

  function Signed(v: uint64): int64 {
    if v < 0x8000_0000_0000_0000 then v else v - 0x1_0000_0000_0000_0000
  }

  function DecodeInt64(bs: seq<byte>): (r: Parse<int64>)
    ensures r.Got? ==> |r.rest| == |bs| - 8
  {
    Limits();
    var (v, rest) :- DecodeUint(8, bs);
    Got(Signed(v), rest)
  }

  /** Reading back an integer just written, whatever follows it. */
  lemma UintRoundTrip(v: nat, n: nat, rest: seq<byte>)
    requires v < Limit(n)
    ensures DecodeUint(n, BE(v, n) + rest) == Got(v, rest)
  {
    ValueBE(v, n);
    assert (BE(v, n) + rest)[..n] == BE(v, n);
    assert (BE(v, n) + rest)[n..] == rest;
  }

  lemma Int64RoundTrip(v: int64, rest: seq<byte>)
    ensures DecodeInt64(BE(Unsigned(v), 8) + rest) == Got(v, rest)
  {
    Limits();
    UintRoundTrip(Unsigned(v), 8, rest);
  }

  lemma UintExtension(n: nat, bs: seq<byte>, tail: seq<byte>)
    requires DecodeUint(n, bs).Got?
    ensures DecodeUint(n, bs + tail) == Extended(DecodeUint(n, bs), tail)
  {
    assert (bs + tail)[..n] == bs[..n];
    assert (bs + tail)[n..] == bs[n..] + tail;
  }

  // ---------- repeated items ----------

  function EncodeMany<T>(enc: T -> seq<byte>, xs: seq<T>): seq<byte> {
    if xs == [] then [] else enc(xs[0]) + EncodeMany(enc, xs[1..])
  }

  function DecodeMany<T>(dec: seq<byte> -> Parse<T>, n: nat, bs: seq<byte>): (r: Parse<seq<T>>)
    ensures r.Got? ==> |r.value| == n
  {
    if n == 0 then Got([], bs) else
    var (x, bs1) :- dec(bs);
    var (xs, bs2) :- DecodeMany(dec, n - 1, bs1);
    Got([x] + xs, bs2)
  }

  /** `dec` undoes `enc` on `x`, whatever follows. */
  ghost predicate Undoes<T>(dec: seq<byte> -> Parse<T>, enc: T -> seq<byte>, x: T) {
    forall rest :: dec(enc(x) + rest) == Got(x, rest)
  }

  /** The answer of `dec` does not depend on what follows the bytes it consumes. */
  ghost predicate Extends<T(!new)>(dec: seq<byte> -> Parse<T>) {
    forall bs, tail :: dec(bs).Got? ==> dec(bs + tail) == Extended(dec(bs), tail)
  }

  lemma {:induction false} ManyRoundTrip<T>(dec: seq<byte> -> Parse<T>, enc: T -> seq<byte>,
                                            xs: seq<T>, rest: seq<byte>)
    requires forall x | x in xs :: Undoes(dec, enc, x)
    ensures DecodeMany(dec, |xs|, EncodeMany(enc, xs) + rest) == Got(xs, rest)
  {
    if xs == [] {
      assert EncodeMany(enc, xs) + rest == rest;
    } else {
      var bs := EncodeMany(enc, xs[1..]) + rest;
      assert EncodeMany(enc, xs) + rest == enc(xs[0]) + bs;
      assert Undoes(dec, enc, xs[0]);
      ManyRoundTrip(dec, enc, xs[1..], rest);
      assert xs == [xs[0]] + xs[1..];
    }
  }

  lemma {:induction false} ManyExtension<T(!new)>(dec: seq<byte> -> Parse<T>, n: nat, bs: seq<byte>, tail: seq<byte>)
    requires Extends(dec)
    requires DecodeMany(dec, n, bs).Got?
    ensures DecodeMany(dec, n, bs + tail) == Extended(DecodeMany(dec, n, bs), tail)
  {
    if n == 0 {
    } else {
      assert dec(bs + tail) == Extended(dec(bs), tail);
      ManyExtension(dec, n - 1, dec(bs).rest, tail);
    }
  }

  /** Any decoder with both properties rejects every strict prefix of an encoding. */
  lemma TruncationFails<T(!new)>(dec: seq<byte> -> Parse<T>, enc: T -> seq<byte>, x: T, k: nat)
    requires Undoes(dec, enc, x) && Extends(dec)
    requires k < |enc(x)|
    ensures dec(enc(x)[..k]).Fail?
  {
    var all := enc(x);
    assert all[..k] + all[k..] == all + [];
    assert dec(all[..k]).Got? ==> dec(all + []) == Extended(dec(all[..k]), all[k..]);
    assert dec(all + []) == Got(x, []);
  }

  lemma {:induction false} EncodeManySnoc<T>(enc: T -> seq<byte>, base: seq<byte>, xs: seq<T>, i: nat)
    requires i < |xs|
    ensures base + EncodeMany(enc, xs[..i]) + enc(xs[i]) == base + EncodeMany(enc, xs[..i + 1])
    decreases i
  {
    if i == 0 {
      assert EncodeMany(enc, xs[..1]) == enc(xs[0]) + [];
    } else {
      assert xs[..i + 1][1..] == xs[1..][..i] && xs[..i][1..] == xs[1..][..i - 1];
      EncodeManySnoc(enc, [], xs[1..], i - 1);
      assert [] + EncodeMany(enc, xs[1..][..i - 1]) == EncodeMany(enc, xs[1..][..i - 1]);
      assert [] + EncodeMany(enc, xs[1..][..i]) == EncodeMany(enc, xs[1..][..i]);
      assert EncodeMany(enc, xs[..i]) + enc(xs[i]) == EncodeMany(enc, xs[..i + 1]);
      Assoc(base, EncodeMany(enc, xs[..i]), enc(xs[i]));
    }
  }

  lemma Assoc(a: seq<byte>, b: seq<byte>, c: seq<byte>)
    ensures a + b + c == a + (b + c)
  {
  }

  lemma Split(front: seq<byte>, back: seq<byte>)
    ensures (front + back)[..|front|] == front
    ensures (front + back)[|front|..] == back
  {
  }

  /** A parse that continues after `xs` were read. */
  function Continue<T>(xs: seq<T>, p: Parse<seq<T>>): Parse<seq<T>> {
    if p.Fail? then Fail else Got(xs + p.value, p.rest)
  }

  lemma ContinueNothing<T>(p: Parse<seq<T>>)
    ensures Continue([], p) == p
  {
    if p.Got? {
      assert [] + p.value == p.value;
    }
  }

  lemma ContinueDone<T>(xs: seq<T>, rest: seq<byte>)
    ensures Continue(xs, Got([], rest)) == Got(xs, rest)
  {
    assert xs + [] == xs;
  }

  lemma ContinueWith<T>(xs: seq<T>, x: T, p: Parse<seq<T>>)
    requires xs != [] && xs[|xs| - 1] == x
    ensures Continue(xs[..|xs| - 1], if p.Fail? then Fail else Got([x] + p.value, p.rest)) == Continue(xs, p)
  {
    if p.Got? {
      assert xs[..|xs| - 1] + ([x] + p.value) == xs + p.value;
    }
  }

  // ---------- streams ----------

  /**
   The bytes that were written to a descriptor and not read yet. A `read` may deliver fewer bytes
   than it was asked for, which is what the `robust` loops are for.
   */
  class Stream {
    var data: seq<byte>

    constructor (bytes: seq<byte>)
      ensures data == bytes
    {
      data := bytes;
    }

    /** One `read` of at most `count` bytes, with an arbitrary short count; empty at end of file. */
    method Read(count: nat) returns (chunk: seq<byte>)
      requires count > 0
      modifies this
      ensures old(data) == chunk + data
      ensures |chunk| <= count
      ensures chunk == [] <==> old(data) == []
    {
      if data == [] {
        return [];
      }
      var k :| 1 <= k <= count && k <= |data|;
      chunk := data[..k];
      data := data[k..];
    }

    /** `robust_read`: all of `count` bytes however they are split, or a failure at end of file. */
    method RobustRead(count: nat) returns (r: Option<seq<byte>>)
      modifies this
      ensures r.Some? <==> count <= |old(data)|
      ensures r.Some? ==> r.value == old(data)[..count] && data == old(data)[count..]
      ensures IsSuffix(data, old(data))
    {
      var got := [];
      var left := count;
      while left > 0
        invariant 0 <= left <= count
        invariant |got| == count - left
        invariant old(data) == got + data
      {
        var chunk := Read(left);
        if chunk == [] {
          return None;
        }
        Assoc(got, chunk, data);
        got := got + chunk;
        left := left - |chunk|;
      }
      Split(got, data);
      r := Some(got);
    }

    /** One `write` of at least one byte, with an arbitrary short count. */
    method Write(bytes: seq<byte>) returns (k: nat)
      requires bytes != []
      modifies this
      ensures 1 <= k <= |bytes|
      ensures data == old(data) + bytes[..k]
    {
      k :| 1 <= k <= |bytes|;
      data := data + bytes[..k];
    }

    /** `robust_write`: every byte, in order, however the writes are split. */
    method RobustWrite(bytes: seq<byte>)
      modifies this
      ensures data == old(data) + bytes
    {
      var left := |bytes|;
      while left > 0
        invariant 0 <= left <= |bytes|
        invariant data == old(data) + bytes[..|bytes| - left]
      {
        var sent := |bytes| - left;
        var k := Write(bytes[sent..]);
        assert bytes[..sent + k] == bytes[..sent] + bytes[sent..][..k];
        left := left - k;
      }
      assert bytes[..|bytes|] == bytes;
    }

    // The fixed-size writers.

    method WriteUint8(v: byte)
      modifies this
      ensures data == old(data) + BE(v, 1)
    {
      data := data + BE(v, 1);
    }

    method WriteUint16(v: uint16)
      modifies this
      ensures data == old(data) + BE(v, 2)
    {
      data := data + BE(v, 2);
    }

    method WriteUint32(v: uint32)
      modifies this
      ensures data == old(data) + BE(v, 4)
    {
      data := data + BE(v, 4);
    }

    method WriteUint64(v: uint64)
      modifies this
      ensures data == old(data) + BE(v, 8)
    {
      data := data + BE(v, 8);
    }

    /** The fixed-size readers: the whole integer, or a failure once the stream has run short. */
    method ReadUint(n: nat) returns (r: Option<nat>)
      modifies this
      ensures r.Some? <==> DecodeUint(n, old(data)).Got?
      ensures r.Some? ==> DecodeUint(n, old(data)) == Got(r.value, data)
      ensures IsSuffix(data, old(data))
    {
      if |data| < n {
        data := [];
        return None;
      }
      r := Some(DecodeUint(n, data).value);
      data := data[n..];
    }

    method ReadUint8() returns (r: Option<byte>)
      modifies this
      ensures r.Some? <==> DecodeUint8(old(data)).Got?
      ensures r.Some? ==> DecodeUint8(old(data)) == Got(r.value, data)
      ensures IsSuffix(data, old(data))
    {
      Limits();
      var v := ReadUint(1);
      r := if v.None? then None else Some(v.value);
    }

    method ReadUint16() returns (r: Option<uint16>)
      modifies this
      ensures r.Some? <==> DecodeUint16(old(data)).Got?
      ensures r.Some? ==> DecodeUint16(old(data)) == Got(r.value, data)
      ensures IsSuffix(data, old(data))
    {
      Limits();
      var v := ReadUint(2);
      r := if v.None? then None else Some(v.value);
    }

    method ReadUint32() returns (r: Option<uint32>)
      modifies this
      ensures r.Some? <==> DecodeUint32(old(data)).Got?
      ensures r.Some? ==> DecodeUint32(old(data)) == Got(r.value, data)
      ensures IsSuffix(data, old(data))
    {
      Limits();
      var v := ReadUint(4);
      r := if v.None? then None else Some(v.value);
    }

    method ReadUint64() returns (r: Option<uint64>)
      modifies this
      ensures r.Some? <==> DecodeUint64(old(data)).Got?
      ensures r.Some? ==> DecodeUint64(old(data)) == Got(r.value, data)
      ensures IsSuffix(data, old(data))
    {
      Limits();
      var v := ReadUint(8);
      r := if v.None? then None else Some(v.value);
    }

    method ReadInt64() returns (r: Option<int64>)
      modifies this
      ensures r.Some? <==> DecodeInt64(old(data)).Got?
      ensures r.Some? ==> DecodeInt64(old(data)) == Got(r.value, data)
      ensures IsSuffix(data, old(data))
    {
      Limits();
      var v := ReadUint(8);
      r := if v.None? then None else Some(Signed(v.value));
    }
  }
}
