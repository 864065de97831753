/** Bytes and the big-endian integers read from them (ByteConverter::ToUInt16, ToUInt32). */
module Bytes {

  type byte = b: int | 0 <= b < 256

  function ToUInt16(data: seq<byte>, offset: nat): (r: nat)
    requires offset + 2 <= |data|
    ensures r < 0x1_0000
  {
    (data[offset] as int) * 256 + data[offset + 1] as int
  }

  function ToUInt32(data: seq<byte>, offset: nat): (r: nat)
    requires offset + 4 <= |data|
    ensures r < 0x1_0000_0000
  {
    0x1_0000 * ToUInt16(data, offset) + ToUInt16(data, offset + 2)
  }

  /** The two bytes of a 16-bit value, most significant first. */
  function FromUInt16(v: nat): (s: seq<byte>)
    requires v < 0x1_0000
    ensures |s| == 2 && ToUInt16(s, 0) == v
  {
    [v / 256, v % 256]
  }

  function FromUInt32(v: nat): (s: seq<byte>)
    requires v < 0x1_0000_0000
    ensures |s| == 4 && ToUInt32(s, 0) == v
  {
    FromUInt16(v / 0x1_0000) + FromUInt16(v % 0x1_0000)
  }

  /** The bytes lie in the data from `at` on. */
  predicate Holds(data: seq<byte>, at: nat, bytes: seq<byte>) {
    at + |bytes| <= |data| && data[at..at + |bytes|] == bytes
  }

  lemma {:induction false} HoldsParts(data: seq<byte>, at: nat, a: seq<byte>, b: seq<byte>)
    requires Holds(data, at, a + b)
    ensures Holds(data, at, a) && Holds(data, at + |a|, b)
  {
    var d := data[at..at + |a + b|];
    assert data[at..at + |a|] == d[..|a|] == a;
    assert data[at + |a|..at + |a| + |b|] == d[|a|..] == b;
  }

  lemma {:induction false} ByteInside(data: seq<byte>, base: nat, sent: seq<byte>, i: nat)
    requires Holds(data, base, sent) && i < |sent|
    ensures base + |sent| <= |data| && data[base + i] == sent[i]
  {
    assert data[base..base + |sent|][i] == data[base + i];
  }

  lemma {:induction false} SliceInside(data: seq<byte>, base: nat, sent: seq<byte>, i: nat, j: nat)
    requires Holds(data, base, sent) && i <= j <= |sent|
    ensures base + j <= |data| && data[base + i..base + j] == sent[i..j]
  {
    var d := data[base..base + |sent|];
    assert forall k | 0 <= k < j - i :: data[base + i..base + j][k] == d[i + k] == sent[i..j][k];
  }

  lemma {:induction false} HoldsBoth(data: seq<byte>, at: nat, a: seq<byte>, b: seq<byte>)
    requires Holds(data, at, a) && Holds(data, at + |a|, b)
    ensures Holds(data, at, a + b)
  {
    assert data[at..at + |a + b|] == data[at..at + |a|] + data[at + |a|..at + |a| + |b|];
  }

  lemma {:induction false} HeldBytes(data: seq<byte>, at: nat, bytes: seq<byte>)
    requires Holds(data, at, bytes)
    ensures at + |bytes| <= |data| && data[at..at + |bytes|] == bytes
  {}

  lemma {:induction false} ReadsUInt16(data: seq<byte>, at: nat, v: nat)
    requires v < 0x1_0000 && Holds(data, at, FromUInt16(v))
    ensures ToUInt16(data, at) == v
  {
    var d := data[at..at + 2];
    assert d[0] == data[at] && d[1] == data[at + 1];
  }

  lemma {:induction false} ReadsUInt32(data: seq<byte>, at: nat, v: nat)
    requires v < 0x1_0000_0000 && Holds(data, at, FromUInt32(v))
    ensures ToUInt32(data, at) == v
  {
    HoldsParts(data, at, FromUInt16(v / 0x1_0000), FromUInt16(v % 0x1_0000));
    ReadsUInt16(data, at, v / 0x1_0000);
    ReadsUInt16(data, at + 2, v % 0x1_0000);
  }
}
