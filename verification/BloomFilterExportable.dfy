/**
 Bloom filters that are written out as text and read back: the bits packed eight to a byte, lowest
 first. Base64 is a function to text and one back.
 */
module BloomFilterExportable {
  import opened BloomFilter
  import opened Wrappers

  type Packed = seq<bv8>

  /** Base64 (section 4 of RFC 4648), as a function to text and one back. */
  datatype Codec = Codec(toBase64: Packed -> string, fromBase64: string -> Packed)

  ghost predicate RoundTrips(codec: Codec) {
    forall bytes :: codec.fromBase64(codec.toBase64(bytes)) == bytes
  }

  const MAX_HASH_FUNCTIONS := 64

  /** The offset between digest bytes, or None where the constructor throws. */
  method InitHashCreator(nHashFunctions: nat) returns (multiplicator: Option<nat>)
    ensures multiplicator == if nHashFunctions > 64 then None else Some(if nHashFunctions > 16 then 5 else 4)
  {
    var offset := 4;
    if nHashFunctions > MAX_HASH_FUNCTIONS {
      return None;
    }
    if nHashFunctions > 16 {
      offset := 5;
    }
    multiplicator := Some(offset);
  }

  /** A filter for an estimated number of words; the limit on hash functions is never reached. */
  method Create(estimate: nat, caseSensitive: bool, hashing: Hashing) returns (created: Option<Filter>)
    ensures created.Some?
    ensures var f := created.value;
            && fresh(f) && fresh(f.bitArray) && f.Valid() && f.View() == Cleared(f.shape)
            && f.shape.caseSensitive == caseSensitive && f.shape.hashing == hashing
            && LeastBits(f.shape.indexBits, DEFAULT_BITS_PER_ELEMENT * estimate)
            && f.shape.nHashFunctions == HashCount(f.shape.Size(), estimate)
  {
    var filter := new Filter(estimate, caseSensitive, DEFAULT_BITS_PER_ELEMENT, hashing);
    if estimate > 0 {
      HashCountBounds(filter.shape.indexBits, estimate);
    }
    var multiplicator := InitHashCreator(filter.shape.nHashFunctions);
    if multiplicator.None? {
      return None;
    }
    created := Some(filter);
  }

  function Mask(k: nat): bv8
    requires k < 8
  {
    match k
    case 0 => 1
    case 1 => 2
    case 2 => 4
    case 3 => 8
    case 4 => 16
    case 5 => 32
    case 6 => 64
    case 7 => 128
  }

  lemma {:induction false} LowestFirst(k: nat)
    requires k < 8
    ensures Mask(k) == (1 as bv8) << k
  {}

  predicate BitAt(bytes: Packed, i: nat)
    requires i / 8 < |bytes|
  {
    bytes[i / 8] & Mask(i % 8) != 0
  }

  /** The bytes hold these bits, and no others. */
  ghost predicate Packs(bytes: Packed, bits: seq<bool>) {
    && |bytes| == (|bits| + 7) / 8
    && forall i :: 0 <= i < 8 * |bytes| ==> (BitAt(bytes, i) <==> i < |bits| && bits[i])
  }

  lemma {:induction false} SetBit(b: bv8, k: nat, j: nat)
    requires k < 8 && j < 8
    ensures (b | Mask(k)) & Mask(j) != 0 <==> j == k || b & Mask(j) != 0
  {}

  /** The bytes hold the first `count` bits, and no others. */
  ghost predicate HoldsFirst(bytes: Packed, bits: seq<bool>, count: nat)
    requires count <= |bits|
  {
    forall i :: 0 <= i < 8 * |bytes| ==> (BitAt(bytes, i) <==> i < count && bits[i])
  }

  lemma {:induction false} BitSet(was: Packed, i: nat, now: Packed)
    requires i < 8 * |was| && now == was[i / 8 := was[i / 8] | Mask(i % 8)]
    ensures forall j :: 0 <= j < 8 * |was| ==> (BitAt(now, j) <==> j == i || BitAt(was, j))
  {
    hide Mask;
    forall j | 0 <= j < 8 * |was|
      ensures BitAt(now, j) <==> j == i || BitAt(was, j)
    {
      SetBit(was[i / 8], i % 8, j % 8);
    }
  }

  lemma {:induction false} NoBits(bytes: Packed, bits: seq<bool>)
    requires forall k :: 0 <= k < |bytes| ==> bytes[k] == 0
    ensures HoldsFirst(bytes, bits, 0)
  {}

  method ExportAsBase64(filter: Filter, codec: Codec) returns (base64: string)
    ensures exists bytes :: Packs(bytes, filter.bitArray[..]) && base64 == codec.toBase64(bytes)
  {
    hide BitAt, Mask;
    var packed := new bv8[(filter.bitArray.Length + 7) / 8](_ => 0);
    NoBits(packed[..], filter.bitArray[..]);
    for i := 0 to filter.bitArray.Length
      invariant packed.Length == (filter.bitArray.Length + 7) / 8 && HoldsFirst(packed[..], filter.bitArray[..], i)
    {
      if filter.bitArray[i] {
        ghost var was := packed[..];
        packed[i / 8] := packed[i / 8] | Mask(i % 8);
        BitSet(was, i, packed[..]);
      }
    }
    ghost var bytes := packed[..];
    assert Packs(bytes, filter.bitArray[..]);
    base64 := codec.toBase64(packed[..]);
  }

  /** The bits in the bytes, with none beyond them. */
  function Unpacked(bytes: Packed, size: nat): seq<bool> {
    seq(size, i requires 0 <= i < size => i / 8 < |bytes| && BitAt(bytes, i))
  }

  lemma {:induction false} NothingSet(shape: Shape)
    ensures forall i :: 0 <= i < shape.Size() ==> !Cleared(shape).bits[i]
    ensures Cleared(shape).wordCount == 0
  {}

  method CreateFromBase64(base64: string, estimate: nat, caseSensitive: bool, hashing: Hashing, codec: Codec)
    returns (created: Option<Filter>)
    ensures created.Some?
    ensures var f := created.value;
            && fresh(f) && f.Valid() && f.shape.caseSensitive == caseSensitive && f.shape.hashing == hashing
            && LeastBits(f.shape.indexBits, DEFAULT_BITS_PER_ELEMENT * estimate)
            && f.shape.nHashFunctions == HashCount(f.shape.Size(), estimate)
            && f.bitArray[..] == Unpacked(codec.fromBase64(base64), f.shape.Size()) && f.wordCount == 0
  {
    hide LeastBits, Cleared, HashCount, Mask;
    created := Create(estimate, caseSensitive, hashing);
    NothingSet(created.value.shape);
    var filter := created.value;
    var bytes := codec.fromBase64(base64);
    for i := 0 to filter.bitArray.Length
      invariant filter.wordCount == 0
      invariant forall j :: 0 <= j < i ==> filter.bitArray[j] == Unpacked(bytes, filter.bitArray.Length)[j]
      invariant forall j :: i <= j < filter.bitArray.Length ==> !filter.bitArray[j]
    {
      if i / 8 < |bytes| {
        if bytes[i / 8] & Mask(i % 8) != 0 {
          filter.bitArray[i] := true;
        }
      }
    }
  }

  lemma {:induction false} LeastBitsUnique(a: nat, b: nat, total: nat)
    requires LeastBits(a, total) && LeastBits(b, total)
    ensures a == b
  {}

  /**
   Reading back what a filter wrote, for the same estimate, gives a filter of the same shape with the
   same bits, so the same words are found. The number of words is not part of the text.
   */
  lemma {:induction false} ExportImport(shape: Shape, back: Shape, s: State, bytes: Packed, codec: Codec, estimate: nat)
    requires RoundTrips(codec) && SizedFor(shape, s) && Packs(bytes, s.bits)
    requires LeastBits(shape.indexBits, DEFAULT_BITS_PER_ELEMENT * estimate)
    requires LeastBits(back.indexBits, DEFAULT_BITS_PER_ELEMENT * estimate)
    requires shape.nHashFunctions == HashCount(shape.Size(), estimate)
    requires back.nHashFunctions == HashCount(back.Size(), estimate)
    requires shape.caseSensitive == back.caseSensitive && shape.hashing == back.hashing
    ensures back == shape
    ensures Unpacked(codec.fromBase64(codec.toBase64(bytes)), back.Size()) == s.bits
  {
    LeastBitsUnique(shape.indexBits, back.indexBits, DEFAULT_BITS_PER_ELEMENT * estimate);
    var u := Unpacked(bytes, |s.bits|);
    assert forall i :: 0 <= i < |s.bits| ==> i / 8 < |bytes|;
    assert forall i :: 0 <= i < |s.bits| ==> u[i] == s.bits[i];
  }

  /** Every word of any history is found again after export and import. */
  lemma {:induction false} FoundAfterImport(shape: Shape, h: History, word: Word, bytes: Packed, codec: Codec)
    requires RoundTrips(codec) && Packs(bytes, StateOf(shape, h).bits)
    ensures var back := State(Unpacked(codec.fromBase64(codec.toBase64(bytes)), shape.Size()), 0);
            && (Has(shape, back, word) <==> Has(shape, StateOf(shape, h), word))
            && (shape.Fold(word) in Contents(shape, h) ==> Has(shape, back, word))
  {
    hide StateOf;
    var s := StateOf(shape, h);
    var u := Unpacked(bytes, |s.bits|);
    assert forall i :: 0 <= i < |s.bits| ==> i / 8 < |bytes|;
    assert forall i :: 0 <= i < |s.bits| ==> u[i] == s.bits[i];
    assert u == s.bits;
    FoundIff(shape, h, word);
  }
}
