/**
 Bloom filters: an array of bits whose size is a power of two, and the bits each word sets. The two
 ways to choose them, from string hashes and from a cryptographic digest, are two kinds of `Hashing`.
 */
module BloomFilter {
  import opened Bytes

  type Word = seq<byte>

  // ----- Words

  /** `tolower` of the C locale. */
  function LowerByte(b: byte): byte {
    if 65 <= b <= 90 then b + 32 else b
  }

  function Lower(w: Word): (l: Word)
    ensures |l| == |w| && forall i :: 0 <= i < |w| ==> l[i] == LowerByte(w[i])
  {
    seq(|w|, i requires 0 <= i < |w| => LowerByte(w[i]))
  }

  lemma {:induction false} LowerTwice(w: Word)
    ensures Lower(Lower(w)) == Lower(w)
  {
    assert forall i :: 0 <= i < |w| ==> Lower(Lower(w))[i] == Lower(w)[i];
  }

  function Decimal(n: nat): Word {
    if n < 10 then [48 + n] else Decimal(n / 10) + [48 + n % 10]
  }

  // ----- Sizes

  function Pow2(k: nat): (p: nat)
    ensures p > 0
  {
    if k == 0 then 1 else 2 * Pow2(k - 1)
  }

  const DEFAULT_BITS_PER_ELEMENT := 15

  /** The least power of two that is not smaller than `total`. */
  ghost predicate LeastBits(bits: nat, total: nat) {
    Pow2(bits) >= total && forall k: nat | k < bits :: Pow2(k) < total
  }

  method IndexBits(total: nat) returns (indexBits: nat)
    ensures LeastBits(indexBits, total)
  {
    var indexValueBits: nat := 0;
    while Pow2(indexValueBits) < total
      invariant indexValueBits > 0 ==> Pow2(indexValueBits - 1) < total
      invariant forall k: nat | k < indexValueBits :: Pow2(k) < total
      decreases total - Pow2(indexValueBits)
    {
      indexValueBits := indexValueBits + 1;
    }
    indexValueBits := indexValueBits + 1;
    indexBits := indexValueBits - 1;
  }

  function HashCount(size: nat, estimate: nat): nat {
    if estimate == 0 then 1
    else
      (0.7 * size as real / estimate as real).Floor
  }

  /** Seven tenths of the bits per word, rounded down. */
  lemma {:induction false} HashCountExact(size: nat, estimate: nat)
    ensures estimate > 0 ==> 10 * (HashCount(size, estimate) * estimate) <= 7 * size
                             && 7 * size < 10 * ((HashCount(size, estimate) + 1) * estimate)
    ensures HashCount(size, 0) == 1
  {
    if estimate > 0 {
      var x := 0.7 * size as real / estimate as real;
      FloorOf(x, HashCount(size, estimate));
      assert x * estimate as real == 0.7 * size as real;
      BetweenProducts(x, HashCount(size, estimate), estimate, size);
    }
  }

  lemma {:induction false} BetweenProducts(x: real, k: int, estimate: nat, size: nat)
    requires estimate > 0 && k as real <= x < (k + 1) as real && x * estimate as real == 0.7 * size as real
    ensures 10 * (k * estimate) <= 7 * size && 7 * size < 10 * ((k + 1) * estimate)
  {
    var n, y := estimate as real, 0.7 * size as real;
    var p, q := k as real * n, (k + 1) as real * n;
    ProductLess(k as real, x, n, p, y);
    ProductLess(x, (k + 1) as real, n, y, q);
    RealProduct(k, estimate, p);
    RealProduct(k + 1, estimate, q);
    Tenths(k * estimate, p, size);
    Tenths((k + 1) * estimate, q, size);
  }

  lemma FloorOf(x: real, k: int)
    requires k == x.Floor
    ensures k as real <= x < (k + 1) as real
  {}

  lemma Tenths(a: int, p: real, size: int)
    requires p == a as real
    ensures p <= 0.7 * size as real <==> 10 * a <= 7 * size
    ensures 0.7 * size as real < p <==> 7 * size < 10 * a
  {}

  lemma RealProduct(a: int, b: int, p: real)
    requires p == a as real * b as real
    ensures (a * b) as real == p
  {}

  /** With fifteen bits per element there are ten to twenty hash functions, whatever the estimate. */
  lemma {:induction false} HashCountBounds(indexBits: nat, estimate: nat)
    requires estimate >= 1 && LeastBits(indexBits, 15 * estimate)
    ensures 15 * estimate <= Pow2(indexBits) < 30 * estimate
    ensures 10 <= HashCount(Pow2(indexBits), estimate) <= 20
  {
    assert indexBits > 0 && Pow2(indexBits) == 2 * Pow2(indexBits - 1);
    var size := Pow2(indexBits) as real;
    var n := estimate as real;
    var x := 0.7 * size / n;
    assert 15.0 * n <= size < 30.0 * n;
    assert x * n == 0.7 * size;
    QuotientBounds(x, n, 0.7 * size);
  }

  lemma {:induction false} QuotientBounds(x: real, n: real, y: real)
    requires n > 0.0 && x * n == y && 10.5 * n <= y < 21.0 * n
    ensures 10.5 <= x < 21.0
  {
    if x < 10.5 {
      ProductLess(x, 10.5, n, y, 10.5 * n);
    }
    if x >= 21.0 {
      ProductLess(21.0, x, n, 21.0 * n, y);
    }
  }

  lemma {:induction false} ProductLess(a: real, b: real, n: real, p: real, q: real)
    requires a <= b && n > 0.0 && p == a * n && q == b * n
    ensures p <= q && (a < b ==> p < q)
  {
    var d := (b - a) * n;
    assert q - p == d;
    if a < b {
      assert d > 0.0;
    }
  }

  // ----- The bits of a word

  datatype Algorithm = Md5 | Sha256 | Sha384 | Sha512

  type Digest = d: seq<byte> | |d| >= 16 witness seq(16, _ => 0)

  /** A string hash, or a digest by one of four algorithms. */
  datatype Hashing = Standard(hasher: Word -> int) | Cryptographic(digest: (Algorithm, Word) -> Digest)

  function AlgorithmFor(nHashFunctions: nat): Algorithm {
    if nHashFunctions <= 4 then Md5
    else if nHashFunctions <= 8 then Sha256
    else if nHashFunctions <= 12 then Sha384
    else Sha512
  }

  function HashOffset(nHashFunctions: nat): nat {
    if nHashFunctions > 16 then 5 else 4
  }

  function FourBytes(d: Digest, at: nat): nat {
    d[at % |d|] as nat * 0x100_0000 + d[(at + 1) % |d|] as nat * 0x1_0000 + d[(at + 2) % |d|] as nat * 0x100
    + d[(at + 3) % |d|] as nat
  }

  /** What a filter never changes. */
  datatype Shape = Shape(indexBits: nat, nHashFunctions: nat, caseSensitive: bool, hashing: Hashing) {

    function Size(): nat {
      Pow2(indexBits)
    }

    function Fold(word: Word): Word {
      if caseSensitive then word else Lower(word)
    }

    /**
     The `i`-th index of a folded word. Products and shifts that overflow an `int` lose multiples of the
     size only, so masking them leaves the remainder.
     */
    function Index(folded: Word, i: nat): (index: nat)
      ensures index < Size()
    {
      match hashing
      case Standard(hasher) => (hasher(folded + Decimal(i)) * i * 7) % Size()
      case Cryptographic(digest) =>
        FourBytes(digest(AlgorithmFor(nHashFunctions), folded), i * HashOffset(nHashFunctions)) % Size()
    }

    function FoldedIndexes(folded: Word): (indexes: seq<nat>)
      ensures |indexes| == nHashFunctions && forall i | i in indexes :: i < Size()
    {
      seq(nHashFunctions, i requires 0 <= i < nHashFunctions => Index(folded, i))
    }

    function IndexesOf(word: Word): seq<nat> {
      FoldedIndexes(Fold(word))
    }
  }

  /** A 32-bit integer in two's complement. */
  function Wrap(n: int): int {
    (n + 0x8000_0000) % 0x1_0000_0000 - 0x8000_0000
  }

  lemma {:induction false} PowersMultiply(k: nat, n: nat)
    ensures Pow2(k + n) == Pow2(n) * Pow2(k)
  {
    if n > 0 {
      PowersMultiply(k, n - 1);
      assert Pow2(k + n) == 2 * Pow2(k + (n - 1));
      Associate(2, Pow2(n - 1), Pow2(k));
    }
  }

  lemma Associate(a: int, b: int, c: int)
    ensures a * (b * c) == (a * b) * c
  {}

  lemma AtLeast(q: int, d: int)
    requires q >= 1 && d > 0
    ensures q * d >= d
  {}

  lemma ModUnique(y: int, d: int, q: int, r: int)
    requires 0 <= r < d && y == q * d + r
    ensures y % d == r
  {
    var q', r' := y / d, y % d;
    assert y == q' * d + r';
    assert (q' - q) * d == r - r' && (q - q') * d == r' - r;
    if q' > q {
      AtLeast(q' - q, d);
    } else if q > q' {
      AtLeast(q - q', d);
    }
  }

  lemma ModOf(q: int, d: int, x: int)
    requires d > 0
    ensures (q * d + x) % d == x % d
  {
    assert x == (x / d) * d + x % d;
    assert q * d + x == (q + x / d) * d + x % d;
    ModUnique(q * d + x, d, q + x / d, x % d);
  }

  /** The low bits of an integer survive its wrapping. */
  lemma {:induction false} WrapKeepsLowBits(n: int, k: nat)
    requires k <= 32
    ensures Wrap(n) % Pow2(k) == n % Pow2(k)
  {
    hide Pow2;
    Pow32();
    PowersMultiply(k, 32 - k);
    var d, m := Pow2(k), Pow2(32 - k);
    assert k + (32 - k) == 32;
    var q := (n + 0x8000_0000) / 0x1_0000_0000;
    assert Wrap(n) == n - q * 0x1_0000_0000;
    Associate(-q, m, d);
    assert Wrap(n) == (-q * m) * d + n;
    ModOf(-q * m, d, n);
  }

  lemma Pow32()
    ensures Pow2(32) == 0x1_0000_0000
  {
    assert Pow2(8) == 256;
    assert Pow2(16) == 0x1_0000;
    assert Pow2(24) == 0x100_0000;
  }

  lemma ProductKeepsLowBits(a: int, b: int, c: int, d: nat)
    requires d > 0 && a % d == b % d
    ensures (a * c) % d == (b * c) % d
  {
    var q := a / d - b / d;
    assert a - b == q * d;
    assert a * c == (q * c) * d + b * c;
    ModOf(q * c, d, b * c);
  }

  /** In 32-bit arithmetic, masking the product of hash, number and 7 gives the same index, overflows or not. */
  lemma {:induction false} IndexWraps(shape: Shape, folded: Word, i: nat)
    requires shape.hashing.Standard? && shape.indexBits <= 30
    ensures shape.Index(folded, i)
            == Wrap(Wrap(Wrap(shape.hashing.hasher(folded + Decimal(i))) * i) * 7) % Pow2(shape.indexBits)
  {
    hide Pow2, Wrap, Decimal;
    var k, d := shape.indexBits, shape.Size();
    var hash := shape.hashing.hasher(folded + Decimal(i));
    WrapKeepsLowBits(hash, k);
    ProductKeepsLowBits(Wrap(hash), hash, i, d);
    WrapKeepsLowBits(Wrap(hash) * i, k);
    ProductKeepsLowBits(Wrap(Wrap(hash) * i), hash * i, 7, d);
    WrapKeepsLowBits(Wrap(Wrap(hash) * i) * 7, k);
  }

  /** The four digest bytes of an index, most significant first; the offset is 4, or 5 for more than 16 functions. */
  lemma {:induction false} DigestIndex(shape: Shape, folded: Word, i: nat, a: byte, b: byte, c: byte, d: byte)
    requires shape.hashing.Cryptographic? && i < shape.nHashFunctions
    requires var at := i * if shape.nHashFunctions > 16 then 5 else 4;
             var h := shape.hashing.digest(if shape.nHashFunctions > 12 then Sha512
                                           else if shape.nHashFunctions > 8 then Sha384
                                           else if shape.nHashFunctions > 4 then Sha256
                                           else Md5, folded);
             a == h[at % |h|] && b == h[(at + 1) % |h|] && c == h[(at + 2) % |h|] && d == h[(at + 3) % |h|]
    ensures shape.Index(folded, i) == (((a * 256 + b) * 256 + c) * 256 + d) % Pow2(shape.indexBits)
  {
    hide Pow2;
  }

  // ----- What the operations do to the bits

  datatype State = State(bits: seq<bool>, wordCount: int)

  predicate SizedFor(shape: Shape, s: State) {
    |s.bits| == shape.Size()
  }

  function Cleared(shape: Shape): (s: State)
    ensures SizedFor(shape, s)
  {
    State(seq(shape.Size(), _ => false), 0)
  }

  function Added(shape: Shape, s: State, word: Word): (r: State)
    ensures |r.bits| == |s.bits|
  {
    State(seq(|s.bits|, i requires 0 <= i < |s.bits| => s.bits[i] || i in shape.IndexesOf(word)), s.wordCount + 1)
  }

  predicate Accepts(s: State) {
    s.wordCount < |s.bits| / 2
  }

  function Merged(s: State, other: State): (r: State)
    requires |other.bits| >= |s.bits|
    ensures |r.bits| == |s.bits|
  {
    State(seq(|s.bits|, i requires 0 <= i < |s.bits| => s.bits[i] || other.bits[i]), s.wordCount + other.wordCount)
  }

  predicate Has(shape: Shape, s: State, word: Word)
    requires SizedFor(shape, s)
  {
    forall i | i in shape.IndexesOf(word) :: s.bits[i]
  }

  class Filter {
    const shape: Shape
    const bitArray: array<bool>
    var wordCount: int

    ghost predicate Valid() {
      bitArray.Length == shape.Size()
    }

    function View(): State
      reads this, bitArray
    {
      State(bitArray[..], wordCount)
    }

    /** An empty filter for about `estimate` words. */
    constructor (estimate: nat, caseSensitive: bool, bitsPerElement: nat, hashing: Hashing)
      ensures Valid() && fresh(bitArray) && View() == Cleared(shape)
      ensures LeastBits(shape.indexBits, bitsPerElement * estimate)
      ensures shape.caseSensitive == caseSensitive && shape.hashing == hashing
      ensures shape.nHashFunctions == HashCount(shape.Size(), estimate)
    {
      var indexBits := IndexBits(bitsPerElement * estimate);
      var count := HashCount(Pow2(indexBits), estimate);
      shape := Shape(indexBits, count, caseSensitive, hashing);
      bitArray := new bool[Pow2(indexBits)](_ => false);
      wordCount := 0;
      new;
      assert bitArray[..] == Cleared(shape).bits;
    }

    method GetIndexes(word: Word) returns (indexes: seq<nat>)
      ensures indexes == shape.IndexesOf(word)
    {
      var w := if shape.caseSensitive then word else Lower(word);
      indexes := [];
      for i := 0 to shape.nHashFunctions
        invariant indexes == shape.FoldedIndexes(w)[..i]
      {
        indexes := indexes + [shape.Index(w, i)];
      }
    }

    method AddWord(word: Word)
      requires Valid()
      modifies `wordCount, bitArray
      ensures View() == Added(shape, old(View()), word)
    {
      var indexes := GetIndexes(word);
      for k := 0 to |indexes|
        invariant forall i :: 0 <= i < bitArray.Length ==> bitArray[i] == (old(bitArray[i]) || i in indexes[..k])
        invariant wordCount == old(wordCount)
      {
        bitArray[indexes[k]] := true;
      }
      wordCount := wordCount + 1;
    }

    method HasWord(word: Word) returns (has: bool)
      requires Valid()
      ensures has <==> Has(shape, View(), word)
    {
      var indexes := GetIndexes(word);
      for k := 0 to |indexes|
        invariant forall j :: 0 <= j < k ==> bitArray[indexes[j]]
      {
        if !bitArray[indexes[k]] {
          assert indexes[k] in shape.IndexesOf(word);
          return false;
        }
      }
      has := true;
    }

    method TryAddWord(word: Word) returns (added: bool)
      requires Valid()
      modifies `wordCount, bitArray
      ensures added <==> Accepts(old(View()))
      ensures View() == if added then Added(shape, old(View()), word) else old(View())
    {
      if wordCount < bitArray.Length / 2 {
        AddWord(word);
        return true;
      }
      added := false;
    }

    method MergeWith(other: Filter)
      requires Valid() && other.bitArray.Length >= bitArray.Length
      modifies `wordCount, bitArray
      ensures View() == Merged(old(View()), old(other.View()))
    {
      for i := 0 to bitArray.Length
        invariant forall j :: 0 <= j < i ==> bitArray[j] == (old(bitArray[j]) || old(other.bitArray[j]))
        invariant forall j :: i <= j < bitArray.Length ==> bitArray[j] == old(bitArray[j])
        invariant forall j :: i <= j < bitArray.Length ==> other.bitArray[j] == old(other.bitArray[j])
        invariant wordCount == old(wordCount)
      {
        bitArray[i] := bitArray[i] || other.bitArray[i];
      }
      wordCount := wordCount + other.wordCount;
    }

    method Clear()
      requires Valid()
      modifies `wordCount, bitArray
      ensures View() == Cleared(shape)
    {
      for i := 0 to bitArray.Length
        invariant forall j :: 0 <= j < i ==> !bitArray[j]
      {
        bitArray[i] := false;
      }
      wordCount := 0;
      assert bitArray[..] == Cleared(shape).bits;
    }
  }

  /** A filter of all words of a list. */
  method FromWords(wordList: seq<Word>, caseSensitive: bool, bitsPerElement: nat, hashing: Hashing)
    returns (filter: Filter)
    ensures fresh(filter) && fresh(filter.bitArray) && filter.Valid()
    ensures filter.shape.caseSensitive == caseSensitive && filter.shape.hashing == hashing
    ensures filter.View() == StateOf(filter.shape, Adding(wordList))
    ensures LeastBits(filter.shape.indexBits, bitsPerElement * |wordList|)
    ensures filter.shape.nHashFunctions == HashCount(filter.shape.Size(), |wordList|)
  {
    hide Added, Cleared;
    filter := new Filter(|wordList|, caseSensitive, bitsPerElement, hashing);
    for i := 0 to |wordList|
      invariant filter.View() == StateOf(filter.shape, Adding(wordList[..i]))
    {
      ghost var next := wordList[..i + 1];
      assert next[..i] == wordList[..i];
      filter.AddWord(wordList[i]);
    }
    assert wordList[..|wordList|] == wordList;
  }

  // ----- Runs

  /** How a filter came to be; a merge takes in a filter of the same shape with a history of its own. */
  datatype History =
    | Empty
    | Add(before: History, word: Word)
    | TryAdd(before: History, word: Word)
    | Merge(before: History, other: History)
    | Clear(before: History)

  function Adding(words: seq<Word>): History {
    if words == [] then Empty else Add(Adding(words[..|words| - 1]), words[|words| - 1])
  }

  function StateOf(shape: Shape, h: History): (s: State)
    ensures SizedFor(shape, s)
  {
    match h
    case Empty => Cleared(shape)
    case Add(before, word) => Added(shape, StateOf(shape, before), word)
    case TryAdd(before, word) =>
      var s := StateOf(shape, before);
      if Accepts(s) then Added(shape, s, word) else s
    case Merge(before, other) => Merged(StateOf(shape, before), StateOf(shape, other))
    case Clear(before) => Cleared(shape)
  }

  /** The folded words a filter should hold. */
  function Contents(shape: Shape, h: History): set<Word> {
    match h
    case Empty => {}
    case Add(before, word) => Contents(shape, before) + {shape.Fold(word)}
    case TryAdd(before, word) =>
      if Accepts(StateOf(shape, before)) then Contents(shape, before) + {shape.Fold(word)} else Contents(shape, before)
    case Merge(before, other) => Contents(shape, before) + Contents(shape, other)
    case Clear(before) => {}
  }

  /** How many words were accepted since the last Clear, those of merged filters included. */
  function Count(shape: Shape, h: History): int {
    match h
    case Empty => 0
    case Add(before, _) => Count(shape, before) + 1
    case TryAdd(before, _) =>
      Count(shape, before) + if 2 * Count(shape, before) + 2 <= Pow2(shape.indexBits) then 1 else 0
    case Merge(before, other) => Count(shape, before) + Count(shape, other)
    case Clear(_) => 0
  }

  /** A conditional add takes place while there are fewer words than half the bits. */
  lemma {:induction false} CountIsKept(shape: Shape, h: History)
    ensures StateOf(shape, h).wordCount == Count(shape, h)
    ensures Accepts(StateOf(shape, h)) <==> 2 * Count(shape, h) + 2 <= Pow2(shape.indexBits)
  {
    match h {
      case Empty =>
      case Add(before, _) => CountIsKept(shape, before);
      case TryAdd(before, _) => CountIsKept(shape, before);
      case Merge(before, other) =>
        CountIsKept(shape, before);
        CountIsKept(shape, other);
      case Clear(_) =>
    }
  }

  ghost predicate Covers(shape: Shape, words: set<Word>, i: nat) {
    exists w :: w in words && i in shape.FoldedIndexes(w)
  }

  /** After any run a bit is set exactly when a word that was added sets it. */
  lemma {:induction false} BitsExact(shape: Shape, h: History, i: nat)
    requires i < shape.Size()
    ensures StateOf(shape, h).bits[i] <==> Covers(shape, Contents(shape, h), i)
  {
    match h {
      case Empty =>
      case Add(before, word) =>
        BitsExact(shape, before, i);
      case TryAdd(before, word) =>
        BitsExact(shape, before, i);
      case Merge(before, other) =>
        BitsExact(shape, before, i);
        BitsExact(shape, other, i);
      case Clear(before) =>
    }
  }

  /**
   A word is found exactly when words that were added set all its bits; so a word that was added is
   always found, in any letter case unless the filter distinguishes them.
   */
  lemma {:induction false} FoundIff(shape: Shape, h: History, word: Word)
    ensures Has(shape, StateOf(shape, h), word)
            <==> forall i | i in shape.IndexesOf(word) :: Covers(shape, Contents(shape, h), i)
    ensures shape.Fold(word) in Contents(shape, h) ==> Has(shape, StateOf(shape, h), word)
  {
    forall i | i in shape.IndexesOf(word)
      ensures StateOf(shape, h).bits[i] <==> Covers(shape, Contents(shape, h), i)
    {
      BitsExact(shape, h, i);
    }
  }

  lemma {:induction false} AddingContents(shape: Shape, words: seq<Word>)
    ensures forall w | w in words :: shape.Fold(w) in Contents(shape, Adding(words))
  {
    if words != [] {
      var front := words[..|words| - 1];
      AddingContents(shape, front);
      assert words == front + [words[|words| - 1]];
    }
  }
}
