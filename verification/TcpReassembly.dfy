/**
 Reassembly of one direction of a TCP session: segments are buffered by sequence number, the end of
 the contiguous run is tracked, and up to six packets at a time are handed out and then removed.

 The effect of each operation on the buffered data is a function here, with what holds of those
 functions over every run; the module TcpDataStream has the class itself, proved against them.
 */
module TcpReassembly {
  import opened Bytes
  import opened OrderedMaps

  type Data = seq<byte>

  const SEQUENCE_SPACE := 0x1_0000_0000
  const MAX_PACKET_FRAGMENTS := 6

  /** What the stream holds: `expected` is the end of the run the stream has seen without a gap. */
  datatype Buffer = Buffer(initial: int, expected: int, data: map<int, Data>, total: int)

  ghost predicate NonEmpty(data: map<int, Data>) {
    forall k | k in data :: data[k] != []
  }

  ghost function KeysFrom(data: map<int, Data>, e: int): set<int> {
    set k | k in data && e <= k
  }

  /** Where the chain of buffered segments that starts at `e` ends. */
  function Frontier(data: map<int, Data>, e: int): (f: int)
    requires NonEmpty(data)
    ensures e <= f && f !in data
    decreases KeysFrom(data, e)
  {
    if e in data then
      assert e in KeysFrom(data, e) && e !in KeysFrom(data, e + |data[e]|);
      Frontier(data, e + |data[e]|)
    else e
  }

  function Insert(b: Buffer, seqNo: int, d: Data): (r: Buffer)
    requires NonEmpty(b.data)
    ensures NonEmpty(r.data)
  {
    if d == [] || seqNo in b.data then b
    else
      var data := b.data[seqNo := d];
      b.(data := data, total := b.total + |d|,
         expected := if b.expected == seqNo then Frontier(data, b.expected) else b.expected)
  }

  /** Drops `n` bytes from the front, cutting the last segment touched. */
  function Remove(data: map<int, Data>, n: int): (r: map<int, Data>)
    requires NonEmpty(data)
    ensures NonEmpty(r)
    decreases |data|
  {
    if n <= 0 || |data| == 0 then data
    else
      var k := FirstKey(data);
      if |data[k]| <= n then Remove(Rest(data), n - |data[k]|)
      else Rest(data)[k + n := data[k][n..]]
  }

  lemma RemoveNothing(data: map<int, Data>, n: int)
    requires NonEmpty(data) && (n <= 0 || |data| == 0)
    ensures Remove(data, n) == data
  {
  }

  lemma RemoveWhole(data: map<int, Data>, n: int)
    requires NonEmpty(data) && n > 0 && |data| > 0 && |data[FirstKey(data)]| <= n
    ensures NonEmpty(Rest(data))
    ensures Remove(data, n) == Remove(Rest(data), n - |data[FirstKey(data)]|)
  {
  }

  lemma RemoveCut(data: map<int, Data>, n: int)
    requires NonEmpty(data) && |data| > 0 && 0 < n < |data[FirstKey(data)]|
    ensures Remove(data, n) == Rest(data)[FirstKey(data) + n := data[FirstKey(data)][n..]]
  {
  }

  // ----- Reading

  /** The number of packets that follow each other without a gap from `e` on. */
  function PacketsFrom(data: map<int, Data>, e: int): (c: nat)
    ensures c <= |data|
    decreases |data|
  {
    if |data| > 0 && FirstKey(data) == e then 1 + PacketsFrom(Rest(data), e + |data[e]|) else 0
  }

  function PacketsToRead(b: Buffer): (c: nat)
    ensures c <= |b.data|
  {
    if |b.data| == 0 then 0 else PacketsFrom(b.data, FirstKey(b.data))
  }

  function BytesToRead(b: Buffer): int {
    if |b.data| == 0 then 0
    else
      var first := FirstKey(b.data);
      if first != b.initial && first != b.expected && |b.data| == 1 then |b.data[first]|
      else if b.expected > first then b.expected - first
      else 0
  }

  /** The end of the n-th packet. */
  function EndOf(data: map<int, Data>, n: nat): int
    requires 1 <= n <= |data|
    decreases |data|
  {
    if n == 1 then FirstKey(data) + |data[FirstKey(data)]| else EndOf(Rest(data), n - 1)
  }

  /** The byte count of a virtual packet made of the first `n` packets. */
  function ByteCount(data: map<int, Data>, n: nat): int
    requires n <= |data| || |data| == 0
  {
    if n == 0 || |data| == 0 then 0 else EndOf(data, n) - FirstKey(data)
  }

  /** The bytes of the first `n` packets, or of all there are. */
  function FirstBytes(data: map<int, Data>, n: nat): Data
    decreases |data|
  {
    if n == 0 || |data| == 0 then [] else data[FirstKey(data)] + FirstBytes(Rest(data), n - 1)
  }

  predicate CanAppend(b: Buffer, n: nat)
    requires n <= |b.data| || |b.data| == 0
  {
    BytesToRead(b) > ByteCount(b.data, n) && PacketsToRead(b) > n && n < MAX_PACKET_FRAGMENTS
  }

  /** The size at which a virtual packet that starts with `n` packets stops growing. */
  function Gather(b: Buffer, n: nat): (r: nat)
    requires n <= |b.data| || |b.data| == 0
    ensures r <= |b.data| || |b.data| == 0
    ensures n <= r
    decreases MAX_PACKET_FRAGMENTS - n
  {
    if CanAppend(b, n) then Gather(b, n + 1) else n
  }

  predicate HasMissing(b: Buffer) {
    b.total < AsInt32((b.expected - b.initial) % SEQUENCE_SPACE)
  }

  /** `static_cast<int>` of an unsigned 32-bit value. */
  function AsInt32(u: int): int {
    if u < 0x8000_0000 then u else u - SEQUENCE_SPACE
  }

  // ----- The missing-segment test, over every run

  datatype Op = Add(seqNo: int, d: Data) | Drop(n: int) | Clear | SetInitial(seqNo: int)

  function Cleared(b: Buffer): Buffer {
    b.(data := map[], total := 0)
  }

  function Apply(b: Buffer, op: Op): (r: Buffer)
    requires NonEmpty(b.data)
    ensures NonEmpty(r.data)
  {
    match op
    case Add(s, d) => Insert(b, s, d)
    case Drop(n) => b.(data := Remove(b.data, n))
    case Clear => Cleared(b)
    case SetInitial(s) => b.(initial := s)
  }

  function Run(b: Buffer, ops: seq<Op>): (r: Buffer)
    requires NonEmpty(b.data)
    ensures NonEmpty(r.data)
    decreases ops
  {
    if ops == [] then b else Run(Apply(b, ops[0]), ops[1..])
  }

  function Fresh(initial: int): Buffer {
    Buffer(initial, initial, map[], 0)
  }

  /** How many of `len` bytes at `k` lie at or above `e`. */
  ghost function Portion(k: int, len: nat, e: int): nat {
    if k + len <= e then 0 else if e <= k then len else k + len - e
  }

  ghost function Portions(data: map<int, Data>, e: int): map<int, int> {
    map k | k in data :: Portion(k, |data[k]|, e)
  }

  /** The buffered bytes at or above `e`. */
  ghost function Outstanding(data: map<int, Data>, e: int): int {
    Sum(Portions(data, e))
  }

  /** What was counted beyond the bytes the run has passed and those still ahead of it. */
  ghost function Surplus(b: Buffer): int {
    b.total - (b.expected - b.initial) - Outstanding(b.data, b.expected)
  }

  /** Every byte the run has passed, and every byte still ahead of it, was counted. */
  ghost predicate Accounted(b: Buffer) {
    b.initial <= b.expected && 0 <= Surplus(b)
  }

  lemma PortionsWithout(data: map<int, Data>, e: int, k: int)
    ensures Portions(data - {k}, e) == Portions(data, e) - {k}
  {
  }

  lemma PortionsWith(data: map<int, Data>, e: int, k: int, d: Data)
    ensures Portions(data[k := d], e) == Portions(data, e)[k := Portion(k, |d|, e)]
  {
  }

  lemma {:induction false} SumNonNegative(m: map<int, int>)
    requires forall k | k in m :: 0 <= m[k]
    ensures 0 <= Sum(m)
    decreases |m|
  {
    if |m| > 0 {
      SumNonNegative(Rest(m));
    }
  }

  lemma {:induction false} AdvanceOutstanding(data: map<int, Data>, e: int)
    requires e in data
    ensures Outstanding(data, e + |data[e]|) + |data[e]| <= Outstanding(data, e)
  {
    hide Sum;
    var m, n := Portions(data, e), Portions(data, e + |data[e]|);
    SumRemove(m, e);
    SumRemove(n, e);
    SumMonotone(n - {e}, m - {e});
  }

  lemma {:induction false} FrontierOutstanding(data: map<int, Data>, e: int)
    requires NonEmpty(data)
    ensures Outstanding(data, Frontier(data, e)) + Frontier(data, e) - e <= Outstanding(data, e)
    decreases KeysFrom(data, e)
  {
    if e in data {
      AdvanceOutstanding(data, e);
      assert e in KeysFrom(data, e) && e !in KeysFrom(data, e + |data[e]|);
      FrontierOutstanding(data, e + |data[e]|);
    }
  }

  lemma {:induction false} DropOutstanding(data: map<int, Data>, k: int, e: int)
    requires k in data
    ensures Outstanding(data, e) == Portion(k, |data[k]|, e) + Outstanding(data - {k}, e)
  {
    PortionsWithout(data, e, k);
    SumRemove(Portions(data, e), k);
  }

  lemma {:induction false} AddOutstanding(data: map<int, Data>, k: int, d: Data, e: int)
    ensures Outstanding(data[k := d], e) == Outstanding(data, e) + Portion(k, |d|, e)
                                            - (if k in data then Portion(k, |data[k]|, e) else 0)
  {
    PortionsWith(data, e, k, d);
    SumUpdate(Portions(data, e), k, Portion(k, |d|, e));
  }

  lemma {:induction false} RemoveOutstanding(data: map<int, Data>, n: int, e: int)
    requires NonEmpty(data)
    ensures Outstanding(Remove(data, n), e) <= Outstanding(data, e)
    decreases |data|
  {
    hide Outstanding;
    if n > 0 && |data| > 0 {
      var k := FirstKey(data);
      DropOutstanding(data, k, e);
      if |data[k]| <= n {
        RemoveOutstanding(Rest(data), n - |data[k]|, e);
      } else {
        AddOutstanding(Rest(data), k + n, data[k][n..], e);
      }
    }
  }

  /** Whatever is added, the surplus does not shrink. */
  lemma {:induction false} InsertSurplus(b: Buffer, seqNo: int, d: Data)
    requires NonEmpty(b.data)
    ensures var r := Insert(b, seqNo, d);
            r.initial == b.initial && b.expected <= r.expected && Surplus(b) <= Surplus(r)
  {
    hide Outstanding;
    if d != [] && seqNo !in b.data {
      var data := b.data[seqNo := d];
      AddOutstanding(b.data, seqNo, d, b.expected);
      if b.expected == seqNo {
        FrontierOutstanding(data, b.expected);
      }
    }
  }

  /** Nor does it when bytes are removed. */
  lemma {:induction false} RemoveSurplus(b: Buffer, n: int)
    requires NonEmpty(b.data)
    ensures Surplus(b) <= Surplus(b.(data := Remove(b.data, n)))
  {
    RemoveOutstanding(b.data, n, b.expected);
  }

  predicate AddsAndRemoves(ops: seq<Op>) {
    forall op | op in ops :: op.Add? || op.Drop?
  }

  lemma {:induction false} RunAccounted(b: Buffer, ops: seq<Op>)
    requires NonEmpty(b.data) && Accounted(b) && AddsAndRemoves(ops)
    ensures Accounted(Run(b, ops))
    decreases ops
  {
    hide Surplus, Insert;
    if ops != [] {
      assert ops[0] in ops;
      match ops[0] {
        case Add(s, d) => InsertSurplus(b, s, d);
        case Drop(n) => RemoveSurplus(b, n);
      }
      RunAccounted(Apply(b, ops[0]), ops[1..]);
    }
  }

  lemma AccountedNotMissing(b: Buffer)
    requires Accounted(b)
    ensures !HasMissing(b)
  {
    hide Sum;
    SumNonNegative(Portions(b.data, b.expected));
  }

  /**
   Whatever is added (overlapping, re-sent, out of order) and whatever is removed, the stream never
   reports a missing segment: the counter that is compared counts every byte the contiguous run has
   passed.
   */
  lemma {:induction false} NeverMissing(initial: int, ops: seq<Op>)
    requires AddsAndRemoves(ops)
    ensures !HasMissing(Run(Fresh(initial), ops))
  {
    hide Run;
    assert Accounted(Fresh(initial)) by {
      assert Portions(map[], initial) == map[];
    }
    RunAccounted(Fresh(initial), ops);
    AccountedNotMissing(Run(Fresh(initial), ops));
  }

  /** The bytes of the segments taken since the last Clear, `before` of them before the run. */
  function TakenSinceClear(b: Buffer, ops: seq<Op>, before: int): int
    requires NonEmpty(b.data)
    decreases ops
  {
    if ops == [] then before
    else
      TakenSinceClear(Apply(b, ops[0]), ops[1..],
                      match ops[0]
                      case Add(s, d) => if s in b.data then before else before + |d|
                      case Clear => 0
                      case _ => before)
  }

  /** The initial number set last. */
  function LastInitial(initial: int, ops: seq<Op>): int
    decreases ops
  {
    if ops == [] then initial
    else LastInitial(if ops[0].SetInitial? then ops[0].seqNo else initial, ops[1..])
  }

  lemma {:induction false} TakenIsTotal(b: Buffer, ops: seq<Op>)
    requires NonEmpty(b.data)
    ensures Run(b, ops).total == TakenSinceClear(b, ops, b.total)
    ensures Run(b, ops).initial == LastInitial(b.initial, ops)
    decreases ops
  {
    if ops != [] {
      TakenIsTotal(Apply(b, ops[0]), ops[1..]);
    }
  }

  /**
   With Clear and with the setter of the initial number, the stream reports a missing segment exactly
   when fewer bytes have been taken since the last Clear than lie between the initial number set last
   and the expected one.
   */
  lemma {:induction false} MissingIff(initial: int, ops: seq<Op>)
    ensures var r := Run(Fresh(initial), ops);
            var distance := (r.expected - LastInitial(initial, ops)) % 0x1_0000_0000;
            HasMissing(r) <==> TakenSinceClear(Fresh(initial), ops, 0)
                               < if distance >= 0x8000_0000 then distance - 0x1_0000_0000 else distance
  {
    hide Run;
    TakenIsTotal(Fresh(initial), ops);
  }

  /** One byte that is read and cleared is missed; so are bytes that a changed initial number asks for. */
  lemma {:induction false} MissingExamples()
    ensures HasMissing(Run(Fresh(0), [Add(0, [7]), Clear]))
    ensures HasMissing(Run(Fresh(100), [SetInitial(0)]))
  {
    var b := Fresh(0);
    var b1 := Insert(b, 0, [7]);
    assert Frontier(b.data[0 := [7]], 0) == Frontier(b.data[0 := [7]], 1) == 1;
    var ops := [Add(0, [7]), Clear];
    assert ops[1..] == [Clear] && [Clear][1..] == [];
    assert Run(b, ops) == Run(b1, [Clear]) == Cleared(b1);
    assert [SetInitial(0)][1..] == [];
  }
}
