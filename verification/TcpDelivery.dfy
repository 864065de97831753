/**
 What a TCP stream delivers of a text that was sent in segments: whatever the order of arrival, reading
 gives a prefix of the text, and in the end all of it.
 */
module TcpDelivery {
  import opened Bytes
  import opened OrderedMaps
  import opened TcpReassembly

  // ----- A text cut into segments

  /** `text`, sent from sequence number `initial` on and cut at `cuts` (both ends included). */
  datatype Sender = Sender(initial: int, text: Data, cuts: set<int>) {
    function End(): int {
      initial + |text|
    }

    ghost predicate Valid() {
      initial in cuts && End() in cuts && forall p | p in cuts :: initial <= p <= End()
    }

    ghost predicate IsPiece(p: int, low: int) {
      p in cuts || p == low
    }

    /** The buffer holds exact pieces of the text, and all of those in [low, e). */
    ghost predicate Covers(data: map<int, Data>, low: int, e: int)
      requires Valid()
    {
      && initial <= low <= e <= End()
      && e in cuts
      && (forall k | k in data :: low <= k < End() && IsPiece(k, low) && data[k] == Segment(this, k))
      && (forall k | low <= k < e && IsPiece(k, low) :: k in data)
    }

    /** Everything in [low, e) is there, and the segment at `e` is missing. */
    ghost predicate Tiles(data: map<int, Data>, low: int, e: int)
      requires Valid()
    {
      Covers(data, low, e) && e !in data
    }
  }

  function Slice(s: Sender, p: int, q: int): (d: Data)
    requires s.initial <= p <= q <= s.End()
    ensures |d| == q - p
  {
    s.text[p - s.initial..q - s.initial]
  }

  /** The first cut behind `p`. */
  function Next(s: Sender, p: int): (q: int)
    requires s.Valid() && p < s.End()
    ensures q in s.cuts && p < q <= s.End() && forall r | r in s.cuts && p < r :: q <= r
  {
    var later := set r | r in s.cuts && p < r;
    assert s.End() in later;
    assert forall r | r in s.cuts && p < r :: r in later;
    Min(later)
  }

  /** The segment sent with sequence number `p`, or what is left of it from `p` on. */
  function Segment(s: Sender, p: int): (d: Data)
    requires s.Valid() && s.initial <= p < s.End()
    ensures |d| == Next(s, p) - p
  {
    Slice(s, p, Next(s, p))
  }

  lemma {:induction false} FrontierTiles(s: Sender, data: map<int, Data>, low: int, e: int)
    requires s.Valid() && s.Covers(data, low, e) && NonEmpty(data)
    ensures s.Tiles(data, low, Frontier(data, e))
    decreases KeysFrom(data, e)
  {
    if e in data {
      var next := e + |data[e]|;
      assert next == Next(s, e);
      assert e in KeysFrom(data, e) && e !in KeysFrom(data, next);
      FrontierTiles(s, data, low, next);
    }
  }

  /** The first packet of a readable buffer is the next piece of the text. */
  lemma {:induction false} FirstOfTiles(s: Sender, data: map<int, Data>, low: int, e: int)
    requires s.Valid() && s.Tiles(data, low, e) && low < e
    ensures low in data && |data| > 0 && FirstKey(data) == low
    ensures data[low] == Segment(s, low) && |data[low]| == Next(s, low) - low && Next(s, low) <= e
    ensures s.Tiles(Rest(data), Next(s, low), e)
  {
    assert s.IsPiece(low, low);
    assert low in data;
    assert |data.Keys| > 0;
    var rest, next := Rest(data), Next(s, low);
    forall k | k in rest ensures next <= k && s.IsPiece(k, next) && rest[k] == Segment(s, k) {
      assert k in data && k != low && s.IsPiece(k, low);
    }
    forall k | next <= k < e && s.IsPiece(k, next) ensures k in rest {
      assert s.IsPiece(k, low);
    }
  }

  lemma {:induction false} RemoveTiles(s: Sender, data: map<int, Data>, low: int, e: int, n: nat)
    requires s.Valid() && s.Tiles(data, low, e) && NonEmpty(data)
    requires n <= e - low
    ensures s.Tiles(Remove(data, n), low + n, e)
    decreases |data|
  {
    hide *;
    if n == 0 {
      RemoveNothing(data, n);
    } else {
      FirstOfTiles(s, data, low, e);
      if |data[low]| <= n {
        RemoveWhole(data, n);
        RemoveTiles(s, Rest(data), Next(s, low), e, n - |data[low]|);
      } else {
        RemoveCut(data, n);
        CutFirst(s, data, low, e, n);
      }
    }
  }

  lemma {:induction false} CutFirst(s: Sender, data: map<int, Data>, low: int, e: int, n: nat)
    requires s.Valid() && s.Tiles(data, low, e) && low < e
    requires low in data && |data| > 0 && FirstKey(data) == low
    requires 0 < n < |data[low]|
    ensures s.Tiles(Rest(data)[low + n := data[low][n..]], low + n, e)
  {
    hide Sender.Tiles, Segment, Next, FirstKey, Rest;
    FirstOfTiles(s, data, low, e);
    TilesBounds(s, data, low, e);
    CutTiles(s, Rest(data), low, low + n, e);
    CutSegment(s, low, n);
  }

  /** What is left of a segment is the segment from there on. */
  lemma {:induction false} CutSegment(s: Sender, low: int, n: nat)
    requires s.Valid() && s.initial <= low < s.End() && 0 < n < |Segment(s, low)| && Next(s, low + n) == Next(s, low)
    ensures Segment(s, low + n) == Segment(s, low)[n..]
  {
    hide Next;
  }

  lemma {:induction false} CutTiles(s: Sender, rest: map<int, Data>, low: int, cut: int, e: int)
    requires s.Valid() && s.initial <= low < cut && low < s.End() && cut < Next(s, low)
    requires s.Tiles(rest, Next(s, low), e)
    ensures Next(s, cut) == Next(s, low)
    ensures s.Tiles(rest[cut := Segment(s, cut)], cut, e)
  {
    var next, data := Next(s, low), rest[cut := Segment(s, cut)];
    assert Next(s, cut) == next;
    forall k | cut <= k < e && s.IsPiece(k, cut) ensures k in data {
      if k != cut {
        assert next <= k;
        assert s.IsPiece(k, next);
      }
    }
    forall k | k in data ensures s.IsPiece(k, cut) && cut <= k < s.End() && data[k] == Segment(s, k) {
      if k != cut {
        assert s.IsPiece(k, next);
      }
    }
  }

  lemma {:induction false} InsertTiles(s: Sender, b: Buffer, low: int, p: int)
    requires s.Valid() && s.Tiles(b.data, low, b.expected) && NonEmpty(b.data)
    requires p in s.cuts && low <= p < s.End()
    ensures s.Tiles(Insert(b, p, Segment(s, p)).data, low, Insert(b, p, Segment(s, p)).expected)
  {
    if p !in b.data {
      var data := b.data[p := Segment(s, p)];
      assert s.IsPiece(p, low);
      assert s.Covers(data, low, b.expected);
      if p == b.expected {
        FrontierTiles(s, data, low, p);
      }
    }
  }

  // ----- Reading a buffer that holds exact pieces

  lemma ReadStep(data: map<int, Data>, n: nat)
    requires |data| > 0 && 1 <= n <= |data|
    ensures var k, rest := FirstKey(data), Rest(data);
            && PacketsFrom(data, k) == 1 + PacketsFrom(rest, k + |data[k]|)
            && EndOf(data, n) == (if n == 1 then k + |data[k]| else EndOf(rest, n - 1))
            && FirstBytes(data, n) == data[k] + (if n == 1 then [] else FirstBytes(rest, n - 1))
  {
  }

  lemma NoPacketsAtGap(data: map<int, Data>, e: int)
    requires e !in data
    ensures PacketsFrom(data, e) == 0
  {
  }

  lemma {:induction false} PacketsTile(s: Sender, data: map<int, Data>, low: int, e: int, n: nat)
    requires s.Valid() && s.Tiles(data, low, e) && low < e
    requires 1 <= n <= PacketsFrom(data, low)
    ensures low < EndOf(data, n) <= e <= s.End()
    ensures EndOf(data, n) == e <==> n == PacketsFrom(data, low)
    ensures FirstBytes(data, n) == Slice(s, low, EndOf(data, n))
    decreases |data|
  {
    hide *;
    TilesBounds(s, data, low, e);
    FirstOfTiles(s, data, low, e);
    ReadStep(data, n);
    var next := Next(s, low);
    TilesBounds(s, Rest(data), next, e);
    SegmentIsSlice(s, low);
    if next == e {
      NoPacketsAtGap(Rest(data), e);
    } else {
      PacketsPositive(s, Rest(data), next, e);
      if n > 1 {
        PacketsTile(s, Rest(data), next, e, n - 1);
        SlicesJoin(s, low, next, EndOf(Rest(data), n - 1));
      }
    }
  }

  lemma SegmentIsSlice(s: Sender, p: int)
    requires s.Valid() && s.initial <= p < s.End()
    ensures Segment(s, p) == Segment(s, p) + [] == Slice(s, p, Next(s, p))
  {
  }

  lemma TilesBounds(s: Sender, data: map<int, Data>, low: int, e: int)
    requires s.Valid() && s.Tiles(data, low, e)
    ensures s.initial <= low <= e <= s.End() && e !in data
  {
  }

  lemma SlicesJoin(s: Sender, p: int, q: int, r: int)
    requires s.initial <= p <= q <= r <= s.End()
    ensures Slice(s, p, q) + Slice(s, q, r) == Slice(s, p, r)
  {
  }

  lemma PacketsPositive(s: Sender, data: map<int, Data>, low: int, e: int)
    requires s.Valid() && s.Tiles(data, low, e) && low < e
    ensures |data| > 0 && FirstKey(data) == low && PacketsFrom(data, low) >= 1
  {
    FirstOfTiles(s, data, low, e);
  }

  lemma SingleReachesFrontier(s: Sender, data: map<int, Data>, low: int, e: int)
    requires s.Valid() && s.Tiles(data, low, e) && low < e && |data| == 1
    ensures low in data && |data[low]| == e - low
  {
    hide FirstKey, Next;
    FirstOfTiles(s, data, low, e);
    assert |Rest(data).Keys| == 0;
    assert s.IsPiece(Next(s, low), Next(s, low));
  }

  /**
   Below the frontier the two counts agree with each other and with the bytes handed out, the
   fallback for a single segment included.
   */
  lemma {:induction false} CountsAgree(s: Sender, b: Buffer, low: int)
    requires s.Valid() && s.Tiles(b.data, low, b.expected) && low < b.expected
    ensures 1 <= PacketsToRead(b)
    ensures BytesToRead(b) == ByteCount(b.data, PacketsToRead(b)) == |FirstBytes(b.data, PacketsToRead(b))|
    ensures BytesToRead(b) == b.expected - low
  {
    hide Sender.Tiles, EndOf, FirstBytes, PacketsFrom;
    PacketsPositive(s, b.data, low, b.expected);
    TilesBounds(s, b.data, low, b.expected);
    PacketsTile(s, b.data, low, b.expected, PacketsToRead(b));
    if |b.data| == 1 {
      SingleReachesFrontier(s, b.data, low, b.expected);
    }
  }

  lemma ByteCountIs(s: Sender, b: Buffer, low: int, n: nat)
    requires |b.data| > 0 && FirstKey(b.data) == low && 1 <= n <= |b.data|
    ensures ByteCount(b.data, n) == EndOf(b.data, n) - low
    ensures PacketsToRead(b) == PacketsFrom(b.data, low) && MAX_PACKET_FRAGMENTS == 6
  {
  }

  lemma GatherStep(b: Buffer, n: nat)
    requires 1 <= n <= |b.data|
    ensures CanAppend(b, n)
            <==> BytesToRead(b) > ByteCount(b.data, n) && PacketsToRead(b) > n && n < MAX_PACKET_FRAGMENTS
    ensures Gather(b, n) == if CanAppend(b, n) then Gather(b, n + 1) else n
  {
  }

  lemma {:induction false} GatherTiles(s: Sender, b: Buffer, low: int, n: nat)
    requires s.Valid() && s.Tiles(b.data, low, b.expected) && low < b.expected
    requires 1 <= n <= PacketsToRead(b) && n <= MAX_PACKET_FRAGMENTS
    ensures Gather(b, n) == if PacketsToRead(b) < MAX_PACKET_FRAGMENTS then PacketsToRead(b) else MAX_PACKET_FRAGMENTS
    decreases MAX_PACKET_FRAGMENTS - n
  {
    hide *;
    CountsAgree(s, b, low);
    PacketsPositive(s, b.data, low, b.expected);
    ByteCountIs(s, b, low, n);
    PacketsTile(s, b.data, low, b.expected, n);
    GatherStep(b, n);
    if CanAppend(b, n) {
      GatherTiles(s, b, low, n + 1);
    }
  }

  /** What one read takes: the next bytes of the text, at least one, from at most six packets. */
  lemma {:induction false} ReadTakesNext(s: Sender, b: Buffer, low: int)
    requires s.Valid() && s.Tiles(b.data, low, b.expected) && low < b.expected
    ensures |b.data| > 0 && FirstKey(b.data) == low && s.initial <= low < b.expected <= s.End()
    ensures Gather(b, 1) == if PacketsToRead(b) < 6 then PacketsToRead(b) else 6
    ensures 0 < ByteCount(b.data, Gather(b, 1)) <= b.expected - low
    ensures FirstBytes(b.data, Gather(b, 1)) == Slice(s, low, low + ByteCount(b.data, Gather(b, 1)))
  {
    hide *;
    TilesBounds(s, b.data, low, b.expected);
    CountsAgree(s, b, low);
    PacketsPositive(s, b.data, low, b.expected);
    ByteCountIs(s, b, low, 1);
    GatherTiles(s, b, low, 1);
    ByteCountIs(s, b, low, Gather(b, 1));
    PacketsTile(s, b.data, low, b.expected, Gather(b, 1));
  }

  /**
   At a gap the stream still reports readable bytes exactly when a single segment is buffered: the
   fallback of CountBytesToRead does not ask where that segment lies.
   */
  lemma ReadableIff(s: Sender, b: Buffer, low: int)
    requires s.Valid() && b.initial == s.initial && s.Tiles(b.data, low, b.expected)
    ensures BytesToRead(b) > 0 <==> low < b.expected || |b.data| == 1
    ensures BytesToRead(b) == if low < b.expected then b.expected - low
                              else if |b.data| == 1 then |b.data[FirstKey(b.data)]|
                              else 0
  {
    if low < b.expected {
      CountsAgree(s, b, low);
    } else if |b.data| > 0 {
      var k := FirstKey(b.data);
      assert k > b.expected && |b.data[k]| == Next(s, k) - k;
    }
  }

  // ----- Exact accounting

  /** Exactly the bytes the run has passed and those ahead of it were counted. */
  ghost predicate Balanced(b: Buffer) {
    Surplus(b) == 0
  }

  lemma {:induction false} OthersUnmoved(s: Sender, data: map<int, Data>, low: int, e: int)
    requires s.Valid() && s.Covers(data, low, e) && e in data
    ensures |data[e]| == Next(s, e) - e && s.Covers(data, low, Next(s, e))
    ensures Portions(data, e) - {e} == Portions(data, Next(s, e)) - {e}
  {
    assert e < s.End();
    forall k | k in data && k != e ensures Portion(k, |data[k]|, e) == Portion(k, |data[k]|, Next(s, e)) {
      assert k + |data[k]| == Next(s, k);
      assert s.IsPiece(k, low);
    }
  }

  lemma {:induction false} AdvanceBalanced(s: Sender, data: map<int, Data>, low: int, e: int)
    requires s.Valid() && s.Covers(data, low, e) && e in data
    ensures |data[e]| == Next(s, e) - e && s.Covers(data, low, Next(s, e))
    ensures Outstanding(data, Next(s, e)) + |data[e]| == Outstanding(data, e)
  {
    hide Sum, Sender.Covers, Next;
    OthersUnmoved(s, data, low, e);
    SumRemove(Portions(data, e), e);
    SumRemove(Portions(data, Next(s, e)), e);
  }

  lemma {:induction false} FrontierBalanced(s: Sender, data: map<int, Data>, low: int, e: int)
    requires s.Valid() && s.Covers(data, low, e) && NonEmpty(data)
    ensures Outstanding(data, Frontier(data, e)) + Frontier(data, e) - e == Outstanding(data, e)
    decreases KeysFrom(data, e)
  {
    hide Outstanding, Sender.Covers, Next;
    if e in data {
      AdvanceBalanced(s, data, low, e);
      assert e in KeysFrom(data, e) && e !in KeysFrom(data, e + |data[e]|);
      FrontierBalanced(s, data, low, e + |data[e]|);
    }
  }

  lemma NewSegment(s: Sender, b: Buffer, low: int, p: int)
    requires s.Valid() && s.Tiles(b.data, low, b.expected)
    requires p in s.cuts && low <= p < s.End() && p !in b.data
    ensures b.expected <= p && Segment(s, p) != []
    ensures p == b.expected ==> s.Covers(b.data[p := Segment(s, p)], low, p)
  {
    assert s.IsPiece(p, low);
  }

  lemma InsertNew(b: Buffer, p: int, d: Data)
    requires NonEmpty(b.data) && d != [] && p !in b.data
    ensures NonEmpty(b.data[p := d])
    ensures Insert(b, p, d) == Buffer(b.initial, if b.expected == p then Frontier(b.data[p := d], p) else b.expected,
                                      b.data[p := d], b.total + |d|)
  {
  }

  lemma {:induction false} InsertBalanced(s: Sender, b: Buffer, low: int, p: int)
    requires s.Valid() && s.Tiles(b.data, low, b.expected) && NonEmpty(b.data) && Balanced(b)
    requires p in s.cuts && low <= p < s.End()
    ensures Balanced(Insert(b, p, Segment(s, p)))
  {
    hide Sender.Tiles, Sender.Covers, Segment, Outstanding, Frontier, Insert, NonEmpty;
    var d := Segment(s, p);
    if p in b.data {
      InsertOld(b, p, d);
    } else {
      NewSegment(s, b, low, p);
      InsertNew(b, p, d);
      AddOutstanding(b.data, p, d, b.expected);
      if p == b.expected {
        FrontierBalanced(s, b.data[p := d], low, p);
      }
    }
  }

  lemma InsertOld(b: Buffer, p: int, d: Data)
    requires NonEmpty(b.data) && p in b.data
    ensures Insert(b, p, d) == b
  {
  }

  lemma {:induction false} CutBalanced(s: Sender, rest: map<int, Data>, low: int, next: int, e: int, d: Data)
    requires s.Valid() && s.Tiles(rest, next, e) && low < next && |d| == next - low
    ensures Outstanding(rest[low := d], e) == Outstanding(rest, e)
  {
    hide *;
    TilesBounds(s, rest, next, e);
    NotInRest(s, rest, low, next, e);
    AddOutstanding(rest, low, d, e);
    PortionBelow(low, |d|, e);
  }

  lemma {:induction false} RemoveBalanced(s: Sender, data: map<int, Data>, low: int, e: int, n: nat)
    requires s.Valid() && s.Tiles(data, low, e) && NonEmpty(data)
    requires n <= e - low
    ensures Outstanding(Remove(data, n), e) == Outstanding(data, e)
    decreases |data|
  {
    hide *;
    if n == 0 {
      RemoveNothing(data, n);
    } else {
      FirstOfTiles(s, data, low, e);
      var rest, next, d := Rest(data), Next(s, low), data[low];
      DropOutstanding(data, low, e);
      PortionBelow(low, |d|, e);
      if |d| <= n {
        RemoveWhole(data, n);
        RemoveBalanced(s, rest, next, e, n - |d|);
      } else {
        RemoveCut(data, n);
        CutBalanced(s, rest, low + n, next, e, d[n..]);
      }
    }
  }

  lemma PortionBelow(k: int, len: nat, e: int)
    ensures k + len <= e ==> Portion(k, len, e) == 0
  {
  }

  lemma NotInRest(s: Sender, data: map<int, Data>, k: int, low: int, e: int)
    requires s.Valid() && s.Tiles(data, low, e) && k < low
    ensures k !in data
  {
  }

  // ----- Whole runs: segments arrive in any order, reads happen in between

  datatype Event = Arrive(p: int) | Drain

  /** The stream and what has been read from it so far. */
  datatype Reader = Reader(buffer: Buffer, out: Data)

  /** One read, done only when the first buffered byte lies below the frontier. */
  function Read(r: Reader): (r': Reader)
    requires NonEmpty(r.buffer.data)
    ensures NonEmpty(r'.buffer.data)
  {
    var b := r.buffer;
    if |b.data| > 0 && FirstKey(b.data) < b.expected then
      var n := Gather(b, 1);
      Reader(b.(data := Remove(b.data, ByteCount(b.data, n))), r.out + FirstBytes(b.data, n))
    else r
  }

  function Reads(r: Reader, n: nat): (r': Reader)
    requires NonEmpty(r.buffer.data)
    ensures NonEmpty(r'.buffer.data)
    decreases n
  {
    if n == 0 then r else Reads(Read(r), n - 1)
  }

  /** What arrives is a segment of the text. */
  predicate OfText(s: Sender, e: Event) {
    e.Arrive? ==> e.p in s.cuts && s.initial <= e.p < s.End()
  }

  predicate AllOfText(s: Sender, es: seq<Event>) {
    forall e | e in es :: OfText(s, e)
  }

  /** None of it has been read yet. */
  predicate Legal(s: Sender, r: Reader, e: Event) {
    e.Arrive? ==> s.initial + |r.out| <= e.p
  }

  function Step(s: Sender, r: Reader, e: Event): (r': Reader)
    requires s.Valid() && NonEmpty(r.buffer.data) && OfText(s, e)
    ensures NonEmpty(r'.buffer.data)
  {
    match e
    case Arrive(p) => r.(buffer := Insert(r.buffer, p, Segment(s, p)))
    case Drain => Read(r)
  }

  /** No segment arrives after any of it was read. */
  predicate LegalRun(s: Sender, r: Reader, es: seq<Event>)
    requires s.Valid() && NonEmpty(r.buffer.data) && AllOfText(s, es)
    decreases es
  {
    es == [] || (assert es[0] in es;
                 Legal(s, r, es[0]) && LegalRun(s, Step(s, r, es[0]), es[1..]))
  }

  function RunEvents(s: Sender, r: Reader, es: seq<Event>): (r': Reader)
    requires s.Valid() && NonEmpty(r.buffer.data) && AllOfText(s, es)
    ensures NonEmpty(r'.buffer.data)
    decreases es
  {
    if es == [] then r
    else
      assert es[0] in es;
      RunEvents(s, Step(s, r, es[0]), es[1..])
  }

  function Arrivals(es: seq<Event>): set<int> {
    set e | e in es && e.Arrive? :: e.p
  }

  function Start(s: Sender): (r: Reader)
    ensures NonEmpty(r.buffer.data)
  {
    Reader(Fresh(s.initial), [])
  }

  /** Where the first segment that has not arrived starts, or the end of the text. */
  function FirstMissing(s: Sender, arrived: set<int>): (p: int)
    requires s.Valid()
    ensures p in s.cuts && (p == s.End() || p !in arrived)
    ensures forall q | q in s.cuts && q < p :: q in arrived
  {
    var missing := set q | q in s.cuts && (q == s.End() || q !in arrived);
    assert s.End() in missing;
    assert forall q | q in s.cuts && q !in missing :: q in arrived;
    Min(missing)
  }

  /** The segments seen so far are those below the frontier and those buffered above it. */
  ghost predicate Tracks(s: Sender, data: map<int, Data>, e: int, arrived: set<int>) {
    && (forall p | p in arrived :: p < e || p in data)
    && (forall p | p in s.cuts && p < e :: p in arrived)
    && (forall k | k in data && e <= k :: k in arrived)
  }

  ghost predicate Sound(s: Sender, r: Reader, arrived: set<int>) {
    && s.Valid()
    && r.buffer.initial == s.initial
    && NonEmpty(r.buffer.data)
    && r.out <= s.text
    && s.Tiles(r.buffer.data, s.initial + |r.out|, r.buffer.expected)
    && Tracks(s, r.buffer.data, r.buffer.expected, arrived)
    && Balanced(r.buffer)
  }

  lemma InsertTracks(s: Sender, b: Buffer, low: int, p: int, arrived: set<int>)
    requires s.Valid() && NonEmpty(b.data) && p in s.cuts && low <= p < s.End()
    requires Tracks(s, b.data, b.expected, arrived) && s.Tiles(b.data, low, b.expected)
    requires var b' := Insert(b, p, Segment(s, p)); s.Tiles(b'.data, low, b'.expected)
    ensures var b' := Insert(b, p, Segment(s, p)); Tracks(s, b'.data, b'.expected, arrived + {p})
  {
    var b' := Insert(b, p, Segment(s, p));
    forall q | q in s.cuts && q < b'.expected ensures q in arrived + {p} {
      if b.expected <= q {
        assert s.IsPiece(q, low);
        assert q in b'.data;
      }
    }
  }

  lemma {:induction false} RemoveKeepsAbove(s: Sender, data: map<int, Data>, low: int, e: int, n: nat, k: int)
    requires s.Valid() && s.Tiles(data, low, e) && NonEmpty(data)
    requires n <= e - low && e <= k
    ensures k in Remove(data, n) <==> k in data
    decreases |data|
  {
    hide *;
    if n == 0 {
      RemoveNothing(data, n);
    } else {
      TilesBounds(s, data, low, e);
      FirstOfTiles(s, data, low, e);
      if |data[low]| <= n {
        RemoveWhole(data, n);
        RemoveKeepsAbove(s, Rest(data), Next(s, low), e, n - |data[low]|, k);
      } else {
        RemoveCut(data, n);
      }
    }
  }

  lemma RemoveTracks(s: Sender, data: map<int, Data>, low: int, e: int, n: nat, arrived: set<int>)
    requires s.Valid() && s.Tiles(data, low, e) && NonEmpty(data)
    requires n <= e - low
    requires Tracks(s, data, e, arrived)
    ensures Tracks(s, Remove(data, n), e, arrived)
  {
    hide Sender.Tiles, Sender.Valid, NonEmpty, Remove;
    forall k | e <= k ensures k in Remove(data, n) <==> k in data {
      RemoveKeepsAbove(s, data, low, e, n, k);
    }
  }

  lemma {:induction false} ArriveSound(s: Sender, r: Reader, p: int, arrived: set<int>)
    requires Sound(s, r, arrived) && OfText(s, Arrive(p)) && Legal(s, r, Arrive(p))
    ensures Sound(s, Step(s, r, Arrive(p)), arrived + {p})
  {
    hide Sender.Tiles, Balanced, Tracks, Insert, Sender.Valid;
    var low := s.initial + |r.out|;
    InsertTiles(s, r.buffer, low, p);
    InsertTracks(s, r.buffer, low, p, arrived);
    InsertBalanced(s, r.buffer, low, p);
    InsertKeeps(r.buffer, p, Segment(s, p));
  }

  lemma InsertKeeps(b: Buffer, p: int, d: Data)
    requires NonEmpty(b.data)
    ensures Insert(b, p, d).initial == b.initial
  {
  }

  /** A read delivers the next bytes of the text and nothing else, and makes progress if it can. */
  lemma {:induction false} ReadSound(s: Sender, r: Reader, arrived: set<int>)
    requires Sound(s, r, arrived)
    ensures Sound(s, Read(r), arrived)
    ensures Read(r).buffer.expected == r.buffer.expected && r.out <= Read(r).out
    ensures s.initial + |r.out| < r.buffer.expected ==> |r.out| < |Read(r).out|
  {
    hide Sender.Tiles, Tracks, Remove, Sender.Valid, Segment, ByteCount, FirstBytes, Gather, Outstanding;
    var b, low := r.buffer, s.initial + |r.out|;
    TilesBounds(s, b.data, low, b.expected);
    if low < b.expected {
      ReadTakesNext(s, b, low);
      var n := ByteCount(b.data, Gather(b, 1));
      RemoveTiles(s, b.data, low, b.expected, n);
      RemoveTracks(s, b.data, low, b.expected, n, arrived);
      RemoveBalanced(s, b.data, low, b.expected, n);
      assert Slice(s, s.initial, low) + Slice(s, low, low + n) == Slice(s, s.initial, low + n);
      assert r.out == Slice(s, s.initial, low);
    } else {
      NothingBelow(s, b.data, low, b.expected);
    }
  }

  lemma NothingBelow(s: Sender, data: map<int, Data>, low: int, e: int)
    requires s.Valid() && s.Tiles(data, low, e) && low == e
    ensures |data| > 0 ==> e < FirstKey(data)
  {
  }

  lemma {:induction false} RunSound(s: Sender, r: Reader, es: seq<Event>, arrived: set<int>)
    requires s.Valid() && NonEmpty(r.buffer.data)
    requires AllOfText(s, es) && Sound(s, r, arrived) && LegalRun(s, r, es)
    ensures Sound(s, RunEvents(s, r, es), arrived + Arrivals(es))
    decreases es
  {
    hide Sound, Step, Legal, NonEmpty, OfText;
    if es == [] {
      assert arrived + Arrivals(es) == arrived;
    } else {
      assert es[0] in es;
      SoundStep(s, r, es[0], arrived);
      var arrived' := arrived + Arrivals([es[0]]);
      RunSound(s, Step(s, r, es[0]), es[1..], arrived');
      assert arrived' + Arrivals(es[1..]) == arrived + Arrivals(es);
    }
  }

  lemma SoundStep(s: Sender, r: Reader, e: Event, arrived: set<int>)
    requires Sound(s, r, arrived) && OfText(s, e) && Legal(s, r, e)
    ensures Sound(s, Step(s, r, e), arrived + Arrivals([e]))
  {
    match e {
      case Arrive(p) =>
        assert Arrivals([e]) == {p} by {
          assert e in [e];
        }
        ArriveSound(s, r, p, arrived);
      case Drain =>
        assert arrived + Arrivals([e]) == arrived;
        ReadSound(s, r, arrived);
    }
  }

  lemma SoundBounds(s: Sender, r: Reader, arrived: set<int>)
    requires Sound(s, r, arrived)
    ensures s.initial + |r.out| <= r.buffer.expected <= s.End()
    ensures r.out == s.text[..|r.out|]
  {
  }

  lemma {:induction false} ReadsReachFrontier(s: Sender, r: Reader, n: nat, arrived: set<int>)
    requires NonEmpty(r.buffer.data)
    requires Sound(s, r, arrived)
    requires s.initial <= r.buffer.expected <= s.initial + |s.text|
    requires r.buffer.expected - s.initial - |r.out| <= n
    ensures Sound(s, Reads(r, n), arrived)
    ensures Reads(r, n).out == s.text[..r.buffer.expected - s.initial]
    decreases n
  {
    hide Sound, Read, NonEmpty;
    SoundBounds(s, r, arrived);
    if n > 0 {
      ReadSound(s, r, arrived);
      ReadsReachFrontier(s, Read(r), n - 1, arrived);
    }
  }

  lemma FrontierIsFirstMissing(s: Sender, r: Reader, arrived: set<int>)
    requires Sound(s, r, arrived)
    ensures r.buffer.expected == FirstMissing(s, arrived)
  {
    var e, f := r.buffer.expected, FirstMissing(s, arrived);
    assert e in s.cuts;
    assert f < e ==> f in arrived;
    assert e < f ==> e in arrived;
  }

  /**
   Whatever the cut, the order of arrival and the moments at which reads happen: what has been read
   is a prefix of the text, the frontier is the first segment that has not arrived, every byte is
   accounted for, and once reads stop making progress exactly the text up to the first missing
   segment has been read.
   */
  lemma {:induction false} Reassembly(s: Sender, es: seq<Event>)
    requires s.Valid() && AllOfText(s, es) && LegalRun(s, Start(s), es)
    ensures var r := RunEvents(s, Start(s), es);
            var f := FirstMissing(s, Arrivals(es));
            && r.out <= s.text
            && r.buffer.expected == f
            && Balanced(r.buffer) && !HasMissing(r.buffer)
            && Reads(r, |s.text|).out == s.text[..f - s.initial]
  {
    hide Sender.Tiles, Reads, Outstanding, LegalRun, RunEvents, FirstMissing;
    StartSound(s);
    RunSound(s, Start(s), es, {});
    var r, arrived := RunEvents(s, Start(s), es), Arrivals(es);
    assert {} + arrived == arrived;
    FrontierIsFirstMissing(s, r, arrived);
    SoundBounds(s, r, arrived);
    ReadsReachFrontier(s, r, |s.text|, arrived);
    BalancedNotMissing(r.buffer);
  }

  lemma StartSound(s: Sender)
    requires s.Valid()
    ensures Sound(s, Start(s), {})
  {
    assert Portions(map[], s.initial) == map[];
  }

  lemma BalancedNotMissing(b: Buffer)
    requires Balanced(b) && b.initial <= b.expected
    ensures !HasMissing(b)
  {
    SumNonNegative(Portions(b.data, b.expected));
  }

  /** All of the text, once all of it has arrived. */
  lemma {:induction false} CompleteReassembly(s: Sender, es: seq<Event>)
    requires s.Valid() && AllOfText(s, es) && LegalRun(s, Start(s), es)
    requires forall p | p in s.cuts && p < s.End() :: p in Arrivals(es)
    ensures Reads(RunEvents(s, Start(s), es), |s.text|).out == s.text
  {
    Reassembly(s, es);
    assert FirstMissing(s, Arrivals(es)) == s.End();
    assert s.text[..|s.text|] == s.text;
  }

  /**
   A segment sent again after all of it was read is buffered once more, becomes the first packet,
   and is read a second time.
   */
  lemma {:induction false} ResentSegmentIsReadAgain(s: Sender, r: Reader, arrived: set<int>, p: int)
    requires Sound(s, r, arrived)
    requires p in s.cuts && s.initial <= p && p < s.initial + |r.out|
    ensures var b' := Insert(r.buffer, p, Segment(s, p));
            && p in b'.data && FirstKey(b'.data) == p < b'.expected
            && Segment(s, p) <= FirstBytes(b'.data, Gather(b', 1))
            && !Balanced(b')
  {
    hide Sender.Tiles, Outstanding, Insert, Frontier, FirstBytes, EndOf, PacketsFrom, Segment, Tracks;
    var b, low, d := r.buffer, s.initial + |r.out|, Segment(s, p);
    TilesBounds(s, b.data, low, b.expected);
    NotInRest(s, b.data, p, low, b.expected);
    InsertNew(b, p, d);
    var b' := Insert(b, p, d);
    OldSegmentFirst(s, b.data, low, b.expected, p);
    ReadStep(b'.data, Gather(b', 1));
    AddOutstanding(b.data, p, d, b.expected);
    PortionBelow(p, |d|, b.expected);
  }

  lemma {:induction false} StepSurplus(s: Sender, r: Reader, e: Event)
    requires s.Valid() && NonEmpty(r.buffer.data) && OfText(s, e)
    ensures Surplus(r.buffer) <= Surplus(Step(s, r, e).buffer)
  {
    hide Surplus, Insert, Gather, Remove, ByteCount, FirstBytes;
    var b := r.buffer;
    match e {
      case Arrive(p) => InsertSurplus(b, p, Segment(s, p));
      case Drain => RemoveSurplus(b, ByteCount(b.data, Gather(b, 1)));
    }
  }

  lemma {:induction false} RunSurplus(s: Sender, r: Reader, es: seq<Event>)
    requires s.Valid() && NonEmpty(r.buffer.data) && AllOfText(s, es)
    ensures Surplus(r.buffer) <= Surplus(RunEvents(s, r, es).buffer)
    decreases es
  {
    hide Surplus, Step, NonEmpty, OfText;
    if es != [] {
      assert es[0] in es;
      StepSurplus(s, r, es[0]);
      RunSurplus(s, Step(s, r, es[0]), es[1..]);
    }
  }

  lemma {:induction false} BalancedFrom(s: Sender, r: Reader, es: seq<Event>, arrived: set<int>)
    requires s.Valid() && NonEmpty(r.buffer.data) && AllOfText(s, es) && Sound(s, r, arrived)
    ensures Balanced(RunEvents(s, r, es).buffer) <==> LegalRun(s, r, es)
    decreases es
  {
    hide Sound, Step, Surplus, NonEmpty;
    SoundBalanced(s, r, arrived);
    if es != [] {
      var e := es[0];
      assert e in es;
      if Legal(s, r, e) {
        SoundStep(s, r, e, arrived);
        BalancedFrom(s, Step(s, r, e), es[1..], arrived + Arrivals([e]));
      } else {
        IllegalSurplus(s, r, e, arrived);
        RunSurplus(s, Step(s, r, e), es[1..]);
      }
    }
  }

  lemma SoundBalanced(s: Sender, r: Reader, arrived: set<int>)
    requires Sound(s, r, arrived)
    ensures Balanced(r.buffer)
  {
  }

  lemma {:induction false} IllegalSurplus(s: Sender, r: Reader, e: Event, arrived: set<int>)
    requires Sound(s, r, arrived) && OfText(s, e) && !Legal(s, r, e)
    ensures Surplus(Step(s, r, e).buffer) > 0
  {
    hide Sender.Tiles, Tracks, Insert, FirstBytes, Gather, Segment, Outstanding;
    ResentSegmentIsReadAgain(s, r, arrived, e.p);
    StepSurplus(s, r, e);
  }

  /**
   The accounting is exact after a run if and only if no segment arrived after any of it was read:
   what such a segment adds to the count is never taken off again.
   */
  lemma {:induction false} BalancedIff(s: Sender, es: seq<Event>)
    requires s.Valid() && AllOfText(s, es)
    ensures Balanced(RunEvents(s, Start(s), es).buffer) <==> LegalRun(s, Start(s), es)
  {
    StartSound(s);
    BalancedFrom(s, Start(s), es, {});
  }

  lemma OldSegmentFirst(s: Sender, data: map<int, Data>, low: int, e: int, p: int)
    requires s.Valid() && s.Tiles(data, low, e) && p in s.cuts && s.initial <= p < low
    ensures var data' := data[p := Segment(s, p)]; |data'| > 0 && FirstKey(data') == p
    ensures p + |Segment(s, p)| <= e
  {
    var data' := data[p := Segment(s, p)];
    assert p in data' && |data'.Keys| > 0;
    assert Next(s, p) <= e;
  }

  /** A text of one byte that arrives twice, each time read at once: it is delivered twice. */
  lemma {:induction false} ResentExample()
    ensures var s, es := Sender(0, [7], {0, 1}), [Arrive(0), Drain, Arrive(0), Drain];
            && s.Valid() && AllOfText(s, es) && !LegalRun(s, Start(s), es)
            && RunEvents(s, Start(s), es).out == [7, 7]
  {
    hide Step, RunEvents, LegalRun;
    var s, es := Sender(0, [7], {0, 1}), [Arrive(0), Drain, Arrive(0), Drain];
    var r0 := Start(s);
    OneByte(s, r0);
    RunTwo(s, r0, Arrive(0), Drain, [Arrive(0), Drain]);
    var r2 := Step(s, Step(s, r0, Arrive(0)), Drain);
    OneByte(s, r2);
    RunTwo(s, r2, Arrive(0), Drain, []);
    assert es == [Arrive(0), Drain] + [Arrive(0), Drain] && [Arrive(0), Drain] + [] == [Arrive(0), Drain];
    RunNothing(s, Step(s, Step(s, r2, Arrive(0)), Drain));
  }

  lemma RunNothing(s: Sender, r: Reader)
    requires s.Valid() && NonEmpty(r.buffer.data)
    ensures RunEvents(s, r, []) == r
  {
  }

  lemma {:induction false} RunTwo(s: Sender, r: Reader, a: Event, b: Event, rest: seq<Event>)
    requires s.Valid() && NonEmpty(r.buffer.data) && OfText(s, a) && OfText(s, b) && AllOfText(s, rest)
    ensures AllOfText(s, [a, b] + rest)
    ensures var r2 := Step(s, Step(s, r, a), b);
            && RunEvents(s, r, [a, b] + rest) == RunEvents(s, r2, rest)
            && (LegalRun(s, r, [a, b] + rest)
                <==> Legal(s, r, a) && Legal(s, Step(s, r, a), b) && LegalRun(s, r2, rest))
  {
    hide Step, Legal, OfText, NonEmpty;
    var es := [a, b] + rest;
    assert es[1..] == [b] + rest && es[1..][1..] == rest;
    assert AllOfText(s, es) && AllOfText(s, es[1..]);
  }

  /** The one segment, put into an empty buffer, is what the next read delivers. */
  lemma {:induction false} OneByte(s: Sender, r: Reader)
    requires s == Sender(0, [7], {0, 1}) && s.Valid() && r.buffer.data == map[]
    requires r.buffer.expected == 1 || r.buffer.expected == 0
    ensures var r' := Step(s, Step(s, r, Arrive(0)), Drain);
            r'.out == r.out + [7] && r'.buffer.data == map[] && r'.buffer.expected == 1
  {
    var d: map<int, Data> := map[0 := [7]];
    assert Next(s, 0) == 1 && Segment(s, 0) == [7];
    assert r.buffer.data[0 := [7]] == d;
    assert Frontier(d, 0) == Frontier(d, 1) == 1;
    var b := Insert(r.buffer, 0, [7]);
    assert b.data == d && b.expected == 1;
    assert d.Keys == {0} && 0 in d;
    assert FirstKey(d) == 0;
    assert Rest(d) == map[];
    assert PacketsFrom(d, 0) == 1;
    assert Gather(b, 1) == 1;
    assert FirstBytes(d, 1) == [7] + FirstBytes(Rest(d), 0);
    assert Remove(d, 1) == Remove(Rest(d), 0) == map[];
  }
}
