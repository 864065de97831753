/**
 What becomes of the fragments of a datagram over a whole run: disjoint fragments tile the payload
 exactly when the rebuild accepts them, and a datagram comes out when its last fragment arrives last.
 */
module IPv4Reassembly {
  import opened Bytes
  import opened IPv4Packet
  import opened PopularityList
  import opened IPv4Fragments
  import opened Sets
  import opened Wrappers

  // ----- Fragments that do not overlap

  ghost predicate Disjoint(ps: seq<Packet>) {
    forall i, j, x: int | 0 <= i < j < |ps| && Holds(ps[i], x) :: !Holds(ps[j], x)
  }

  /** Byte `x` of the payload is carried by `p`. */
  predicate Holds(p: Packet, x: int) {
    p.fragmentOffset <= x < p.fragmentOffset + p.PayloadLength()
  }

  ghost function Range(a: int, n: nat): (s: set<int>)
    ensures forall x :: x in s <==> a <= x < a + n
    decreases n
  {
    if n == 0 then {} else Range(a, n - 1) + {a + n - 1}
  }

  lemma {:induction false} RangeSize(a: int, n: nat)
    ensures |Range(a, n)| == n
    decreases n
  {
    if n > 0 {
      RangeSize(a, n - 1);
    }
  }

  ghost function Covered(ps: seq<Packet>): set<int>
    requires AllCaptured(ps)
  {
    if ps == [] then {}
    else
      assert ps[|ps| - 1] in ps && forall q | q in ps[..|ps| - 1] :: q in ps;
      Covered(ps[..|ps| - 1]) + Range(ps[|ps| - 1].fragmentOffset, ps[|ps| - 1].PayloadLength())
  }

  lemma {:induction false} CoveredHolds(ps: seq<Packet>, x: int)
    requires AllCaptured(ps)
    ensures x in Covered(ps) <==> exists i :: 0 <= i < |ps| && Holds(ps[i], x)
    decreases |ps|
  {
    if ps != [] {
      var rest, n := ps[..|ps| - 1], |ps| - 1;
      assert forall q | q in rest :: q in ps;
      CoveredHolds(rest, x);
      if x in Covered(rest) {
        var i :| 0 <= i < |rest| && Holds(rest[i], x);
        assert Holds(ps[i], x);
      }
      if x in Covered(ps) && x !in Covered(rest) {
        assert Holds(ps[n], x);
      }
      if i :| 0 <= i < |ps| && Holds(ps[i], x) {
        if i < n {
          assert Holds(rest[i], x);
        }
      }
    }
  }

  /** Without overlaps, as many bytes are covered as the payloads are long together. */
  lemma {:induction false} CoveredSize(ps: seq<Packet>)
    requires AllCaptured(ps) && Disjoint(ps)
    ensures |Covered(ps)| == TotalLength(ps) >= 0
    decreases |ps|
  {
    if ps != [] {
      var rest, p := ps[..|ps| - 1], ps[|ps| - 1];
      assert p in ps && forall q | q in rest :: q in ps;
      CoveredSize(rest);
      RangeSize(p.fragmentOffset, p.PayloadLength());
      forall x | x in Range(p.fragmentOffset, p.PayloadLength()) ensures x !in Covered(rest) {
        CoveredHolds(rest, x);
        assert Holds(ps[|ps| - 1], x);
        assert forall i | 0 <= i < |rest| :: rest[i] == ps[i];
      }
    }
  }

  /** The per-fragment bound check of the rebuild. */
  predicate InBounds(ps: seq<Packet>) {
    forall p | p in ps :: p.fragmentOffset + p.PayloadLength() <= TotalLength(ps)
  }

  /**
   Tiling by counting: fragments that do not overlap pass the bound check exactly when they cover
   [0, sum of their lengths) without a hole.
   */
  lemma {:induction false} TilingByCounting(ps: seq<Packet>)
    requires AllCaptured(ps) && Disjoint(ps)
    requires forall p | p in ps :: p.PayloadLength() > 0
    ensures TotalLength(ps) >= 0
    ensures InBounds(ps) <==> Covered(ps) == Range(0, TotalLength(ps))
  {
    CoveredSize(ps);
    var n := TotalLength(ps);
    RangeSize(0, n);
    if InBounds(ps) {
      forall x | x in Covered(ps) ensures x in Range(0, n) {
        CoveredHolds(ps, x);
        var i :| 0 <= i < |ps| && Holds(ps[i], x);
        assert ps[i] in ps;
      }
      SubsetSize(Covered(ps), Range(0, n));
    }
    if Covered(ps) == Range(0, n) {
      forall p | p in ps ensures p.fragmentOffset + p.PayloadLength() <= n {
        var x := p.fragmentOffset + p.PayloadLength() - 1;
        assert Holds(p, x);
        var i :| 0 <= i < |ps| && ps[i] == p;
        CoveredHolds(ps, x);
      }
    }
  }

  // ----- What the rebuild writes

  /** Every payload byte is taken from the fragment that holds it. */
  lemma {:induction false} PasteBytes(buf: Data, header: nat, ps: seq<Packet>, i: nat, x: nat)
    requires AllCaptured(ps) && Disjoint(ps) && Paste(buf, header, ps).Some?
    requires i < |ps| && ps[i].Captured() && Holds(ps[i], x)
    ensures header + x < |buf|
    ensures Paste(buf, header, ps).value[header + x] == ps[i].Payload()[x - ps[i].fragmentOffset]
    decreases |ps|
  {
    var rest, n := ps[..|ps| - 1], |ps| - 1;
    assert forall q | q in rest :: q in ps;
    assert ps[n] in ps;
    if i < n {
      assert rest[i] == ps[i];
      PasteBytes(buf, header, rest, i, x);
      assert !Holds(ps[n], x);
    }
  }

  /** The payloads are those of one datagram with payload `payload`. */
  ghost predicate Carries(ps: seq<Packet>, payload: Data) {
    forall p, x: int | p in ps && Holds(p, x) ::
      x < |payload| && p.Captured() && p.Payload()[x - p.fragmentOffset] == payload[x]
  }

  /** A complete, non-overlapping set of fragments is rebuilt to the payload. */
  lemma {:induction false} RebuildsPayload(buf: Data, header: nat, ps: seq<Packet>, payload: Data)
    requires AllCaptured(ps) && Disjoint(ps) && Carries(ps, payload)
    requires Covered(ps) == Range(0, |payload|) && TotalLength(ps) == |payload|
    requires forall p | p in ps :: p.PayloadLength() > 0
    requires |buf| == header + |payload|
    ensures Paste(buf, header, ps).Some? && Paste(buf, header, ps).value[header..] == payload
  {
    hide Paste, Covered;
    TilingByCounting(ps);
    PasteSucceeds(buf, header, ps);
    var r := Paste(buf, header, ps).value;
    forall x: nat | x < |payload| ensures r[header + x] == payload[x] {
      CoveredHolds(ps, x);
      var i :| 0 <= i < |ps| && Holds(ps[i], x);
      assert ps[i] in ps;
      PasteBytes(buf, header, ps, i, x);
    }
  }

  // ----- Whole runs

  /** The packet has the source, destination and identification of the datagram `k`. */
  predicate Belongs(p: Packet, k: Key) {
    p.source == k.source && p.destination == k.destination && p.identification == k.identification
  }

  /** The datagram a packet belongs to. */
  function Datagram(p: Packet): Key {
    Key(p.source, p.destination, p.identification)
  }

  /** The rebuilt datagrams that come out of fragments of `k` while `events` arrive. */
  function Outputs(l: Store, events: seq<Packet>, k: Key): seq<Data>
    requires WellFormed(l) && AllCaptured(events)
    decreases events
  {
    if events == [] then []
    else
      ArriveWellFormed(l, events[0]);
      var (l', out) := Receive(l, events[0]);
      (if Belongs(events[0], k) && out.Some? then [out.value] else []) + Outputs(l', events[1..], k)
  }

  /** The fragments of the datagram `k` among the packets. */
  function Of(events: seq<Packet>, k: Key): seq<Packet>
    decreases events
  {
    if events == [] then []
    else
      var e, rest := events[0], Of(events[1..], k);
      if (e.fragmentOffset != 0 || e.moreFragments) && Belongs(e, k) then [e] + rest else rest
  }

  /** Between two fragments of `k`, fewer than 1024 other datagrams show up; `others` have since the last. */
  ghost predicate NotCrowded(events: seq<Packet>, k: Key, others: set<Key>)
    decreases events
  {
    events == []
    || (if events[0].fragmentOffset == 0 && !events[0].moreFragments then NotCrowded(events[1..], k, others)
        else if Belongs(events[0], k) then NotCrowded(events[1..], k, {})
        else |others + {Datagram(events[0])}| < 1024 && NotCrowded(events[1..], k, others + {Datagram(events[0])}))
  }

  /** What comes out of the fragments of one datagram, in this order. */
  function CollectRun(got: seq<Packet>, ps: seq<Packet>): seq<Data>
    requires AllCaptured(got) && AllCaptured(ps)
    decreases ps
  {
    if ps == [] then []
    else
      var (got', out) := Collect(got, ps[0]);
      (if out.Some? then [out.value] else []) + CollectRun(got', ps[1..])
  }

  lemma {:induction false} OfCaptured(events: seq<Packet>, k: Key)
    requires AllCaptured(events)
    ensures AllCaptured(Of(events, k))
    decreases events
  {
    if events != [] {
      OfCaptured(events[1..], k);
    }
  }

  lemma GotOfStore(l: Store, k: Key)
    requires WellFormed(l)
    ensures AllCaptured(Got(l, k))
  {
    LookupFinds(l.entries, k);
  }

  lemma OtherStep(before: set<Key>, others: set<Key>, other: Key)
    requires before <= others && |others + {other}| < 1024
    ensures |before + {other}| < 1024 && before + {other} <= others + {other}
  {
    SubsetSize(before + {other}, others + {other});
  }

  /** What the first packet of a run does. */
  lemma {:induction false} FirstEvent(l: Store, events: seq<Packet>, k: Key, others: set<Key>)
    requires WellFormed(l) && AllCaptured(events) && NotCrowded(events, k, others) && events != []
    ensures events[0].Captured() && AllCaptured(events[1..]) && WellFormed(Receive(l, events[0]).0)
    ensures var (l', out) := Receive(l, events[0]);
            Outputs(l, events, k)
            == (if Belongs(events[0], k) && out.Some? then [out.value] else []) + Outputs(l', events[1..], k)
    ensures if !IsFragment(events[0]) then
              Of(events, k) == Of(events[1..], k) && NotCrowded(events[1..], k, others)
              && Receive(l, events[0]) == (l, None)
            else
              && Receive(l, events[0]) == Arrive(l, events[0])
              && if Belongs(events[0], k) then
                   Of(events, k) == [events[0]] + Of(events[1..], k) && NotCrowded(events[1..], k, {})
                 else
                   && Of(events, k) == Of(events[1..], k)
                   && |others + {Datagram(events[0])}| < 1024
                   && NotCrowded(events[1..], k, others + {Datagram(events[0])})
  {
    hide Arrive, WellFormed;
    assert events[0] in events;
    ArriveWellFormed(l, events[0]);
  }

  lemma CollectFirst(got: seq<Packet>, p: Packet, rest: seq<Packet>)
    requires AllCaptured(got) && p.Captured() && AllCaptured(rest)
    ensures AllCaptured([p] + rest) && AllCaptured(Collect(got, p).0)
    ensures var (got', out) := Collect(got, p);
            CollectRun(got, [p] + rest) == (if out.Some? then [out.value] else []) + CollectRun(got', rest)
  {
    assert ([p] + rest)[1..] == rest;
  }

  /** A datagram that is not crowded out is collected as if it were alone. */
  lemma {:induction false} Isolation(l: Store, events: seq<Packet>, k: Key, others: set<Key>)
    requires WellFormed(l) && AllCaptured(events) && NotCrowded(events, k, others)
    requires Lookup(l.entries, k).Some? ==> Before(l.entries, k) <= others
    requires AllCaptured(Got(l, k)) && AllCaptured(Of(events, k))
    ensures Outputs(l, events, k) == CollectRun(Got(l, k), Of(events, k))
    decreases events
  {
    if events != [] {
      hide WellFormed, Arrive, Receive, Collect, CollectRun, Outputs, Of, NotCrowded, IsFragment, Lookup, Before, Got,
           AllCaptured;
      var e, rest := events[0], events[1..];
      FirstEvent(l, events, k, others);
      OfCaptured(rest, k);
      var l' := Receive(l, e).0;
      GotOfStore(l', k);
      if !IsFragment(e) {
        Isolation(l, rest, k, others);
      } else if Belongs(e, k) {
        assert KeyOf(e) == k;
        ArriveOwn(l, e);
        Isolation(l', rest, k, {});
        CollectFirst(Got(l, k), e, Of(rest, k));
      } else {
        var other := Datagram(e);
        assert KeyOf(e) == other;
        if Lookup(l.entries, k).Some? {
          OtherStep(Before(l.entries, k), others, other);
        }
        ArriveOther(l, e, k);
        SameLookup(l, l', k);
        Isolation(l', rest, k, others + {other});
      }
    }
  }

  lemma SameLookup(l: Store, l': Store, k: Key)
    requires Lookup(l.entries, k) == Lookup(l'.entries, k)
    ensures Got(l, k) == Got(l', k)
  {
  }

  /** `ps`, in any order, are the fragments of one datagram. */
  ghost predicate FragmentsOf(ps: seq<Packet>, payload: Data) {
    && AllCaptured(ps) && Disjoint(ps) && Carries(ps, payload)
    && (forall p | p in ps :: p.PayloadLength() > 0)
    && Covered(ps) == Range(0, |payload|)
    && (forall p | p in ps :: p.moreFragments <==> p.fragmentOffset + p.PayloadLength() < |payload|)
  }

  lemma {:induction false} TotalLengthPrefix(ps: seq<Packet>, n: nat)
    requires n <= |ps| && forall p | p in ps :: p.PayloadLength() > 0
    ensures 0 <= TotalLength(ps[..n]) <= TotalLength(ps)
    ensures n < |ps| ==> TotalLength(ps[..n]) < TotalLength(ps)
    decreases |ps|
  {
    if n < |ps| {
      var rest := ps[..|ps| - 1];
      assert forall q | q in rest :: q in ps;
      assert rest[..n] == ps[..n];
      assert ps[|ps| - 1] in ps;
      TotalLengthPrefix(rest, n);
    } else {
      assert ps[..n] == ps;
      if n > 0 {
        var rest := ps[..n - 1];
        assert forall q | q in rest :: q in ps;
        assert rest[..n - 1] == rest;
        assert ps[n - 1] in ps;
        TotalLengthPrefix(rest, n - 1);
      }
    }
  }

  /** Two fragments that both end the datagram are the same one. */
  lemma OneLast(ps: seq<Packet>, payload: Data, i: nat, j: nat)
    requires FragmentsOf(ps, payload) && i < |ps| && j < |ps| && i != j
    requires !ps[i].moreFragments
    ensures ps[j].moreFragments
  {
    hide Covered;
    assert ps[i] in ps && ps[j] in ps;
    var x := ps[i].fragmentOffset + ps[i].PayloadLength() - 1;
    assert Holds(ps[i], x) && x == |payload| - 1 by {
      assert Holds(ps[i], x);
    }
    assert !Holds(ps[j], x);
    var y := ps[j].fragmentOffset + ps[j].PayloadLength() - 1;
    assert Holds(ps[j], y);
  }

  /** Rebuilding before all fragments are there fails the bound check of the last one. */
  lemma {:induction false} EarlyLastRejected(ps: seq<Packet>, payload: Data, i: nat)
    requires FragmentsOf(ps, payload) && i < |ps| - 1 && !ps[i].moreFragments
    requires AllCaptured(ps[..i + 1])
    ensures Rebuild(ps[i], ps[..i + 1]) == None
  {
    hide Covered, Paste, TotalLength;
    var p, got := ps[i], ps[..i + 1];
    CoveredSize(ps);
    RangeSize(0, |payload|);
    TotalLengthPrefix(ps, i + 1);
    assert p in got && p in ps;
    assert Holds(p, p.fragmentOffset + p.PayloadLength() - 1);
    assert p.fragmentOffset + p.PayloadLength() >= |payload|;
    var size := p.headerLength + TotalLength(got);
    if 0 <= size {
      PasteSucceeds(Zeros(size), p.headerLength, got);
    }
  }

  lemma {:induction false} AllRebuilt(ps: seq<Packet>, payload: Data)
    requires FragmentsOf(ps, payload) && ps != [] && !ps[|ps| - 1].moreFragments
    ensures var p := ps[|ps| - 1];
            Emit(p, Rebuild(p, ps)) == if p.headerLength + |payload| <= MAX_SIZE then Some(Patch(p, payload)) else None
  {
    hide Covered, Paste, Patch, TotalLength;
    var p := ps[|ps| - 1];
    assert p in ps;
    assert Holds(p, p.fragmentOffset);
    CoveredSize(ps);
    RangeSize(0, |payload|);
    assert TotalLength(ps) == |payload|;
    RebuildsPayload(Zeros(p.headerLength + |payload|), p.headerLength, ps, payload);
  }

  lemma {:induction false} OnlyMore(got: seq<Packet>, ps: seq<Packet>)
    requires AllCaptured(got) && AllCaptured(ps) && AllMore(got) && AllMore(ps)
    ensures CollectRun(got, ps) == []
    decreases ps
  {
    if ps != [] {
      OnlyMore(got + [ps[0]], ps[1..]);
    }
  }

  lemma {:induction false} CollectFragments(ps: seq<Packet>, payload: Data, i: nat)
    requires FragmentsOf(ps, payload) && i < |ps|
    requires AllCaptured(ps[..i]) && AllCaptured(ps[i..]) && AllMore(ps[..i])
    ensures var last := ps[|ps| - 1];
            CollectRun(ps[..i], ps[i..])
            == if !last.moreFragments && last.headerLength + |payload| <= 65535 then [Patch(last, payload)] else []
    decreases |ps| - i
  {
    hide Covered, Rebuild, Patch, Emit, FragmentsOf;
    var p := ps[i];
    assert ps[i..][0] == p && ps[i..][1..] == ps[i + 1..];
    assert ps[..i] + [p] == ps[..i + 1];
    assert forall q | q in ps[..i + 1] :: q in ps[..i] || q == p;
    assert p in ps[..i + 1];
    if p.moreFragments {
      if i + 1 < |ps| {
        CollectFragments(ps, payload, i + 1);
      } else {
        assert ps[i + 1..] == [];
      }
    } else if i + 1 < |ps| {
      EarlyLastRejected(ps, payload, i);
      RestMore(ps, payload, i);
      OnlyMore([], ps[i + 1..]);
      OneLast(ps, payload, i, |ps| - 1);
      assert Emit(p, None) == None by {
        NothingEmitted(p);
      }
    } else {
      assert ps[..i + 1] == ps;
      AllRebuilt(ps, payload);
      assert ps[i + 1..] == [];
    }
  }

  lemma NothingEmitted(p: Packet)
    requires p.Captured()
    ensures Emit(p, None) == None
  {
  }

  lemma {:induction false} RestMore(ps: seq<Packet>, payload: Data, i: nat)
    requires FragmentsOf(ps, payload) && i < |ps| && !ps[i].moreFragments
    ensures AllMore(ps[i + 1..])
  {
    hide FragmentsOf;
    forall q | q in ps[i + 1..] ensures q.moreFragments {
      var j :| 0 <= j < |ps| - (i + 1) && ps[i + 1..][j] == q;
      OneLast(ps, payload, i, i + 1 + j);
    }
  }

  /**
   The fragments of a datagram arrive in any order, mixed with other traffic that does not crowd them
   out. The datagram is rebuilt, once, from the last arrival, exactly when the fragment without the
   MF flag comes last (and the result fits); in every other order nothing comes out.
   */
  lemma {:induction false} ReassemblyIff(l: Store, events: seq<Packet>, k: Key, ps: seq<Packet>, payload: Data)
    requires WellFormed(l) && AllCaptured(events) && Lookup(l.entries, k) == None
    requires NotCrowded(events, k, {}) && Of(events, k) == ps
    requires ps != [] && FragmentsOf(ps, payload)
    ensures var last := ps[|ps| - 1];
            Outputs(l, events, k)
            == if !last.moreFragments && last.headerLength + |payload| <= 65535 then [Patch(last, payload)] else []
  {
    hide WellFormed, Outputs, CollectRun, Patch, Covered;
    assert ps[..0] == [] && ps[0..] == ps;
    Isolation(l, events, k, {});
    CollectFragments(ps, payload, 0);
  }

  /** Fragments of two datagrams that differ only in protocol can be rebuilt into one, with the protocol of the last. */
  lemma {:induction false} ProtocolsMix(l: Store, p: Packet, q: Packet, payload: Data)
    requires WellFormed(l) && AllCaptured([p, q]) && Lookup(l.entries, Datagram(p)) == None
    requires Belongs(q, Datagram(p)) && p.protocol != q.protocol
    requires p.moreFragments && q.fragmentOffset != 0 && !q.moreFragments && FragmentsOf([p, q], payload)
    ensures Outputs(l, [p, q], Datagram(p))
            == if q.headerLength + |payload| <= 65535 then [Patch(q, payload)] else []
  {
    hide WellFormed, Outputs, FragmentsOf, Patch;
    var k := Datagram(p);
    assert [p, q][1..] == [q] && [q][1..] == [];
    assert Of([q], k) == [q] && Of([p, q], k) == [p, q];
    assert NotCrowded([], k, {}) && NotCrowded([q], k, {}) && NotCrowded([p, q], k, {});
    ReassemblyIff(l, [p, q], k, [p, q], payload);
  }

  lemma PatchBytes(p: Packet, payload: Data)
    requires p.Captured() && p.headerLength + |payload| <= MAX_SIZE
    ensures var f := Patch(p, payload);
            && (forall i | 0 <= i < p.headerLength && !(2 <= i < 4) && !(6 <= i < 8) :: f[i] == p.frame[p.start + i])
            && ToUInt16(f, 2) == |f| && f[6] == 0 && f[7] == 0
            && f[p.headerLength..] == payload
  {
    var f, h, n := Patch(p, payload), p.Header(), FromUInt16(p.headerLength + |payload|);
    assert f[2] == n[0] && f[3] == n[1];
    forall i | 0 <= i < p.headerLength && !(2 <= i < 4) && !(6 <= i < 8) ensures f[i] == p.frame[p.start + i] {
      assert h[i] == p.frame[p.start + i];
      if i < 2 {
        assert f[i] == h[..2][i] == h[i];
      } else if i < 6 {
        assert f[i] == h[4..6][i - 4] == h[i];
      } else {
        assert f[i] == h[8..][i - 8] == h[i];
      }
    }
  }

  /** What is rebuilt parses as an unfragmented packet with the payload and the fields of the last fragment. */
  lemma {:induction false} PatchReparses(p: Packet, payload: Data)
    requires p.Captured() && p.headerLength + |payload| <= MAX_SIZE && payload != []
    requires p == Construct(p.frame, p.start, p.end) && Parses(p.frame, p.start)
    ensures var f := Patch(p, payload);
            && Parses(f, 0)
            && var q := Construct(f, 0, |f| - 1);
               && q.Captured() && q.Payload() == payload
               && q.fragmentOffset == 0 && !q.moreFragments
               && q.totalLength == |f| && q.end == |f| - 1 && q.headerLength == p.headerLength
               && Belongs(q, Datagram(p)) && q.protocol == p.protocol
  {
    hide Patch;
    PatchBytes(p, payload);
    var f := Patch(p, payload);
    assert f[0] == p.frame[p.start];
    assert forall i | 12 <= i < 16 :: f[i] == p.frame[p.start + i];
    assert f[12..16] == p.source && f[16..20] == p.destination;
  }

  // ----- From the bytes that were sent

  /** A fragment as it is sent: its header, and the part of the payload behind it. */
  datatype Sent = Sent(header: Header, data: Data)

  predicate GoodSent(f: Sent) {
    GoodHeader(f.header) && 20 + |f.header.options| + |f.data| < 0x1_0000
  }

  function Offset(f: Sent): nat {
    8 * f.header.fragment
  }

  /** `p` is what was made of the bytes of `f` in a frame, with any bytes behind them. */
  ghost predicate Captures(p: Packet, f: Sent) {
    && GoodSent(f) && p.start + 20 <= |p.frame|
    && var total := 20 + |f.header.options| + |f.data|;
       && Bytes.Holds(p.frame, p.start, EncodeHeader(f.header, total) + f.data)
       && exists end :: p.start + total - 1 <= end < |p.frame| && p == Construct(p.frame, p.start, end)
  }

  /** Fragments of one payload that do not overlap and leave no hole; only the last has the MF flag clear. */
  ghost predicate Pieces(fs: seq<Sent>, payload: Data) {
    && (forall f | f in fs ::
          && f.data != [] && Offset(f) + |f.data| <= |payload|
          && payload[Offset(f)..Offset(f) + |f.data|] == f.data
          && (f.header.moreFragments <==> Offset(f) + |f.data| < |payload|))
    && (forall i, j | 0 <= i < j < |fs| ::
          Offset(fs[i]) + |fs[i].data| <= Offset(fs[j]) || Offset(fs[j]) + |fs[j].data| <= Offset(fs[i]))
    && (forall x: nat | x < |payload| :: Reached(fs, x))
  }

  ghost predicate Reached(fs: seq<Sent>, x: nat) {
    exists i :: 0 <= i < |fs| && Offset(fs[i]) <= x < Offset(fs[i]) + |fs[i].data|
  }

  /** What the store gets to see of a fragment. */
  lemma {:induction false} CapturesReads(p: Packet, f: Sent)
    requires Captures(p, f)
    ensures p.Captured() && p.Payload() == f.data && p.fragmentOffset == Offset(f)
    ensures p.moreFragments == f.header.moreFragments && p.headerLength == 20 + |f.header.options|
    ensures p.source == f.header.source && p.destination == f.header.destination
    ensures p.identification == f.header.identification && p.protocol == f.header.protocol
    ensures p.Header() == EncodeHeader(f.header, 20 + |f.header.options| + |f.data|)
  {
    hide EncodeHeader, Construct, Bytes.Holds, GoodHeader;
    var total := 20 + |f.header.options| + |f.data|;
    var end :| p.start + total - 1 <= end < |p.frame| && p == Construct(p.frame, p.start, end);
    var h := EncodeHeader(f.header, total);
    HoldsParts(p.frame, p.start, h, f.data);
    HeldBytes(p.frame, p.start, h);
    HeldBytes(p.frame, p.start + |h|, f.data);
    HeaderReads(p.frame, p.start, end, f.header, total);
  }

  lemma {:induction false} PieceReads(ps: seq<Packet>, fs: seq<Sent>, payload: Data, i: nat)
    requires |ps| == |fs| && Pieces(fs, payload) && i < |ps| && Captures(ps[i], fs[i])
    ensures var p := ps[i];
            && p.Captured() && p.Payload() == fs[i].data && p.PayloadLength() == |fs[i].data| > 0
            && p.fragmentOffset == Offset(fs[i]) && p.fragmentOffset + p.PayloadLength() <= |payload|
            && p.Payload() == payload[p.fragmentOffset..p.fragmentOffset + p.PayloadLength()]
            && (p.moreFragments <==> p.fragmentOffset + p.PayloadLength() < |payload|)
  {
    hide Captures;
    CapturesReads(ps[i], fs[i]);
    assert fs[i] in fs;
  }

  lemma {:induction false} PiecesCover(ps: seq<Packet>, fs: seq<Sent>, payload: Data)
    requires |ps| == |fs| && Pieces(fs, payload) && (forall i | 0 <= i < |ps| :: Captures(ps[i], fs[i]))
    requires AllCaptured(ps)
    ensures Covered(ps) == Range(0, |payload|)
  {
    hide Captures, Covered, Pieces;
    forall x ensures x in Covered(ps) <==> x in Range(0, |payload|) {
      CoveredHolds(ps, x);
      if x in Covered(ps) {
        var i :| 0 <= i < |ps| && Holds(ps[i], x);
        PieceReads(ps, fs, payload, i);
      }
      if 0 <= x < |payload| {
        assert Reached(fs, x) by { AllReached(fs, payload, x); }
        var i :| 0 <= i < |fs| && Offset(fs[i]) <= x < Offset(fs[i]) + |fs[i].data|;
        PieceReads(ps, fs, payload, i);
        assert Holds(ps[i], x);
      }
    }
  }

  lemma AllReached(fs: seq<Sent>, payload: Data, x: nat)
    requires Pieces(fs, payload) && x < |payload|
    ensures Reached(fs, x)
  {}

  lemma Apart(fs: seq<Sent>, payload: Data, i: nat, j: nat)
    requires Pieces(fs, payload) && i < j < |fs|
    ensures Offset(fs[i]) + |fs[i].data| <= Offset(fs[j]) || Offset(fs[j]) + |fs[j].data| <= Offset(fs[i])
  {}

  lemma {:induction false} PiecesAreFragments(ps: seq<Packet>, fs: seq<Sent>, payload: Data)
    requires |ps| == |fs| && Pieces(fs, payload) && forall i | 0 <= i < |ps| :: Captures(ps[i], fs[i])
    ensures FragmentsOf(ps, payload)
  {
    hide Captures, Covered, Pieces;
    forall p | p in ps
      ensures p.Captured() && p.PayloadLength() > 0
      ensures p.moreFragments <==> p.fragmentOffset + p.PayloadLength() < |payload|
    {
      var i :| 0 <= i < |ps| && ps[i] == p;
      PieceReads(ps, fs, payload, i);
    }
    PiecesCover(ps, fs, payload);
    forall p, x: int | p in ps && Holds(p, x)
      ensures x < |payload| && p.Captured() && p.Payload()[x - p.fragmentOffset] == payload[x]
    {
      var i :| 0 <= i < |ps| && ps[i] == p;
      PieceReads(ps, fs, payload, i);
    }
    forall i, j, x: int | 0 <= i < j < |ps| && Holds(ps[i], x) ensures !Holds(ps[j], x) {
      Apart(fs, payload, i, j);
      PieceReads(ps, fs, payload, i);
      PieceReads(ps, fs, payload, j);
    }
  }

  /** The rebuilt bytes are a header like that of the last fragment, unfragmented, and the payload. */
  lemma {:induction false} PatchIsSent(p: Packet, f: Sent, payload: Data)
    requires Captures(p, f) && p.Captured() && p.headerLength + |payload| <= 65535
    ensures GoodHeader(f.header) && 20 + |f.header.options| + |payload| < 0x1_0000
    ensures Patch(p, payload)
            == EncodeHeader(f.header.(dontFragment := false, moreFragments := false, fragment := 0),
                            20 + |f.header.options| + |payload|) + payload
  {
    hide Captures;
    CapturesReads(p, f);
    CapturesGood(p, f);
    var total := 20 + |f.header.options| + |payload|;
    var h := EncodeHeader(f.header, 20 + |f.header.options| + |f.data|);
    var d := EncodeHeader(f.header.(dontFragment := false, moreFragments := false, fragment := 0), total);
    assert d[..2] == h[..2] && d[2..4] == FromUInt16(total) && d[4..6] == h[4..6] && d[6..8] == [0, 0];
    assert d[8..] == h[8..];
    assert d == d[..2] + d[2..4] + d[4..6] + d[6..8] + d[8..];
  }

  lemma CapturesGood(p: Packet, f: Sent)
    requires Captures(p, f)
    ensures GoodSent(f)
  {}

  /**
   From the bytes of the fragments of a datagram, in any order and among other traffic that does not
   crowd them out: one datagram comes out, with the header of the last fragment and the whole payload,
   if that fragment has the MF flag clear and the size is allowed; and nothing otherwise.
   */
  lemma {:induction false} SentIsRebuilt(l: Store, events: seq<Packet>, k: Key, ps: seq<Packet>, fs: seq<Sent>,
                                         payload: Data)
    requires WellFormed(l) && AllCaptured(events) && Lookup(l.entries, k) == None && NotCrowded(events, k, {})
    requires Of(events, k) == ps && |ps| == |fs| > 0 && (forall i | 0 <= i < |ps| :: Captures(ps[i], fs[i]))
    requires Pieces(fs, payload)
    ensures var h := fs[|fs| - 1].header;
            var total := 20 + |h.options| + |payload|;
            && GoodHeader(h)
            && Outputs(l, events, k)
               == if h.moreFragments || total > 65535 then []
                  else [EncodeHeader(h.(dontFragment := false, moreFragments := false, fragment := 0), total) + payload]
  {
    hide WellFormed, Outputs, NotCrowded, Of, Captures, Pieces, FragmentsOf, Patch, GoodHeader, EncodeHeader;
    var n := |ps| - 1;
    PiecesAreFragments(ps, fs, payload);
    ReassemblyIff(l, events, k, ps, payload);
    CapturesReads(ps[n], fs[n]);
    CapturesGood(ps[n], fs[n]);
    if ps[n].headerLength + |payload| <= 65535 {
      PatchIsSent(ps[n], fs[n], payload);
    }
  }
}
