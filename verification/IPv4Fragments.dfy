/**
 Collecting the fragments of IPv4 datagrams and rebuilding the datagram: the effect of one fragment on
 the store, as a function and as the method that brings it about.
 */
module IPv4Fragments {
  import opened Bytes
  import opened IPv4Packet
  import opened PopularityList
  import opened Sets
  import opened Wrappers

  const STORE_SIZE := 1024
  const MAX_SIZE := 65535

  /** Source, destination and identification; the protocol is not part of the key. */
  datatype Key = Key(source: Data, destination: Data, identification: nat)

  function KeyOf(p: Packet): Key {
    Key(p.source, p.destination, p.identification)
  }

  // ----- Rebuilding

  function TotalLength(ps: seq<Packet>): int {
    if ps == [] then 0 else TotalLength(ps[..|ps| - 1]) + ps[|ps| - 1].PayloadLength()
  }

  predicate AllMore(ps: seq<Packet>) {
    forall p | p in ps :: p.moreFragments
  }

  predicate AllCaptured(ps: seq<Packet>) {
    forall p | p in ps :: p.Captured()
  }

  function PasteOne(buf: Data, at: nat, d: Data): (r: Data)
    requires at + |d| <= |buf|
    ensures |r| == |buf|
    ensures forall x | 0 <= x < |r| :: r[x] == if at <= x < at + |d| then d[x - at] else buf[x]
  {
    buf[..at] + d + buf[at + |d|..]
  }

  /** The payloads copied one after the other to their offsets behind `header` bytes, bounds checked. */
  function Paste(buf: Data, header: nat, ps: seq<Packet>): (r: Option<Data>)
    requires AllCaptured(ps)
    ensures r.Some? ==> |r.value| == |buf|
  {
    if ps == [] then Some(buf)
    else
      assert forall q | q in ps[..|ps| - 1] :: q in ps;
      var p := ps[|ps| - 1];
      match Paste(buf, header, ps[..|ps| - 1])
      case None => None
      case Some(b) =>
        if p.fragmentOffset + header + p.PayloadLength() > |b| then None
        else Some(PasteOne(b, p.fragmentOffset + header, p.Payload()))
  }

  function Zeros(n: nat): (d: Data)
    ensures |d| == n && forall i | 0 <= i < n :: d[i] == 0
  {
    seq(n, _ => 0)
  }

  /** What the collected fragments `ps` give when `p` has just arrived: the rebuilt bytes, header unset. */
  function Rebuild(p: Packet, ps: seq<Packet>): Option<Data>
    requires AllCaptured(ps)
  {
    var size := p.headerLength + TotalLength(ps);
    if AllMore(ps) || size > MAX_SIZE || size < 0 then None
    else Paste(Zeros(size), p.headerLength, ps)
  }

  /** The header of `p` in front of `payload`, as an unfragmented packet. */
  function Patch(p: Packet, payload: Data): (r: Data)
    requires p.Captured() && p.headerLength + |payload| <= MAX_SIZE
    ensures |r| == p.headerLength + |payload|
  {
    var h := p.Header();
    h[..2] + FromUInt16(p.headerLength + |payload|) + h[4..6] + [0, 0] + h[8..] + payload
  }

  function Emit(p: Packet, rebuilt: Option<Data>): Option<Data>
    requires p.Captured()
    requires rebuilt.Some? ==> |rebuilt.value| <= MAX_SIZE
  {
    match rebuilt
    case None => None
    case Some(buf) => if |buf| > p.headerLength then Some(Patch(p, buf[p.headerLength..])) else None
  }

  lemma {:induction false} PasteSucceeds(buf: Data, header: nat, ps: seq<Packet>)
    requires AllCaptured(ps)
    ensures Paste(buf, header, ps).Some?
            <==> forall p | p in ps :: p.fragmentOffset + header + p.PayloadLength() <= |buf|
    decreases |ps|
  {
    if ps != [] {
      var rest := ps[..|ps| - 1];
      assert ps == rest + [ps[|ps| - 1]];
      assert forall q | q in rest :: q in ps;
      PasteSucceeds(buf, header, rest);
    }
  }

  // ----- The store

  type Store = Lru<Key, seq<Packet>>

  const CONFIG: Config<Key, seq<Packet>> := Config(STORE_SIZE, STORE_SIZE, None, None, false)

  ghost predicate WellFormed(l: Store) {
    && l.pool == STORE_SIZE && |l.entries| <= STORE_SIZE && DistinctKeys(l.entries)
    && forall e | e in l.entries :: AllCaptured(e.value)
  }

  /** What has been collected under `k`. */
  function Got(l: Store, k: Key): seq<Packet> {
    match Lookup(l.entries, k)
    case None => []
    case Some(ps) => ps
  }

  lemma GotCaptured(l: Store, p: Packet)
    requires WellFormed(l) && p.Captured()
    ensures AllCaptured(Got(l, KeyOf(p)) + [p])
  {
    LookupFinds(l.entries, KeyOf(p));
  }

  /** The lookup that precedes the collection, which enters an empty list for a new key. */
  function Opened(l: Store, k: Key): (r: Store)
    requires 0 <= l.pool
    ensures 0 <= r.pool
  {
    if Lookup(l.entries, k).Some? then Found(l, k) else Added(CONFIG, l, k, [])
  }

  /** One fragment arrives. */
  function Arrive(l: Store, p: Packet): (Store, Option<Data>)
    requires WellFormed(l) && p.Captured()
  {
    GotCaptured(l, p);
    var k, ps := KeyOf(p), Got(l, KeyOf(p)) + [p];
    var l' := Added(CONFIG, Opened(l, k), k, ps);
    if AllMore(ps) then (l', None)
    else (Removed(CONFIG, l', k, false), Emit(p, Rebuild(p, ps)))
  }

  /** Packets that are not fragmented are not looked at by the store. */
  predicate IsFragment(p: Packet) {
    p.fragmentOffset != 0 || p.moreFragments
  }

  /** One packet arrives. */
  function Receive(l: Store, p: Packet): (Store, Option<Data>)
    requires WellFormed(l) && p.Captured()
  {
    if IsFragment(p) then Arrive(l, p) else (l, None)
  }

  /** One fragment of a datagram, seen apart from all others. */
  function Collect(got: seq<Packet>, p: Packet): (seq<Packet>, Option<Data>)
    requires AllCaptured(got) && p.Captured()
  {
    var ps := got + [p];
    if AllMore(ps) then (ps, None) else ([], Emit(p, Rebuild(p, ps)))
  }

  lemma {:induction false} OpenedIsFront(l: Store, k: Key)
    requires WellFormed(l)
    ensures WellFormed(Opened(l, k))
    ensures Opened(l, k).entries == Front(l.entries, STORE_SIZE, k, Got(l, k))
  {
    hide Without, Lookup, Added;
    LookupWithout(l.entries, k);
    LookupFinds(l.entries, k);
    FixedAdd(CONFIG, l, k, []);
    FrontWellFormed(l.entries, STORE_SIZE, k, Got(l, k));
  }

  lemma {:induction false} AddedIsFront(l: Store, k: Key, ps: seq<Packet>)
    requires WellFormed(l) && AllCaptured(ps)
    ensures Added(CONFIG, l, k, ps).entries == Front(l.entries, STORE_SIZE, k, ps)
    ensures WellFormed(Added(CONFIG, l, k, ps))
  {
    hide Added, Front;
    FixedAdd(CONFIG, l, k, ps);
    FrontWellFormed(l.entries, STORE_SIZE, k, ps);
  }

  lemma {:induction false} RemovedWellFormed(l: Store, k: Key)
    requires WellFormed(l)
    ensures WellFormed(Removed(CONFIG, l, k, false))
    ensures Removed(CONFIG, l, k, false).entries == Without(l.entries, k)
  {
    WithoutDistinct(l.entries, k);
    LookupWithout(l.entries, k);
    forall e | e in Without(l.entries, k) ensures AllCaptured(e.value) {
      WithoutMembers(l.entries, k, e);
    }
  }

  lemma {:induction false} ArriveWellFormed(l: Store, p: Packet)
    requires WellFormed(l) && p.Captured()
    ensures WellFormed(Arrive(l, p).0)
  {
    hide WellFormed, Added, Removed, Opened, Rebuild, Got;
    var k := KeyOf(p);
    StoreDistinct(l);
    GotCaptured(l, p);
    OpenedIsFront(l, k);
    AddedIsFront(Opened(l, k), k, Got(l, k) + [p]);
    RemovedWellFormed(Added(CONFIG, Opened(l, k), k, Got(l, k) + [p]), k);
  }

  /** A fragment changes what is collected under its key as if there were no others. */
  lemma {:induction false} ArriveOwn(l: Store, p: Packet)
    requires WellFormed(l) && p.Captured() && AllCaptured(Got(l, KeyOf(p)))
    ensures Got(Arrive(l, p).0, KeyOf(p)) == Collect(Got(l, KeyOf(p)), p).0
    ensures Arrive(l, p).1 == Collect(Got(l, KeyOf(p)), p).1
    ensures Lookup(Arrive(l, p).0.entries, KeyOf(p)).Some? ==> Before(Arrive(l, p).0.entries, KeyOf(p)) == {}
  {
    hide WellFormed, Added, Removed, Opened, Rebuild, Lookup, Before, Front, Without;
    var k := KeyOf(p);
    var ps := Got(l, k) + [p];
    StoreDistinct(l);
    GotCaptured(l, p);
    OpenedIsFront(l, k);
    AddedIsFront(Opened(l, k), k, ps);
    var l' := Added(CONFIG, Opened(l, k), k, ps);
    FrontFirst(Opened(l, k).entries, STORE_SIZE, k, ps);
    RemovedWellFormed(l', k);
    StoreDistinct(l');
    WithoutHasNot(l'.entries, k);
  }

  /**
   The protocol is not part of the key: fragments of two datagrams that differ only in protocol are
   collected into one list.
   */
  lemma {:induction false} ProtocolsShareAList(l: Store, p: Packet, q: Packet)
    requires WellFormed(l) && p.Captured() && q.Captured()
    requires Lookup(l.entries, Key(p.source, p.destination, p.identification)) == None
    requires p.source == q.source && p.destination == q.destination && p.identification == q.identification
    requires p.protocol != q.protocol && p.moreFragments && q.moreFragments
    ensures WellFormed(Arrive(l, p).0)
    ensures Got(Arrive(Arrive(l, p).0, q).0, Key(p.source, p.destination, p.identification)) == [p, q]
  {
    hide WellFormed, Arrive, Lookup;
    assert KeyOf(q) == KeyOf(p);
    ArriveWellFormed(l, p);
    ArriveOwn(l, p);
    ArriveOwn(Arrive(l, p).0, q);
    assert AllMore([p]) && AllMore([p, q]);
  }

  lemma StoreDistinct(l: Store)
    requires WellFormed(l)
    ensures DistinctKeys(l.entries) && l.pool == STORE_SIZE
  {
  }

  /** A fragment of another datagram leaves `k` alone, as long as fewer than 1024 keys are in front of it. */
  lemma {:induction false} ArriveOther(l: Store, p: Packet, k: Key)
    requires WellFormed(l) && p.Captured() && KeyOf(p) != k
    requires Lookup(l.entries, k).Some? ==> |Before(l.entries, k) + {KeyOf(p)}| < 1024
    ensures Lookup(Arrive(l, p).0.entries, k) == Lookup(l.entries, k)
    ensures Lookup(l.entries, k).Some? ==> Before(Arrive(l, p).0.entries, k) <= Before(l.entries, k) + {KeyOf(p)}
  {
    hide WellFormed, Added, Removed, Opened, Rebuild, Lookup, Before, Front, Without, Got;
    var other := KeyOf(p);
    var ps := Got(l, other) + [p];
    GotCaptured(l, p);
    StoreDistinct(l);
    OpenedIsFront(l, other);
    var l1 := Opened(l, other);
    StoreDistinct(l1);
    AddedIsFront(l1, other, ps);
    var l2 := Added(CONFIG, l1, other, ps);
    RemovedWellFormed(l2, other);
    LookupOther(l2.entries, k, other);
    if Lookup(l.entries, k).Some? {
      FrontKeeps(l.entries, STORE_SIZE, other, Got(l, other), k);
      SubsetSize(Before(l1.entries, k) + {other}, Before(l.entries, k) + {other});
      FrontKeeps(l1.entries, STORE_SIZE, other, ps, k);
    } else {
      FrontAbsent(l.entries, STORE_SIZE, other, Got(l, other), k);
      FrontAbsent(l1.entries, STORE_SIZE, other, ps, k);
    }
  }

  // ----- The store itself

  class FragmentStore {
    const fragments: List<Key, seq<Packet>>

    ghost predicate Valid()
      reads this, fragments
    {
      fragments.config == CONFIG && fragments.Valid() && WellFormed(fragments.Contents())
    }

    constructor ()
      ensures Valid() && fresh(fragments) && fragments.Contents() == Empty(CONFIG)
    {
      fragments := new List(CONFIG);
    }

    /** One packet arrives; the result is the rebuilt datagram, if it is a fragment that completes one. */
    method GetReassembled(p: Packet) returns (r: Option<Data>)
      requires Valid() && p.Captured()
      modifies fragments
      ensures Valid() && (fragments.Contents(), r) == Receive(old(fragments.Contents()), p)
    {
      hide WellFormed, Arrive;
      r := None;
      if p.fragmentOffset != 0 || p.moreFragments {
        r := Reassemble(p);
      }
    }

    /** The part of it that handles fragments. */
    method Reassemble(p: Packet) returns (r: Option<Data>)
      requires Valid() && p.Captured()
      modifies fragments
      ensures Valid() && (fragments.Contents(), r) == Arrive(old(fragments.Contents()), p)
    {
      hide WellFormed, Opened, Added, Removed, Rebuild, Emit, Got, KeyOf, AllCaptured, AllMore;
      ghost var l := fragments.Contents();
      ArriveWellFormed(l, p);
      GotCaptured(l, p);
      var ipPacketList := Enter(p);
      var all, total := Totals(ipPacketList);
      if all {
        r := None;
      } else {
        r := RebuildFrom(p, ipPacketList, total);
        fragments.Remove(KeyOf(p), false);
      }
    }

    /** Looks up the list of the fragment's datagram, creates it if need be, and puts the fragment in. */
    method Enter(p: Packet) returns (ipPacketList: seq<Packet>)
      requires Valid()
      modifies fragments
      ensures fragments.Valid() && fragments.config == CONFIG
      ensures 0 <= old(fragments.Contents()).pool
      ensures var l, k := old(fragments.Contents()), KeyOf(p);
              && ipPacketList == Got(l, k) + [p]
              && fragments.Contents() == Added(CONFIG, Opened(l, k), k, ipPacketList)
    {
      hide WellFormed, Added, Lookup, Without, KeyOf;
      StoreDistinct(fragments.Contents());
      var fragmentID := KeyOf(p);
      var found := fragments.TryGetValue(fragmentID);
      ipPacketList := [];
      if found.None? {
        fragments.Add(fragmentID, ipPacketList);
      } else {
        ipPacketList := found.value;
      }
      ipPacketList := ipPacketList + [p];
      fragments.Add(fragmentID, ipPacketList);
    }

    /** The datagram, if its size is allowed and all payloads lie within it. */
    method RebuildFrom(p: Packet, ps: seq<Packet>, total: int) returns (r: Option<Data>)
      requires AllCaptured(ps) && p.Captured() && !AllMore(ps) && total == TotalLength(ps)
      ensures r == Emit(p, Rebuild(p, ps))
    {
      hide Paste, AllCaptured, AllMore, TotalLength, Zeros, Patch;
      TotalNotNegative(ps);
      var size := p.headerLength + total;
      if size > MAX_SIZE {
        return None;
      }
      var valid, buf := CopyPayloads(ps, p.headerLength, size);
      if !valid || size <= p.headerLength {
        return None;
      }
      r := Some(Patch(p, buf[p.headerLength..]));
    }

    /** The first loop: whether all fragments have the MF flag, and their payload lengths added up. */
    method Totals(ps: seq<Packet>) returns (all: bool, total: int)
      ensures all == AllMore(ps) && total == TotalLength(ps)
    {
      all, total := true, 0;
      for i := 0 to |ps|
        invariant all == AllMore(ps[..i]) && total == TotalLength(ps[..i])
      {
        assert ps[..i + 1][..i] == ps[..i];
        assert forall q | q in ps[..i + 1] :: q in ps[..i] || q == ps[i];
        assert ps[i] in ps[..i + 1] && forall q | q in ps[..i] :: q in ps[..i + 1];
        total := total + ps[i].PayloadLength();
        if !ps[i].moreFragments {
          all := false;
        }
      }
      assert ps[..|ps|] == ps;
    }

    /** The second loop: the payloads copied in place, until one is out of bounds. */
    method CopyPayloads(ps: seq<Packet>, header: nat, size: nat) returns (valid: bool, r: Data)
      requires AllCaptured(ps) && header <= size
      ensures valid == Paste(Zeros(size), header, ps).Some?
      ensures valid ==> Some(r) == Paste(Zeros(size), header, ps)
    {
      var buf := new byte[size](_ => 0);
      assert buf[..] == Zeros(size);
      valid, r := true, [];
      assert AllCaptured(ps[..0]);
      for i := 0 to |ps|
        invariant AllCaptured(ps[..i])
        invariant valid
        invariant fresh(buf) && Paste(Zeros(size), header, ps[..i]) == Some(buf[..])
      {
        ghost var before := buf[..];
        var p := ps[i];
        assert p in ps && p.Captured();
        PasteStep(Zeros(size), header, ps, i);
        if p.fragmentOffset + header + p.PayloadLength() > buf.Length {
          PasteFails(Zeros(size), header, ps, i + 1);
          return false, [];
        }
        CopyInto(buf, p.fragmentOffset + header, p.Payload());
      }
      assert ps[..|ps|] == ps;
      r := buf[..];
    }

    /** `std::copy` into the buffer. */
    method CopyInto(buf: array<byte>, at: nat, d: Data)
      requires at + |d| <= buf.Length
      modifies buf
      ensures buf[..] == PasteOne(old(buf[..]), at, d)
    {
      for j := 0 to |d|
        invariant forall x | 0 <= x < buf.Length ::
                    buf[x] == if at <= x < at + j then d[x - at] else old(buf[x])
      {
        buf[at + j] := d[j];
      }
    }
  }

  lemma {:induction false} TotalNotNegative(ps: seq<Packet>)
    requires AllCaptured(ps)
    ensures TotalLength(ps) >= 0
    decreases |ps|
  {
    if ps != [] {
      assert ps[|ps| - 1] in ps && forall q | q in ps[..|ps| - 1] :: q in ps;
      TotalNotNegative(ps[..|ps| - 1]);
    }
  }

  lemma PasteStep(buf: Data, header: nat, ps: seq<Packet>, i: nat)
    requires AllCaptured(ps) && i < |ps| && AllCaptured(ps[..i])
    ensures AllCaptured(ps[..i + 1])
    ensures var b := Paste(buf, header, ps[..i]);
            Paste(buf, header, ps[..i + 1])
            == if b.None? || ps[i].fragmentOffset + header + ps[i].PayloadLength() > |b.value| then None
               else Some(PasteOne(b.value, ps[i].fragmentOffset + header, ps[i].Payload()))
  {
    assert forall q | q in ps[..i + 1] :: q in ps;
    assert ps[..i + 1][..i] == ps[..i];
  }

  lemma {:induction false} PasteFails(buf: Data, header: nat, ps: seq<Packet>, n: nat)
    requires AllCaptured(ps) && n <= |ps| && AllCaptured(ps[..n]) && Paste(buf, header, ps[..n]).None?
    ensures Paste(buf, header, ps).None?
  {
    PasteSucceeds(buf, header, ps[..n]);
    PasteSucceeds(buf, header, ps);
    assert forall q | q in ps[..n] :: q in ps;
  }
}
