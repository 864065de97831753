/**
 What is wrapped into Ethernet frames, VLAN tags, mirrored frames, GRE tunnels and IP datagrams, and
 that a frame that carries it is taken apart into the same layers.
 */
module Encapsulation {
  import opened Bytes
  import opened DecodeTree
  import IPv4Packet
  import opened Wrappers

  // ----- What is carried

  /** An ERSPAN header: eight bytes, or twelve whose last bit announces eight more (version 2). */
  datatype MirrorHeader =
    | Short(first: byte, rest: Data)
    | Long(low: nat, middle: Data, last: byte, more: Data)

  datatype Ip6Header = Ip6Header(front: Data, nextHeader: byte, hopLimit: byte, addresses: Data)

  /** What a frame carries, in any nesting. IP datagrams may be followed by padding. */
  datatype Nest =
    | Carried(etherType: nat, bytes: Data)
    | Tagged(tag: Data, inner: Nest)
    | Bridged(addresses: Data, inner: Nest)
    | Skipped(four: Data, addresses: Data, inner: Nest)
    | Mirrored(header: MirrorHeader, addresses: Data, inner: Nest)
    | Ip4(header4: IPv4Packet.Header, payload: Data, padding: Data)
    | NotIp4(bytes: Data)
    | Ip6(header6: Ip6Header, payload: Data, padding: Data)

  /** A GRE header with its optional fields; `low` is the rest of the flags and the version. */
  datatype GreHeader = GreHeader(checksum: bool, routing: bool, low: nat, offset: Data, key: Data, sequence: Data)

  /** The type field in front of what is carried. */
  function TypeOf(n: Nest): (t: nat)
    ensures Good(n) ==> t < 0x1_0000
  {
    match n
    case Carried(etherType, _) => etherType
    case Tagged(_, _) => 0x8100
    case Bridged(_, _) => 0x6558
    case Skipped(_, _, _) => 0x8130
    case Mirrored(_, _, _) => 0x88be
    case Ip4(_, _, _) => 0x0800
    case NotIp4(_) => 0x0800
    case Ip6(_, _, _) => 0x86dd
  }

  /** The types that stand for something else than a leaf. */
  const HOLDERS := {0x0800, 0x86dd, 0x8100, 0x6558, 0x8130, 0x88be}

  predicate GoodMirror(h: MirrorHeader) {
    match h
    case Short(first, rest) => first / 16 != 2 && |rest| == 7
    case Long(low, middle, last, more) => low < 16 && |middle| == 10 && |more| == if last % 2 == 1 then 8 else 0
  }

  predicate Good6(h: Ip6Header) {
    |h.front| == 4 && |h.addresses| == 32
  }

  predicate GoodGre(h: GreHeader) {
    && h.low < 0x1000
    && |h.offset| == (if h.checksum || h.routing then 4 else 0)
    && (h.key != [] ==> |h.key| == 4) && (h.sequence != [] ==> |h.sequence| == 4)
  }

  predicate Good(n: Nest) {
    match n
    case Carried(etherType, _) => etherType < 0x1_0000 && etherType !in HOLDERS
    case Tagged(tag, inner) => |tag| == 2 && Good(inner)
    case Bridged(addresses, inner) => |addresses| == 12 && Good(inner)
    case Skipped(four, addresses, inner) => |four| == 4 && |addresses| == 12 && Good(inner)
    case Mirrored(header, addresses, inner) => GoodMirror(header) && |addresses| == 12 && Good(inner)
    case Ip4(header, payload, _) =>
      IPv4Packet.GoodHeader(header) && IPv4Packet.HeaderSize(header) + |payload| < 0x1_0000
    case NotIp4(bytes) => bytes != [] ==> bytes[0] / 16 != 4 || bytes[0] % 16 < 5
    case Ip6(header, payload, _) => Good6(header) && |payload| < 0x1_0000
  }

  // ----- How it is sent

  function EncodeMirror(h: MirrorHeader): (d: Data)
    requires GoodMirror(h)
    ensures |d| >= 8
  {
    match h
    case Short(first, rest) => [first] + rest
    case Long(low, middle, last, more) => [32 + low] + middle + [last] + more
  }

  function Encode6(h: Ip6Header, payloadSize: nat): (d: Data)
    requires Good6(h) && payloadSize < 0x1_0000
    ensures |d| == 40
  {
    h.front + [payloadSize / 256, payloadSize % 256, h.nextHeader, h.hopLimit] + h.addresses
  }

  function Encode(n: Nest): Data
    requires Good(n)
    decreases n, 0
  {
    match n
    case Carried(_, bytes) => bytes
    case Tagged(tag, inner) => tag + FromUInt16(TypeOf(inner)) + Encode(inner)
    case Bridged(addresses, inner) => EncodeFrame(addresses, inner)
    case Skipped(four, addresses, inner) => four + EncodeFrame(addresses, inner)
    case Mirrored(header, addresses, inner) => EncodeMirror(header) + EncodeFrame(addresses, inner)
    case Ip4(header, payload, padding) =>
      IPv4Packet.EncodeHeader(header, IPv4Packet.HeaderSize(header) + |payload|) + payload + padding
    case NotIp4(bytes) => bytes
    case Ip6(header, payload, padding) => Encode6(header, |payload|) + payload + padding
  }

  /** An Ethernet frame: addresses, type and what is carried. */
  function EncodeFrame(addresses: Data, n: Nest): Data
    requires Good(n)
    decreases n, 1
  {
    addresses + FromUInt16(TypeOf(n)) + Encode(n)
  }

  function GreFlags(h: GreHeader): (flags: nat)
    requires GoodGre(h)
    ensures flags < 0x1_0000
  {
    (if h.checksum then 0x8000 else 0) + (if h.routing then 0x4000 else 0)
    + (if h.key != [] then 0x2000 else 0) + (if h.sequence != [] then 0x1000 else 0) + h.low
  }

  function EncodeGreHeader(h: GreHeader, etherType: nat): Data
    requires GoodGre(h) && etherType < 0x1_0000
  {
    FromUInt16(GreFlags(h)) + FromUInt16(etherType) + (h.offset + h.key + h.sequence)
  }

  // ----- The layers it is meant to have

  function LeafOf(etherType: nat): LeafKind {
    if etherType == 0x0806 then Arp
    else if etherType == 0x8847 then LeafKind.Mpls
    else if etherType == 0x8864 then LeafKind.PPPoE
    else if etherType < 0x0600 then LogicalLinkControl
    else RawData
  }

  /** What an IP protocol number stands for. */
  function TransportOf(protocol: nat): LeafKind {
    match protocol
    case 1 => Icmp
    case 6 => Tcp
    case 17 => Udp
    case _ => RawData
  }

  /** A VLAN tag knows no MPLS, mirrored or bridged frames. */
  predicate KnownToVlan(etherType: nat) {
    etherType !in {0x8847, 0x88be, 0x8130, 0x6558}
  }

  function LastIndex(start: nat, n: Nest): int
    requires Good(n)
  {
    start + |Encode(n)| - 1
  }

  /** One payload byte is not looked at, nor are fragments, and padding is cut off. */
  function Expected(data: Data, n: Nest, start: nat): seq<Packet>
    requires Good(n)
    decreases n, 0
  {
    match n
    case Carried(etherType, _) => [Leaf(start, LastIndex(start, n), LeafOf(etherType))]
    case Tagged(_, inner) =>
      [Vlan(start, LastIndex(start, n), Some(TypeOf(inner)))]
      + (if |Encode(inner)| < 2 then []
         else if KnownToVlan(TypeOf(inner)) then Expected(data, inner, start + 4)
         else [Leaf(start + 4, LastIndex(start, n), RawData)])
    case Bridged(_, inner) => ExpectedFrame(data, inner, start)
    case Skipped(_, _, inner) => ExpectedFrame(data, inner, start + 4)
    case Mirrored(header, _, inner) =>
      var size := |EncodeMirror(header)|;
      [Erspan(start, LastIndex(start, n), size)] + ExpectedFrame(data, inner, start + size)
    case Ip4(h, payload, _) =>
      var size := 20 + |h.options|;
      var end := start + size + |payload| - 1;
      [IPv4(start, end, IPv4Packet.Packet(data, start, end, size, size + |payload|, h.identification, h.moreFragments,
                                          8 * h.fragment, h.protocol, h.source, h.destination))]
      + (if |payload| < 2 || h.moreFragments || h.fragment != 0 then []
         else [Leaf(start + size, end, TransportOf(h.protocol))])
    case NotIp4(_) => [Leaf(start, LastIndex(start, n), RawData)]
    case Ip6(h, payload, _) =>
      var end := start + 40 + |payload| - 1;
      [IPv6(start, end, Some(h.nextHeader as nat))]
      + (if |payload| < 2 then [] else [Leaf(start + 40, end, TransportOf(h.nextHeader))])
  }

  function ExpectedFrame(data: Data, n: Nest, start: nat): seq<Packet>
    requires Good(n)
    decreases n, 1
  {
    [Ethernet2(start, LastIndex(start + 14, n), Some(TypeOf(n)))]
    + if |Encode(n)| < 2 then [] else Expected(data, n, start + 14)
  }

  // ----- Headers are read as they were sent

  /** The header of a mirrored frame is exactly as long as it was sent. */
  lemma {:induction false} ErspanReads(data: Data, start: nat, h: MirrorHeader, rest: Data)
    requires GoodMirror(h) && |rest| >= 4 && Holds(data, start, EncodeMirror(h) + rest)
    ensures ErspanLength(data, start) == |EncodeMirror(h)|
  {
    var d := EncodeMirror(h) + rest;
    ByteInside(data, start, d, 0);
    match h {
      case Short(first, _) => assert data[start] == first;
      case Long(low, middle, last, _) =>
        ByteInside(data, start, d, 11);
        assert data[start] == 32 + low && data[start + 11] == last;
    }
  }

  lemma {:induction false} FlagsRead(h: GreHeader)
    requires GoodGre(h)
    ensures Bit(GreFlags(h), CHECKSUM) == h.checksum && Bit(GreFlags(h), ROUTING) == h.routing
    ensures Bit(GreFlags(h), KEY) == (h.key != []) && Bit(GreFlags(h), SEQUENCE) == (h.sequence != [])
  {}

  /** What a GRE header announces: it ends where it was sent to end, and its type field is the one sent. */
  lemma {:induction false} GreReads(data: Data, start: nat, end: int, h: GreHeader, etherType: nat)
    requires GoodGre(h) && etherType < 0x1_0000
    requires Holds(data, start, EncodeGreHeader(h, etherType))
    ensures MakeGre(data, start, end) == Gre(start, end, |EncodeGreHeader(h, etherType)|, etherType)
  {
    hide GreFlags, Bit, FromUInt16, ToUInt16, Holds;
    var f, t := FromUInt16(GreFlags(h)), FromUInt16(etherType);
    ByteInside(data, start, EncodeGreHeader(h, etherType), 3);
    HoldsParts(data, start, f + t, h.offset + h.key + h.sequence);
    HoldsParts(data, start, f, t);
    ReadsUInt16(data, start, GreFlags(h));
    ReadsUInt16(data, start + 2, etherType);
    FlagsRead(h);
  }

  /** An IPv4 header is read as it was sent, and the packet ends where its payload does, in front of any padding. */
  lemma {:induction false} Ip4Reads(data: Data, start: nat, h: IPv4Packet.Header, payload: Data, padding: Data)
    requires IPv4Packet.GoodHeader(h) && IPv4Packet.HeaderSize(h) + |payload| < 0x1_0000
    requires Holds(data, start,
                   IPv4Packet.EncodeHeader(h, IPv4Packet.HeaderSize(h) + |payload|) + payload + padding)
    ensures IPv4Packet.Parses(data, start)
    ensures var end := start + 20 + |h.options| + |payload| - 1;
            MakeIPv4(data, start, end + |padding|)
            == IPv4(start, end, IPv4Packet.Packet(data, start, end, 20 + |h.options|, 20 + |h.options| + |payload|,
                                                  h.identification, h.moreFragments, 8 * h.fragment, h.protocol,
                                                  h.source, h.destination))
  {
    hide Holds, IPv4Packet.EncodeHeader, IPv4Packet.Parses, IPv4Packet.Construct;
    var total := IPv4Packet.HeaderSize(h) + |payload|;
    var d := IPv4Packet.EncodeHeader(h, total) + payload + padding;
    ByteInside(data, start, d, |d| - 1);
    HoldsParts(data, start, IPv4Packet.EncodeHeader(h, total) + payload, padding);
    HoldsParts(data, start, IPv4Packet.EncodeHeader(h, total), payload);
    IPv4Packet.HeaderReads(data, start, start + total + |padding| - 1, h, total);
  }

  lemma {:induction false} Ip6Reads(data: Data, start: nat, h: Ip6Header, payload: Data, padding: Data)
    requires Good6(h) && |payload| < 0x1_0000
    requires Holds(data, start, Encode6(h, |payload|) + payload + padding)
    ensures MakeIPv6(data, start, start + 40 + |payload| + |padding| - 1)
            == IPv6(start, start + 40 + |payload| - 1, Some(h.nextHeader as nat))
  {
    hide Holds;
    var d := Encode6(h, |payload|);
    ByteInside(data, start, d + payload + padding, |d + payload + padding| - 1);
    HoldsParts(data, start, d + payload, padding);
    HoldsParts(data, start, d, payload);
    forall i | 4 <= i < 7 ensures data[start + i] == d[i] {
      ByteInside(data, start, d, i);
    }
    assert d[4] == |payload| / 256 && d[5] == |payload| % 256 && d[6] == h.nextHeader;
  }

  // ----- Frames are taken apart into their layers

  /** The layers below a packet: what it holds, and the layers below that. */
  lemma {:induction false} LayersStep(data: Data, p: Packet)
    requires Built(data, p)
    ensures p.end < |data|
    ensures Inner(data, p).None? ==> Layers(data, p) == []
    ensures Inner(data, p).Some? ==>
              var c := Inner(data, p).value;
              Built(data, c) && Layers(data, p) == [c] + Layers(data, c)
  {
    hide Inner;
    if Inner(data, p).Some? {
      InnerLies(data, p);
    }
  }

  /** The packet and the layers below it are the ones listed. */
  ghost predicate Gives(data: Data, p: Packet, layers: seq<Packet>) {
    Built(data, p) && [p] + Layers(data, p) == layers
  }

  lemma {:induction false} GivesAlone(data: Data, p: Packet)
    requires Built(data, p) && Inner(data, p).None?
    ensures Gives(data, p, [p])
  {
    hide Inner, Built;
    LayersStep(data, p);
  }

  lemma {:induction false} GivesMore(data: Data, p: Packet, c: Packet, below: seq<Packet>)
    requires Built(data, p) && Inner(data, p) == Some(c) && Gives(data, c, below)
    ensures Gives(data, p, [p] + below)
  {
    hide Inner, Built;
    LayersStep(data, p);
  }

  lemma {:induction false} VlanDispatch(data: Data, etherType: nat, start: nat, end: int)
    ensures VlanPayload(etherType, data, start, end)
            == if KnownToVlan(etherType) then PacketForType(etherType, data, start, end) else Leaf(start, end, RawData)
  {
    hide ToUInt16, IPv4Packet.Parses, MakeIPv4, MakeIPv6, MakeVlan;
  }

  lemma {:induction false} VlanReads(data: Data, start: nat, tag: Data, etherType: nat, inner: Data)
    requires |tag| == 2 && etherType < 0x1_0000 && Holds(data, start, tag + FromUInt16(etherType) + inner)
    ensures start + 4 + |inner| <= |data| && Holds(data, start + 4, inner)
    ensures forall end :: MakeVlan(data, start, end) == Vlan(start, end, Some(etherType))
  {
    hide Holds, ToUInt16, FromUInt16;
    var t := FromUInt16(etherType);
    ByteInside(data, start, tag + t + inner, |tag + t + inner| - 1);
    HoldsParts(data, start, tag + t, inner);
    HoldsParts(data, start, tag, t);
    ReadsUInt16(data, start + 2, etherType);
  }

  lemma {:induction false} EthernetReads(data: Data, start: nat, addresses: Data, etherType: nat, inner: Data)
    requires |addresses| == 12 && etherType < 0x1_0000 && Holds(data, start, addresses + FromUInt16(etherType) + inner)
    ensures start + 14 + |inner| <= |data| && Holds(data, start + 14, inner)
    ensures forall end :: MakeEthernet2(data, start, end) == Ethernet2(start, end, Some(etherType))
  {
    hide Holds, ToUInt16, FromUInt16;
    var t := FromUInt16(etherType);
    ByteInside(data, start, addresses + t + inner, |addresses + t + inner| - 1);
    HoldsParts(data, start, addresses + t, inner);
    HoldsParts(data, start, addresses, t);
    ReadsUInt16(data, start + 12, etherType);
  }

  lemma {:induction false} CarriedGives(data: Data, etherType: nat, bytes: Data, start: nat)
    requires Good(Carried(etherType, bytes)) && bytes != [] && Holds(data, start, bytes)
    ensures var p := PacketForType(etherType, data, start, start + |bytes| - 1);
            Gives(data, p, Expected(data, Carried(etherType, bytes), start))
  {
    hide Gives, Holds;
    HeldBytes(data, start, bytes);
    GivesAlone(data, PacketForType(etherType, data, start, start + |bytes| - 1));
  }

  lemma {:induction false} Ip4Gives(data: Data, n: Nest, start: nat)
    requires n.Ip4? && Good(n) && Holds(data, start, Encode(n))
    ensures Gives(data, PacketForType(0x0800, data, start, LastIndex(start, n)), Expected(data, n, start))
  {
    hide Gives, Holds, IPv4Packet.EncodeHeader, ToUInt16, IPv4Packet.GoodHeader, IPv4Packet.Parses, MakeIPv4;
    HeldBytes(data, start, Encode(n));
    Ip4Reads(data, start, n.header4, n.payload, n.padding);
    var p := PacketForType(0x0800, data, start, LastIndex(start, n));
    var h := n.header4;
    if |n.payload| < 2 || h.moreFragments || h.fragment != 0 {
      GivesAlone(data, p);
      assert [p] + [] == [p];
    } else {
      var size := 20 + |h.options|;
      var c := Leaf(start + size, start + size + |n.payload| - 1, TransportOf(h.protocol));
      GivesAlone(data, c);
      GivesMore(data, p, c, [c]);
    }
  }

  lemma {:induction false} NotIp4Gives(data: Data, n: Nest, start: nat)
    requires n.NotIp4? && Good(n) && n.bytes != [] && Holds(data, start, n.bytes)
    ensures Gives(data, PacketForType(0x0800, data, start, LastIndex(start, n)), Expected(data, n, start))
  {
    hide Gives, Holds, IPv4Packet.Parses;
    ByteInside(data, start, n.bytes, 0);
    IPv4Packet.OthersRefused(data, start);
    GivesAlone(data, PacketForType(0x0800, data, start, LastIndex(start, n)));
  }

  lemma {:induction false} Ip6Gives(data: Data, n: Nest, start: nat)
    requires n.Ip6? && Good(n) && Holds(data, start, Encode(n))
    ensures Gives(data, PacketForType(0x86dd, data, start, LastIndex(start, n)), Expected(data, n, start))
  {
    hide Gives, Holds, Encode6, ToUInt16, Good6, MakeIPv6;
    HeldBytes(data, start, Encode(n));
    Ip6Reads(data, start, n.header6, n.payload, n.padding);
    var p := PacketForType(0x86dd, data, start, LastIndex(start, n));
    if |n.payload| < 2 {
      GivesAlone(data, p);
      assert [p] + [] == [p];
    } else {
      var end := start + 40 + |n.payload| - 1;
      var c := Leaf(start + 40, end, TransportOf(n.header6.nextHeader));
      GivesAlone(data, c);
      GivesMore(data, p, c, [c]);
    }
  }

  lemma {:induction false} TaggedGives(data: Data, n: Nest, start: nat)
    requires n.Tagged? && Good(n) && Holds(data, start, Encode(n))
    ensures Gives(data, PacketForType(0x8100, data, start, LastIndex(start, n)), Expected(data, n, start))
    decreases n, 0
  {
    hide Gives, Holds, ToUInt16, MakeVlan, PacketForType, VlanPayload, KnownToVlan, FromUInt16;
    var inner, end := n.inner, LastIndex(start, n);
    VlanReads(data, start, n.tag, TypeOf(inner), Encode(inner));
    var p := Vlan(start, end, Some(TypeOf(inner)));
    assert PacketForType(0x8100, data, start, end) == p by { TypeOfVlan(data, start, end); }
    if |Encode(inner)| < 2 {
      GivesAlone(data, p);
      assert [p] + [] == [p];
    } else {
      VlanDispatch(data, TypeOf(inner), start + 4, end);
      var c := VlanPayload(TypeOf(inner), data, start + 4, end);
      if KnownToVlan(TypeOf(inner)) {
        NestGives(data, inner, start + 4);
        GivesMore(data, p, c, Expected(data, inner, start + 4));
      } else {
        GivesAlone(data, c);
        GivesMore(data, p, c, [c]);
      }
    }
  }

  lemma {:induction false} TypeOfVlan(data: Data, start: nat, end: int)
    ensures PacketForType(0x8100, data, start, end) == MakeVlan(data, start, end)
  {}

  lemma {:induction false} TypeOfFrames(data: Data, start: nat, end: int)
    ensures PacketForType(0x6558, data, start, end) == MakeEthernet2(data, start, end)
    ensures PacketForType(0x8130, data, start, end) == MakeEthernet2(data, start + 4, end)
    ensures PacketForType(0x88be, data, start, end) == Erspan(start, end, ErspanLength(data, start))
  {}

  /** A frame is taken apart into the layers it was made of. */
  lemma {:induction false} FrameGives(data: Data, addresses: Data, n: Nest, start: nat)
    requires Good(n) && |addresses| == 12 && Holds(data, start, EncodeFrame(addresses, n))
    ensures Gives(data, MakeEthernet2(data, start, LastIndex(start + 14, n)), ExpectedFrame(data, n, start))
    decreases n, 2
  {
    hide Gives, Holds, ToUInt16, MakeEthernet2, PacketForType, FromUInt16, Encode, Expected, Good;
    var end := LastIndex(start + 14, n);
    EthernetReads(data, start, addresses, TypeOf(n), Encode(n));
    var p := Ethernet2(start, end, Some(TypeOf(n)));
    if |Encode(n)| < 2 {
      GivesAlone(data, p);
      assert [p] + [] == [p];
    } else {
      NestGives(data, n, start + 14);
      GivesMore(data, p, PacketForType(TypeOf(n), data, start + 14, end), Expected(data, n, start + 14));
    }
  }

  lemma {:induction false} MirroredGives(data: Data, n: Nest, start: nat)
    requires n.Mirrored? && Good(n) && Holds(data, start, Encode(n))
    ensures Gives(data, PacketForType(0x88be, data, start, LastIndex(start, n)), Expected(data, n, start))
    decreases n, 0
  {
    hide Gives, Holds, ToUInt16, MakeEthernet2, PacketForType, EncodeMirror, ErspanLength, FromUInt16;
    var end, frame := LastIndex(start, n), EncodeFrame(n.addresses, n.inner);
    HeldBytes(data, start, Encode(n));
    HoldsParts(data, start, EncodeMirror(n.header), frame);
    ErspanReads(data, start, n.header, frame);
    TypeOfFrames(data, start, end);
    var p := PacketForType(0x88be, data, start, end);
    var at := start + |EncodeMirror(n.header)|;
    FrameGives(data, n.addresses, n.inner, at);
    GivesMore(data, p, MakeEthernet2(data, at, end), ExpectedFrame(data, n.inner, at));
  }

  /** So is whatever a frame carries, in any nesting. */
  lemma {:induction false} NestGives(data: Data, n: Nest, start: nat)
    requires Good(n) && Encode(n) != [] && Holds(data, start, Encode(n))
    ensures Gives(data, PacketForType(TypeOf(n), data, start, LastIndex(start, n)), Expected(data, n, start))
    decreases n, 1
  {
    hide Gives, Holds, MakeEthernet2, PacketForType;
    var end := LastIndex(start, n);
    TypeOfFrames(data, start, end);
    match n {
      case Carried(etherType, bytes) => CarriedGives(data, etherType, bytes, start);
      case Tagged(_, _) => TaggedGives(data, n, start);
      case Bridged(addresses, inner) => FrameGives(data, addresses, inner, start);
      case Skipped(four, addresses, inner) =>
        HoldsParts(data, start, four, EncodeFrame(addresses, inner));
        FrameGives(data, addresses, inner, start + 4);
      case Mirrored(_, _, _) => MirroredGives(data, n, start);
      case Ip4(_, _, _) => Ip4Gives(data, n, start);
      case NotIp4(_) => NotIp4Gives(data, n, start);
      case Ip6(_, _, _) => Ip6Gives(data, n, start);
    }
  }

  /** And so is a GRE tunnel; it shows even a payload of one byte. */
  lemma {:induction false} TunnelGives(data: Data, start: nat, h: GreHeader, n: Nest)
    requires GoodGre(h) && Good(n) && Holds(data, start, EncodeGreHeader(h, TypeOf(n)) + Encode(n))
    ensures var size := |EncodeGreHeader(h, TypeOf(n))|;
            var end := LastIndex(start + size, n);
            Gives(data, MakeGre(data, start, end),
                  [Gre(start, end, size, TypeOf(n))] + if Encode(n) == [] then [] else Expected(data, n, start + size))
  {
    hide Gives, Holds, MakeGre, PacketForType, EncodeGreHeader, Encode, Expected, Good, GoodGre;
    var header := EncodeGreHeader(h, TypeOf(n));
    var end := LastIndex(start + |header|, n);
    HeldBytes(data, start, header + Encode(n));
    HoldsParts(data, start, header, Encode(n));
    GreReads(data, start, end, h, TypeOf(n));
    GreIsLong(h, TypeOf(n));
    var p := Gre(start, end, |header|, TypeOf(n));
    if Encode(n) == [] {
      GivesAlone(data, p);
      assert [p] + [] == [p];
    } else {
      NestGives(data, n, start + |header|);
      GivesMore(data, p, PacketForType(TypeOf(n), data, start + |header|, end), Expected(data, n, start + |header|));
    }
  }

  lemma {:induction false} GreIsLong(h: GreHeader, etherType: nat)
    requires GoodGre(h) && etherType < 0x1_0000
    ensures |EncodeGreHeader(h, etherType)| >= 4
  {}

  /** A hop-by-hop option header is as long as it says, in units of eight bytes behind the first. */
  lemma {:induction false} HopByHopGives(data: Data, start: nat, protocol: byte, units: byte, rest: Data, payload: Data)
    requires |rest| == 6 + 8 * units && Holds(data, start, [protocol, units] + rest + payload)
    ensures start + 2 <= |data|
    ensures var size, end := 8 + 8 * units, start + 8 + 8 * units + |payload| - 1;
            Gives(data, MakeHopByHop(data, start, end),
                  [HopByHop(start, end, protocol as nat, size)]
                  + if |payload| < 2 then [] else [Leaf(start + size, end, TransportOf(protocol))])
  {
    hide Gives, Holds;
    var d := [protocol, units] + rest + payload;
    HeldBytes(data, start, d);
    ByteInside(data, start, d, 0);
    ByteInside(data, start, d, 1);
    var size, end := 8 + 8 * units, start + 8 + 8 * units + |payload| - 1;
    var p := HopByHop(start, end, protocol as nat, size);
    if |payload| < 2 {
      GivesAlone(data, p);
      assert [p] + [] == [p];
    } else {
      var c := Leaf(start + size, end, TransportOf(protocol));
      GivesAlone(data, c);
      GivesMore(data, p, c, [c]);
    }
  }

  /** Addresses, type 0x8130 and two more bytes. */
  const SHORT_FRAME: Data := [0, 0, 0, 0, 0, 0, 0, 0, 0, 0, 0, 0, 0x81, 0x30, 0, 0]

  /** Skipping four bytes without looking leads out of this frame: the inner packet starts behind its last byte. */
  lemma {:induction false} SkippedPastEnd()
    ensures var p := MakeEthernet2(SHORT_FRAME, 0, 15);
            && Built(SHORT_FRAME, p) && SkipsPastEnd(p)
            && Layers(SHORT_FRAME, p) == [Ethernet2(18, 15, None)] && |SHORT_FRAME| == 16
  {
    var p := MakeEthernet2(SHORT_FRAME, 0, 15);
    assert p == Ethernet2(0, 15, Some(HAYES_TUNNEL));
    var c := Ethernet2(18, 15, None);
    assert Inner(SHORT_FRAME, p) == Some(c);
    LayersStep(SHORT_FRAME, p);
    LayersStep(SHORT_FRAME, c);
  }
}
