/**
 The encapsulation layers of a frame: Ethernet, VLAN, ERSPAN, GRE, IPv4 and IPv6 packets, the packet
 each holds, and the list of them a frame keeps. Everything else is a leaf.
 */
module DecodeTree {
  import opened Bytes
  import IPv4Packet
  import opened Wrappers

  type Data = seq<byte>

  const IEEE802_3_MAX := 0x0600
  const IPV4 := 0x0800
  const ARP := 0x0806
  const TRANSPARENT_ETHERNET := 0x6558
  const IEEE802_1Q := 0x8100
  const HAYES_TUNNEL := 0x8130
  const IPV6 := 0x86dd
  const MPLS := 0x8847
  const PPPOE := 0x8864
  const ERSPAN := 0x88be

  const TCP := 6
  const ICMP := 1
  const UDP := 17

  datatype LeafKind = RawData | Arp | Mpls | PPPoE | LogicalLinkControl | Tcp | Icmp | Udp

  /** A packet of the frame. A field that was not captured is None. */
  datatype Packet =
    | Ethernet2(start: nat, end: int, etherType: Option<nat>)
    | Vlan(start: nat, end: int, etherType: Option<nat>)
    | Erspan(start: nat, end: int, headerLength: nat)
    | Gre(start: nat, end: int, headerLength: nat, protocolType: nat)
    | IPv4(start: nat, end: int, header: IPv4Packet.Packet)
    | IPv6(start: nat, end: int, nextHeader: Option<nat>)
    | HopByHop(start: nat, end: int, protocol: nat, nextHeaderStart: nat)
    | Leaf(start: nat, end: int, kind: LeafKind)

  // ----- Constructors

  function MakeEthernet2(data: Data, start: nat, end: int): Packet {
    Ethernet2(start, end, if start + 14 <= |data| then Some(ToUInt16(data, start + 12)) else None)
  }

  function MakeVlan(data: Data, start: nat, end: int): Packet {
    Vlan(start, end, if start + 4 <= |data| then Some(ToUInt16(data, start + 2)) else None)
  }

  /** Eight bytes in version 1, twelve in version 2 and eight more when its last bit says so; others count as eight. */
  function ErspanLength(data: Data, start: nat): nat {
    if start + 1 >= |data| || data[start] / 16 != 2 then 8
    else if start + 11 < |data| && data[start + 11] % 2 == 1 then 20
    else 12
  }

  method NewErspan(data: Data, start: nat, end: int) returns (p: Packet)
    ensures p == Erspan(start, end, ErspanLength(data, start))
  {
    var headerLength := 8;
    if start + 1 >= |data| {
      return Erspan(start, end, headerLength);
    }
    var version := data[start] / 16;
    if version == 1 {
      headerLength := 8;
    } else if version == 2 {
      headerLength := 12;
      if start + 11 < |data| {
        if data[start + 11] % 2 != 0 {
          headerLength := headerLength + 8;
        }
      }
    }
    p := Erspan(start, end, headerLength);
  }

  predicate Bit(flags: nat, weight: nat)
    requires weight > 0
  {
    (flags / weight) % 2 == 1
  }

  const CHECKSUM := 0x8000
  const ROUTING := 0x4000
  const KEY := 0x2000
  const SEQUENCE := 0x1000

  /** Four bytes, and four more for each optional field; checksum and offset share theirs. */
  function GreLength(flags: nat): nat {
    4 + (if Bit(flags, CHECKSUM) || Bit(flags, ROUTING) then 4 else 0)
      + (if Bit(flags, KEY) then 4 else 0) + (if Bit(flags, SEQUENCE) then 4 else 0)
  }

  function MakeGre(data: Data, start: nat, end: int): Packet {
    if start + 4 <= |data| then Gre(start, end, GreLength(ToUInt16(data, start)), ToUInt16(data, start + 2))
    else Gre(start, end, 4, 0)
  }

  method NewGre(data: Data, start: nat, end: int) returns (p: Packet)
    ensures p == MakeGre(data, start, end)
  {
    var headerLength := 4;
    if start + 3 >= |data| {
      return Gre(start, end, headerLength, 0);
    }
    var flags := ToUInt16(data, start);
    if Bit(flags, CHECKSUM) || Bit(flags, ROUTING) {
      headerLength := headerLength + 4;
    }
    if Bit(flags, KEY) {
      headerLength := headerLength + 4;
    }
    if Bit(flags, SEQUENCE) {
      headerLength := headerLength + 4;
    }
    p := Gre(start, end, headerLength, ToUInt16(data, start + 2));
  }

  const IPV6_HEADER := 40

  /** The end index is moved down to the end of the announced payload. */
  function MakeIPv6(data: Data, start: nat, end: int): Packet {
    if start + IPV6_HEADER > |data| then IPv6(start, end, None)
    else
      var announced := start + IPV6_HEADER + ToUInt16(data, start + 4) - 1;
      IPv6(start, if end > announced then announced else end, Some(data[start + 6] as nat))
  }

  method NewIPv6(data: Data, start: nat, end: int) returns (p: Packet)
    requires end < |data|
    ensures p == MakeIPv6(data, start, end)
  {
    var packetEnd := end;
    if start + IPV6_HEADER > |data| {
      return IPv6(start, packetEnd, None);
    }
    var payloadLength := ToUInt16(data, start + 4);
    if packetEnd > start + IPV6_HEADER + payloadLength - 1 {
      packetEnd := IPv4Packet.SetEnd(data, start, packetEnd, start + IPV6_HEADER + payloadLength - 1);
    }
    p := IPv6(start, packetEnd, Some(data[start + 6] as nat));
  }

  function MakeIPv4(data: Data, start: nat, end: int): Packet
    requires IPv4Packet.Parses(data, start)
  {
    var header := IPv4Packet.Construct(data, start, end);
    IPv4(start, header.end, header)
  }

  function MakeHopByHop(data: Data, start: nat, end: int): Packet
    requires start + 2 <= |data|
  {
    HopByHop(start, end, data[start] as nat, 8 + 8 * (data[start + 1] as nat))
  }

  // ----- The packet a packet holds

  /** The dispatch on the type field of Ethernet and GRE. */
  function PacketForType(etherType: nat, data: Data, start: nat, end: int): Packet {
    if etherType == IPV4 then
      if IPv4Packet.Parses(data, start) then MakeIPv4(data, start, end) else Leaf(start, end, RawData)
    else if etherType == IPV6 then MakeIPv6(data, start, end)
    else if etherType == ARP then Leaf(start, end, Arp)
    else if etherType == IEEE802_1Q then MakeVlan(data, start, end)
    else if etherType == MPLS then Leaf(start, end, LeafKind.Mpls)
    else if etherType == ERSPAN then Erspan(start, end, ErspanLength(data, start))
    else if etherType == PPPOE then Leaf(start, end, LeafKind.PPPoE)
    else if etherType == HAYES_TUNNEL then MakeEthernet2(data, start + 4, end)
    else if etherType == TRANSPARENT_ETHERNET then MakeEthernet2(data, start, end)
    else if etherType < IEEE802_3_MAX then Leaf(start, end, LogicalLinkControl)
    else Leaf(start, end, RawData)
  }

  /** The dispatch of a VLAN tag: fewer types than Ethernet, and everything else is raw. */
  function VlanPayload(etherType: nat, data: Data, start: nat, end: int): Packet {
    if etherType == IPV4 && IPv4Packet.Parses(data, start) then MakeIPv4(data, start, end)
    else if etherType == IPV6 then MakeIPv6(data, start, end)
    else if etherType == ARP then Leaf(start, end, Arp)
    else if etherType == IEEE802_1Q then MakeVlan(data, start, end)
    else if etherType == PPPOE then Leaf(start, end, LeafKind.PPPoE)
    else if etherType < IEEE802_3_MAX then Leaf(start, end, LogicalLinkControl)
    else Leaf(start, end, RawData)
  }

  /** The dispatch on an IP protocol number. */
  function PacketForProtocol(protocol: nat, start: nat, end: int): Packet {
    Leaf(start, end,
         if protocol == TCP then Tcp
         else if protocol == ICMP then Icmp
         else if protocol == UDP then Udp
         else RawData)
  }

  predicate Fragment(header: IPv4Packet.Packet) {
    header.fragmentOffset != 0 || header.moreFragments
  }

  /** The packet held by `p`, if its header leaves room for one. */
  function Inner(data: Data, p: Packet): Option<Packet>
    requires p.end < |data|
  {
    match p
    case Ethernet2(start, end, etherType) =>
      if start + 14 < end && etherType.Some? then Some(PacketForType(etherType.value, data, start + 14, end)) else None
    case Vlan(start, end, etherType) =>
      if start + 4 < end && etherType.Some? then Some(VlanPayload(etherType.value, data, start + 4, end)) else None
    case Erspan(start, end, headerLength) =>
      if start + headerLength <= end then Some(MakeEthernet2(data, start + headerLength, end)) else None
    case Gre(start, end, headerLength, protocolType) =>
      if start + headerLength <= end then Some(PacketForType(protocolType, data, start + headerLength, end)) else None
    case IPv4(start, end, header) =>
      if !Fragment(header) && start + header.headerLength < end then
        Some(PacketForProtocol(header.protocol, start + header.headerLength, end))
      else None
    case IPv6(start, end, nextHeader) =>
      if start + IPV6_HEADER < end && nextHeader.Some? then
        Some(PacketForProtocol(nextHeader.value, start + IPV6_HEADER, end))
      else None
    case HopByHop(start, end, protocol, nextHeaderStart) =>
      if start + nextHeaderStart < end then Some(PacketForProtocol(protocol, start + nextHeaderStart, end)) else None
    case Leaf(_, _, _) => None
  }

  /** The 0x8130 branch skips four bytes without looking at where the packet ends. */
  predicate SkipsPastEnd(p: Packet) {
    || (p.Ethernet2? && p.etherType == Some(HAYES_TUNNEL) && p.start + 18 > p.end)
    || (p.Gre? && p.protocolType == HAYES_TUNNEL && p.start + p.headerLength + 4 > p.end)
  }

  /** A packet as the constructors leave it, ending inside the frame. */
  predicate Built(data: Data, p: Packet) {
    && p.end < |data|
    && (p.Ethernet2? && p.start + 14 <= |data| ==> p.etherType.Some?)
    && (p.Vlan? && p.start + 4 <= |data| ==> p.etherType.Some?)
    && (p.IPv6? && p.start + IPV6_HEADER <= |data| ==> p.nextHeader.Some?)
    && (p.IPv4? ==> p.header.headerLength >= IPv4Packet.MIN_HEADER)
    && (p.Erspan? ==> p.headerLength >= 8)
    && (p.Gre? ==> p.headerLength >= 4)
    && (p.HopByHop? ==> p.nextHeaderStart >= 8)
  }

  lemma {:induction false} PayloadBuilt(etherType: nat, data: Data, start: nat, end: int)
    requires start <= end < |data|
    ensures var c := PacketForType(etherType, data, start, end);
            Built(data, c) && c.end <= end && c.start == (if etherType == HAYES_TUNNEL then start + 4 else start)
            && (etherType != HAYES_TUNNEL ==> start <= c.end) && (etherType == HAYES_TUNNEL ==> c.end == end)
    ensures var c := VlanPayload(etherType, data, start, end);
            Built(data, c) && c.start == start <= c.end <= end
  {
    hide ToUInt16, ErspanLength;
    assert ErspanLength(data, start) >= 8 by { ErspanIsLong(data, start); }
  }

  /** Whatever the constructors make of bytes of the frame is such a packet. */
  lemma {:induction false} ConstructorsBuild(data: Data, start: nat, end: int)
    requires start <= end < |data|
    ensures Built(data, MakeEthernet2(data, start, end)) && Built(data, MakeVlan(data, start, end))
    ensures Built(data, Erspan(start, end, ErspanLength(data, start))) && Built(data, MakeGre(data, start, end))
    ensures Built(data, MakeIPv6(data, start, end))
    ensures IPv4Packet.Parses(data, start) ==> Built(data, MakeIPv4(data, start, end))
    ensures start + 2 <= |data| ==> Built(data, MakeHopByHop(data, start, end))
  {
    hide ToUInt16, ErspanLength;
    ErspanIsLong(data, start);
  }

  lemma {:induction false} ErspanIsLong(data: Data, start: nat)
    ensures ErspanLength(data, start) >= 8
  {}

  /**
   A held packet starts at least four bytes later and ends no later. It lies inside its holder, except
   when the 0x8130 branch skips past the end.
   */
  lemma {:induction false} InnerLies(data: Data, p: Packet)
    requires Built(data, p) && Inner(data, p).Some?
    ensures var c := Inner(data, p).value;
            Built(data, c) && p.start + 4 <= c.start && p.start + 4 <= p.end && c.end <= p.end
            && (c.start <= c.end <==> !SkipsPastEnd(p))
  {
    hide ToUInt16, PacketForType, VlanPayload, IPv4Packet.Parses, IPv4Packet.Construct;
    match p {
      case Ethernet2(start, end, etherType) => PayloadBuilt(etherType.value, data, start + 14, end);
      case Vlan(start, end, etherType) => PayloadBuilt(etherType.value, data, start + 4, end);
      case Gre(start, end, headerLength, protocolType) => PayloadBuilt(protocolType, data, start + headerLength, end);
      case Erspan(_, _, _) =>
      case IPv4(_, _, _) =>
      case IPv6(_, _, _) =>
      case HopByHop(_, _, _, _) =>
    }
  }

  // ----- All layers of a packet

  /** The packets below `p`, outermost first. */
  ghost function Layers(data: Data, p: Packet): seq<Packet>
    requires Built(data, p)
    decreases if p.start <= |data| then |data| - p.start else 0
  {
    match Inner(data, p)
    case None => []
    case Some(c) =>
      InnerLies(data, p);
      [c] + Layers(data, c)
  }

  method GetPacketForType(etherType: nat, data: Data, start: nat, end: int) returns (packet: Packet)
    requires end < |data|
    ensures packet == PacketForType(etherType, data, start, end)
  {
    hide ToUInt16, IPv4Packet.Construct, IPv4Packet.Parses, ErspanLength;
    if etherType == IPV4 {
      if !IPv4Packet.Parses(data, start) {
        return Leaf(start, end, RawData);
      }
      packet := MakeIPv4(data, start, end);
    } else if etherType == IPV6 {
      packet := NewIPv6(data, start, end);
    } else if etherType == ARP {
      packet := Leaf(start, end, Arp);
    } else if etherType == IEEE802_1Q {
      packet := MakeVlan(data, start, end);
    } else if etherType == MPLS {
      packet := Leaf(start, end, LeafKind.Mpls);
    } else if etherType == ERSPAN {
      packet := NewErspan(data, start, end);
    } else if etherType == PPPOE {
      packet := Leaf(start, end, LeafKind.PPPoE);
    } else if etherType == HAYES_TUNNEL {
      packet := MakeEthernet2(data, start + 4, end);
    } else if etherType == TRANSPARENT_ETHERNET {
      packet := MakeEthernet2(data, start, end);
    } else if etherType < IEEE802_3_MAX {
      packet := Leaf(start, end, LogicalLinkControl);
    } else {
      packet := Leaf(start, end, RawData);
    }
  }

  method GetVlanPayload(etherType: nat, data: Data, start: nat, end: int) returns (packet: Packet)
    requires end < |data|
    ensures packet == VlanPayload(etherType, data, start, end)
  {
    hide ToUInt16, IPv4Packet.Construct, IPv4Packet.Parses;
    var found := None;
    if etherType == IPV4 {
      if IPv4Packet.Parses(data, start) {
        found := Some(MakeIPv4(data, start, end));
      }
    } else if etherType == IPV6 {
      var ipv6 := NewIPv6(data, start, end);
      found := Some(ipv6);
    } else if etherType == ARP {
      found := Some(Leaf(start, end, Arp));
    } else if etherType == IEEE802_1Q {
      found := Some(MakeVlan(data, start, end));
    } else if etherType == PPPOE {
      found := Some(Leaf(start, end, LeafKind.PPPoE));
    } else if etherType < IEEE802_3_MAX {
      found := Some(Leaf(start, end, LogicalLinkControl));
    }
    if found.None? {
      found := Some(Leaf(start, end, RawData));
    }
    packet := found.value;
  }

  /** The packet held by `p`, as each class's GetSubPackets builds it. */
  method GetInner(data: Data, p: Packet) returns (inner: Option<Packet>)
    requires Built(data, p)
    ensures inner == Inner(data, p)
  {
    hide PacketForType, VlanPayload, PacketForProtocol, MakeEthernet2;
    inner := None;
    match p {
      case Ethernet2(start, end, etherType) =>
        if start + 14 < end {
          var packet := GetPacketForType(etherType.value, data, start + 14, end);
          inner := Some(packet);
        }
      case Vlan(start, end, etherType) =>
        if start + 4 < end {
          var packet := GetVlanPayload(etherType.value, data, start + 4, end);
          inner := Some(packet);
        }
      case Erspan(start, end, headerLength) =>
        if start + headerLength <= end {
          var packet := MakeEthernet2(data, start + headerLength, end);
          inner := Some(packet);
        }
      case Gre(start, end, headerLength, protocolType) =>
        if start + headerLength <= end {
          var packet := GetPacketForType(protocolType, data, start + headerLength, end);
          inner := Some(packet);
        }
      case IPv4(start, end, header) =>
        if !Fragment(header) && start + header.headerLength < end {
          inner := Some(PacketForProtocol(header.protocol, start + header.headerLength, end));
        }
      case IPv6(start, end, nextHeader) =>
        if start + IPV6_HEADER < end {
          inner := Some(PacketForProtocol(nextHeader.value, start + IPV6_HEADER, end));
        }
      case HopByHop(start, end, protocol, nextHeaderStart) =>
        if start + nextHeaderStart < end {
          inner := Some(PacketForProtocol(protocol, start + nextHeaderStart, end));
        }
      case Leaf(_, _, _) =>
    }
  }

  /** All packets below `p`, after `p` itself when asked for. */
  method GetSubPackets(data: Data, p: Packet, includeSelfReference: bool) returns (subPackets: seq<Packet>)
    requires Built(data, p)
    ensures subPackets == (if includeSelfReference then [p] else []) + Layers(data, p)
    decreases if p.start <= |data| then |data| - p.start else 0
  {
    hide Inner, Built;
    subPackets := [];
    if includeSelfReference {
      subPackets := subPackets + [p];
    }
    var inner := GetInner(data, p);
    if inner.Some? {
      BuiltEnds(data, p);
      InnerLies(data, p);
      subPackets := subPackets + [inner.value];
      var childSubPackets := GetSubPackets(data, inner.value, false);
      subPackets := subPackets + childSubPackets;
    }
  }

  lemma {:induction false} BuiltEnds(data: Data, p: Packet)
    requires Built(data, p)
    ensures p.end < |data|
  {}

  // ----- Where the layers lie

  /** Layers are nested, each starting at least four bytes after the one before. */
  lemma {:induction false} LayersNest(data: Data, p: Packet, i: nat)
    requires Built(data, p) && i < |Layers(data, p)|
    ensures var c, holder := Layers(data, p)[i], if i == 0 then p else Layers(data, p)[i - 1];
            && Built(data, c) && Built(data, holder) && Inner(data, holder) == Some(c)
            && p.start + 4 * (i + 1) <= c.start && holder.start + 4 <= c.start
            && c.end <= holder.end <= p.end
            && (c.start <= c.end <==> !SkipsPastEnd(holder))
    decreases i
  {
    hide Inner, Built, SkipsPastEnd;
    BuiltEnds(data, p);
    InnerLies(data, p);
    if i > 0 {
      var c := Inner(data, p).value;
      LayersNest(data, c, i - 1);
    }
  }

  /** A packet with `n` bytes holds at most `n / 4` layers, however they are nested. */
  lemma {:induction false} LayersAreFew(data: Data, p: Packet)
    requires Built(data, p)
    ensures Layers(data, p) != [] ==> 4 * |Layers(data, p)| <= p.end - p.start
    decreases if p.start <= |data| then |data| - p.start else 0
  {
    hide Inner, Built;
    BuiltEnds(data, p);
    if Inner(data, p).Some? {
      InnerLies(data, p);
      LayersAreFew(data, Inner(data, p).value);
    }
  }

  /** Every layer but the last lies inside the packet; the last does unless the 0x8130 branch skips past the end. */
  lemma {:induction false} OnlyLastOutside(data: Data, p: Packet, i: nat)
    requires Built(data, p) && i + 1 < |Layers(data, p)|
    ensures var c := Layers(data, p)[i]; p.start < c.start <= c.end <= p.end
  {
    LayersNest(data, p, i);
    var k := i + 1;
    LayersNest(data, p, k);
    InnerLies(data, Layers(data, p)[i]);
  }

  // ----- The packet list of a frame

  /** The packets of a frame by start index, as the Frame constructor stores them. */
  method PacketList(data: Data, packet: Packet) returns (packetList: map<nat, Packet>)
    requires Built(data, packet)
    ensures packetList == ByStart([packet] + Layers(data, packet))
  {
    hide Built, Layers;
    packetList := map[packet.start := packet];
    var subPackets := GetSubPackets(data, packet, false);
    ghost var all := [packet] + Layers(data, packet);
    assert all[..1] == [packet];
    for i := 0 to |subPackets|
      invariant packetList == ByStart(all[..i + 1])
    {
      var k := i + 1;
      assert all[..k + 1] == all[..k] + [subPackets[i]];
      packetList := packetList[subPackets[i].start := subPackets[i]];
    }
    assert all[..|subPackets| + 1] == all;
  }

  /** The last packet of each start index. */
  function ByStart(packets: seq<Packet>): map<nat, Packet> {
    if packets == [] then map[]
    else ByStart(packets[..|packets| - 1])[packets[|packets| - 1].start := packets[|packets| - 1]]
  }

  predicate Increasing(packets: seq<Packet>) {
    forall i, j :: 0 <= i < j < |packets| ==> packets[i].start < packets[j].start
  }

  lemma {:induction false} FoundByStart(packets: seq<Packet>, i: nat)
    requires Increasing(packets) && i < |packets|
    ensures packets[i].start in ByStart(packets) && ByStart(packets)[packets[i].start] == packets[i]
    decreases |packets|
  {
    var front := packets[..|packets| - 1];
    if i < |front| {
      FoundByStart(front, i);
      assert packets[i].start < packets[|front|].start;
    }
  }

  lemma {:induction false} FromPackets(packets: seq<Packet>, s: nat) returns (i: nat)
    requires s in ByStart(packets)
    ensures i < |packets| && packets[i].start == s
    decreases |packets|
  {
    i := |packets| - 1;
    if packets[i].start != s {
      i := FromPackets(packets[..i], s);
    }
  }

  lemma {:induction false} ByStartSize(packets: seq<Packet>)
    requires Increasing(packets)
    ensures |ByStart(packets)| == |packets|
    decreases |packets|
  {
    if packets != [] {
      var front, last := packets[..|packets| - 1], packets[|packets| - 1];
      ByStartSize(front);
      if last.start in ByStart(front) {
        var i := FromPackets(front, last.start);
      }
    }
  }

  lemma {:induction false} StartsIncrease(data: Data, p: Packet)
    requires Built(data, p)
    ensures Increasing([p] + Layers(data, p))
    decreases if p.start <= |data| then |data| - p.start else 0
  {
    hide Inner, Built;
    BuiltEnds(data, p);
    if Inner(data, p).Some? {
      var c := Inner(data, p).value;
      InnerLies(data, p);
      StartsIncrease(data, c);
      var all, rest := [p] + Layers(data, p), [c] + Layers(data, c);
      assert all == [p] + rest;
      forall i, j | 0 <= i < j < |all|
        ensures all[i].start < all[j].start
      {
        if i > 0 {
          assert all[i] == rest[i - 1] && all[j] == rest[j - 1];
        } else if j > 1 {
          assert all[j] == rest[j - 1] && rest[0] == c;
        }
      }
    }
  }

  /** Keying the packets of a frame by start index loses none of them. */
  lemma {:induction false} NoneLost(data: Data, p: Packet)
    requires Built(data, p)
    ensures var list := ByStart([p] + Layers(data, p));
            && |list| == 1 + |Layers(data, p)|
            && p.start in list && list[p.start] == p
            && forall c :: c in Layers(data, p) ==> c.start in list && list[c.start] == c
  {
    hide Layers, Built, ByStart, Increasing;
    StartsIncrease(data, p);
    var all := [p] + Layers(data, p);
    ByStartSize(all);
    FoundByStart(all, 0);
    forall c | c in Layers(data, p)
      ensures c.start in ByStart(all) && ByStart(all)[c.start] == c
    {
      var i :| 0 <= i < |Layers(data, p)| && Layers(data, p)[i] == c;
      assert all[i + 1] == c;
      FoundByStart(all, i + 1);
    }
  }
}
