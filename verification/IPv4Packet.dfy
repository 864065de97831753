/** The IPv4 header, read as the constructor and TryParse of IPv4Packet read it. */
module IPv4Packet {
  import opened Bytes

  type Data = seq<byte>

  const MAX_JUMBO_FRAME_SIZE := 9038
  const MIN_HEADER := 20

  /** A parsed packet: where it lies in its frame, and its fields. */
  datatype Packet = Packet(frame: Data, start: nat, end: int, headerLength: nat, totalLength: int,
                           identification: nat, moreFragments: bool, fragmentOffset: nat,
                           protocol: nat, source: Data, destination: Data)
  {
    function PayloadLength(): int {
      totalLength - headerLength
    }

    /** The header and all of the payload were captured, and the length field covers the header. */
    predicate Captured() {
      MIN_HEADER <= headerLength && 0 <= PayloadLength() && start + headerLength + PayloadLength() <= |frame|
    }

    function Header(): Data
      requires Captured()
    {
      frame[start..start + headerLength]
    }

    function Payload(): (d: Data)
      requires Captured()
      ensures |d| == PayloadLength()
    {
      frame[start + headerLength..start + headerLength + PayloadLength()]
    }
  }

  function HeaderLengthAt(frame: Data, start: nat): nat
    requires start < |frame|
  {
    (frame[start] % 16) * 4
  }

  /** `setPacketEndIndex`: an index in front of the packet or behind the frame is ignored. */
  function SetEnd(frame: Data, start: nat, end: int, value: int): int {
    if start <= value < |frame| then value else end
  }

  /** The constructor, for a header that was captured. */
  function Construct(frame: Data, start: nat, end: int): (p: Packet)
    requires start + MIN_HEADER <= |frame|
    ensures p.frame == frame && p.start == start && p.headerLength == HeaderLengthAt(frame, start)
    ensures start - 1 <= end < |frame| ==> p.end <= end && start - 1 <= p.end
  {
    var given, length := ToUInt16(frame, start + 2), end - start + 1;
    var word := ToUInt16(frame, start + 6);
    Packet(frame, start,
           if given != 0 && given < length then SetEnd(frame, start, end, start + given - 1) else end,
           HeaderLengthAt(frame, start),
           if given == 0 && length != 0 then length % 0x1_0000 else given,
           ToUInt16(frame, start + 4), (frame[start + 6] / 32) % 2 == 1, (word % 0x2000) * 8,
           frame[start + 9], frame[start + 12..start + 16], frame[start + 16..start + 20])
  }

  /** Whether `TryParse` accepts the bytes at `start`. */
  predicate Parses(frame: Data, start: nat) {
    && start + MIN_HEADER <= |frame|
    && frame[start] / 16 == 4
    && HeaderLengthAt(frame, start) >= MIN_HEADER
    && !(ToUInt16(frame, start + 2) > MAX_JUMBO_FRAME_SIZE && ToUInt16(frame, start + 2) > |frame|)
  }

  // ----- Headers as they are sent

  /** The fields of a header (section 3.1 of RFC 791); the fragment offset counts units of eight bytes. */
  datatype Header = Header(tos: byte, identification: nat, dontFragment: bool, moreFragments: bool, fragment: nat,
                           ttl: byte, protocol: byte, checksum: Data, source: Data, destination: Data, options: Data)

  predicate GoodHeader(h: Header) {
    && h.identification < 0x1_0000 && h.fragment < 0x2000
    && |h.checksum| == 2 && |h.source| == 4 && |h.destination| == 4
    && |h.options| % 4 == 0 && |h.options| <= 40
  }

  function HeaderSize(h: Header): nat {
    20 + |h.options|
  }

  /** The header with `total` in its length field. */
  function EncodeHeader(h: Header, total: nat): (d: Data)
    requires GoodHeader(h) && total < 0x1_0000
    ensures |d| == HeaderSize(h)
  {
    [64 + HeaderSize(h) / 4, h.tos, total / 256, total % 256, h.identification / 256, h.identification % 256,
     (if h.dontFragment then 64 else 0) + (if h.moreFragments then 32 else 0) + h.fragment / 256, h.fragment % 256,
     h.ttl, h.protocol]
    + h.checksum + h.source + h.destination + h.options
  }

  /** The first ten bytes of a header as they lie in the data. */
  lemma {:induction false} FrontReads(data: Data, start: nat, h: Header, total: nat)
    requires GoodHeader(h) && total < 0x1_0000 && Holds(data, start, EncodeHeader(h, total))
    ensures start + HeaderSize(h) <= |data| && data[start] / 16 == 4 && HeaderLengthAt(data, start) == HeaderSize(h)
    ensures ToUInt16(data, start + 2) == total && ToUInt16(data, start + 4) == h.identification
    ensures ((data[start + 6] / 32) % 2 == 1) == h.moreFragments
    ensures ToUInt16(data, start + 6) % 0x2000 == h.fragment && data[start + 9] == h.protocol
  {
    hide Holds;
    var d := EncodeHeader(h, total);
    assert d[6] == (if h.dontFragment then 64 else 0) + (if h.moreFragments then 32 else 0) + h.fragment / 256;
    forall i | 0 <= i < 10 ensures start + |d| <= |data| && data[start + i] == d[i] {
      ByteInside(data, start, d, i);
    }
    assert d[0] == 64 + HeaderSize(h) / 4 && d[2] == total / 256 && d[3] == total % 256;
    assert d[4] == h.identification / 256 && d[5] == h.identification % 256 && d[9] == h.protocol;
    FragmentBits(h.dontFragment, h.moreFragments, h.fragment, d[6], d[7]);
  }

  lemma {:induction false} FragmentBits(dontFragment: bool, moreFragments: bool, fragment: nat, high: byte, low: byte)
    requires fragment < 0x2000 && low == fragment % 256
    requires high == (if dontFragment then 64 else 0) + (if moreFragments then 32 else 0) + fragment / 256
    ensures ((high / 32) % 2 == 1) == moreFragments && (high * 256 + low) % 0x2000 == fragment
  {
    assert high / 32 == (if dontFragment then 2 else 0) + if moreFragments then 1 else 0;
    assert high * 256 + low == (high / 32) * 0x2000 + fragment;
  }

  lemma {:induction false} AddressesRead(data: Data, start: nat, h: Header, total: nat)
    requires GoodHeader(h) && total < 0x1_0000 && Holds(data, start, EncodeHeader(h, total))
    ensures start + 20 <= |data| && data[start + 12..start + 16] == h.source
    ensures data[start + 16..start + 20] == h.destination
  {
    hide Holds;
    var d := EncodeHeader(h, total);
    SliceInside(data, start, d, 12, 16);
    SliceInside(data, start, d, 16, 20);
    assert d[12..16] == h.source;
    assert d[16..20] == h.destination;
  }

  /**
   A header is read as it was sent. It is refused if and only if it announces more than 9038 bytes and
   more than were captured; what lies behind the announced bytes is cut off, and 0 announces all of them.
   */
  lemma {:induction false} HeaderReads(data: Data, start: nat, end: int, h: Header, total: nat)
    requires GoodHeader(h) && total < 0x1_0000 && Holds(data, start, EncodeHeader(h, total))
    requires start <= end < |data|
    ensures Parses(data, start) <==> total <= 9038 || total <= |data|
    ensures start + 20 <= |data|
            && Construct(data, start, end)
               == Packet(data, start, if 0 < total <= end - start then start + total - 1 else end, 20 + |h.options|,
                         if total == 0 then (end - start + 1) % 0x1_0000 else total,
                         h.identification, h.moreFragments, 8 * h.fragment, h.protocol, h.source, h.destination)
  {
    hide Holds, EncodeHeader, ToUInt16, HeaderLengthAt;
    FrontReads(data, start, h, total);
    AddressesRead(data, start, h, total);
  }

  /** Bytes that start with another version or a header length below 20 are refused. */
  lemma {:induction false} OthersRefused(data: Data, start: nat)
    requires start < |data| && (data[start] / 16 != 4 || data[start] % 16 < 5)
    ensures !Parses(data, start)
  {}
}
