/**
 The GTP header (sections 5.1 and 5.2 of 3GPP TS 29.281): where the tunneled packet lies.
 */
module GtpPacket {
  import opened Bytes
  import opened Wrappers

  type Data = seq<byte>

  /** The tunneled packet, as offset from the start and length. */
  datatype Tunneled = Tunneled(offset: int, length: int)

  datatype Packet = Packet(flagData: nat, version: nat, messageType: nat, messageLength: nat, tunnelEndpointID: nat,
                           tunneled: Option<Tunneled>)

  const GPDU := 255

  predicate Flag(flags: nat, weight: nat)
    requires weight > 0
  {
    (flags / weight) % 2 == 1
  }

  const EXTENSION := 4
  const SEQUENCE := 2
  const NPDU := 1
  const TEID_V2 := 8

  /** The offset after the extension headers, the next one being at `offset` when its type is not 0. */
  function AfterExtensions(data: Data, start: nat, end: int, next: nat, offset: nat): (r: nat)
    requires end < |data|
    ensures r >= offset
    decreases end - (start + offset)
  {
    if next == 0 || start + offset > end || data[start + offset] == 0 then offset
    else
      var last := offset + 4 * data[start + offset] as int - 1;
      if start + last > end then last
      else AfterExtensions(data, start, end, data[start + last] as nat, last + 1)
  }

  /** The offset after the optional fields. */
  function AfterOptions(data: Data, start: nat, end: int, version: nat, flags: nat, offset: nat): (r: nat)
    requires end < |data|
    ensures r >= offset
  {
    if version == 1 && Flag(flags, EXTENSION) then
      if start + offset + 3 > end then offset + 3
      else AfterExtensions(data, start, end, data[start + offset + 3] as nat, offset + 4)
    else if version == 1 && (Flag(flags, SEQUENCE) || Flag(flags, NPDU)) then offset + 4
    else offset
  }

  function HasTeid(version: nat, flags: nat): bool {
    version == 1 || (version == 2 && Flag(flags, TEID_V2))
  }

  /** What the constructor makes of any bytes. */
  function Parsed(data: Data, start: nat, end: int): Packet
    requires end < |data|
  {
    if end < start + 7 then Packet(0, 0, 0, 0, 0, None)
    else
      var flags := data[start] as nat;
      var version := flags / 32;
      var messageType := data[start + 1] as nat;
      var messageLength := ToUInt16(data, start + 2);
      var teid := if HasTeid(version, flags) then ToUInt32(data, start + 4) else 0;
      var offset := AfterOptions(data, start, end, version, flags, if HasTeid(version, flags) then 8 else 4);
      var length := messageLength - offset + 8;
      Packet(flags, version, messageType, messageLength, teid,
             if version == 1 && messageType == GPDU && length > 0 && start + offset + length - 1 <= end then
               Some(Tunneled(offset, length))
             else None)
  }

  /** The extension headers are walked to their end on any bytes. */
  method SkipExtensions(data: Data, start: nat, end: int, first: nat, from: nat) returns (offset: nat)
    requires end < |data|
    ensures offset == AfterExtensions(data, start, end, first, from)
  {
    var next: nat := first;
    offset := from;
    while next != 0 && start + offset <= end
      invariant AfterExtensions(data, start, end, next, offset) == AfterExtensions(data, start, end, first, from)
      decreases end - (start + offset)
    {
      var extensionLengthInBytes := 4 * (data[start + offset] as nat);
      if extensionLengthInBytes < 4 { break; }
      offset := offset + extensionLengthInBytes - 1;
      if start + offset > end { break; }
      next := data[start + offset];
      offset := offset + 1;
    }
  }

  method New(data: Data, start: nat, end: int) returns (p: Packet)
    requires end < |data|
    ensures p == Parsed(data, start, end)
  {
    hide AfterExtensions, ToUInt16, ToUInt32, Flag;
    p := Packet(0, 0, 0, 0, 0, None);
    if end >= start + 7 {
      var flags := data[start] as nat;
      var version := data[start] as nat / 32;
      var messageType := data[start + 1] as nat;
      var messageLength := ToUInt16(data, start + 2);
      var teid := 0;
      var offset: nat := 4;
      if version == 1 || (version == 2 && Flag(flags, TEID_V2)) {
        if start + offset + 3 <= end {
          teid := ToUInt32(data, start + 4);
          offset := offset + 4;
        }
      }
      if version == 1 && Flag(flags, EXTENSION) {
        offset := offset + 3;
        if start + offset <= end {
          var next := data[start + offset] as nat;
          offset := offset + 1;
          offset := SkipExtensions(data, start, end, next, offset);
        }
      } else if version == 1 && (Flag(flags, SEQUENCE) || Flag(flags, NPDU)) {
        offset := offset + 4;
      }
      var tunneled := None;
      if version == 1 && messageType == GPDU {
        var length := messageLength - offset + 8;
        if length > 0 && start + offset + length - 1 <= end {
          tunneled := Some(Tunneled(offset, length));
        }
      }
      p := Packet(flags, version, messageType, messageLength, teid, tunneled);
    }
  }

  /** On any bytes, a tunneled packet lies inside the packet, behind the header, and ends where the length says. */
  lemma {:induction false} TunneledInside(data: Data, start: nat, end: int)
    requires end < |data| && Parsed(data, start, end).tunneled.Some?
    ensures var t := Parsed(data, start, end).tunneled.value;
            && 8 <= t.offset && 0 < t.length && start + t.offset + t.length - 1 <= end
            && t.offset + t.length == 8 + ToUInt16(data, start + 2)
            && data[start] / 32 == 1 && data[start + 1] == 255
  {
    hide ToUInt16, ToUInt32, AfterExtensions, Flag;
  }

  // ----- Messages

  /** An extension header: its type, named by the field before it, and the bytes between length and next type. */
  datatype Extension = Extension(type_: nat, content: Data)

  datatype Message = Message(messageType: byte, teid: nat, hasSequence: bool, hasNpdu: bool, hasExtensions: bool,
                             sequence: nat, npdu: nat, extensions: seq<Extension>, payload: Data)

  predicate GoodExtension(e: Extension) {
    1 <= e.type_ < 256 && (|e.content| + 2) % 4 == 0 && |e.content| + 2 <= 4 * 255
  }

  predicate GoodExtensions(extensions: seq<Extension>) {
    forall e | e in extensions :: GoodExtension(e)
  }

  function FirstType(extensions: seq<Extension>): nat {
    if extensions == [] then 0 else extensions[0].type_
  }

  function EncodeExtensions(extensions: seq<Extension>): Data
    requires GoodExtensions(extensions)
  {
    if extensions == [] then []
    else
      assert extensions[0] in extensions && (extensions[1..] != [] ==> extensions[1..][0] in extensions);
      var e := extensions[0];
      ([(|e.content| + 2) / 4] + e.content + [FirstType(extensions[1..])]) + EncodeExtensions(extensions[1..])
  }

  predicate HasOptions(m: Message) {
    m.hasSequence || m.hasNpdu || m.hasExtensions
  }

  predicate Good(m: Message) {
    && m.teid < 0x1_0000_0000 && m.sequence < 0x1_0000 && m.npdu < 256
    && GoodExtensions(m.extensions) && (m.extensions != [] ==> m.hasExtensions)
    && |EncodeOptions(m)| + |m.payload| < 0x1_0000
  }

  /** Sequence number, N-PDU number and next type are sent together when any of the three flags is set. */
  function EncodeOptions(m: Message): Data
    requires m.sequence < 0x1_0000 && m.npdu < 256 && GoodExtensions(m.extensions)
  {
    if !HasOptions(m) then []
    else
      assert m.extensions != [] ==> m.extensions[0] in m.extensions;
      (FromUInt16(m.sequence) + [m.npdu, FirstType(m.extensions)]) + EncodeExtensions(m.extensions)
  }

  /** Version 1, protocol type GTP, and the flags of the optional fields. */
  function Flags(m: Message): (f: nat)
    ensures f < 64 && f / 32 == 1
    ensures Flag(f, 4) == m.hasExtensions && Flag(f, 2) == m.hasSequence && Flag(f, 1) == m.hasNpdu
  {
    48 + (if m.hasExtensions then 4 else 0) + (if m.hasSequence then 2 else 0) + (if m.hasNpdu then 1 else 0)
  }

  function EncodeHeader(m: Message): (d: Data)
    requires Good(m)
    ensures |d| == 8
  {
    [Flags(m), m.messageType] + FromUInt16(|EncodeOptions(m)| + |m.payload|) + FromUInt32(m.teid)
  }

  function Encode(m: Message): Data
    requires Good(m)
  {
    EncodeHeader(m) + (EncodeOptions(m) + m.payload)
  }

  lemma {:induction false} ByteHeld(data: Data, at: nat, b: byte, rest: Data)
    requires Holds(data, at, [b] + rest)
    ensures at < |data| && data[at] == b && Holds(data, at + 1, rest)
  {
    HoldsParts(data, at, [b], rest);
    assert data[at..at + 1][0] == data[at];
  }

  lemma {:induction false} ExtensionHeld(data: Data, at: nat, extensions: seq<Extension>)
    requires GoodExtensions(extensions) && extensions != [] && Holds(data, at, EncodeExtensions(extensions))
    ensures GoodExtension(extensions[0]) && GoodExtensions(extensions[1..])
    ensures var n := |extensions[0].content| + 2;
            && at + n <= |data| && data[at] == n / 4 && data[at + n - 1] == FirstType(extensions[1..])
            && Holds(data, at + n, EncodeExtensions(extensions[1..]))
            && |EncodeExtensions(extensions)| == n + |EncodeExtensions(extensions[1..])|
  {
    hide Holds;
    var e, rest := extensions[0], extensions[1..];
    assert e in extensions && (rest != [] ==> rest[0] in extensions);
    var tail := EncodeExtensions(rest);
    var length: byte := (|e.content| + 2) / 4;
    var next: byte := FirstType(rest);
    assert EncodeExtensions(extensions) == [length] + (e.content + ([next] + tail));
    ByteHeld(data, at, length, e.content + ([next] + tail));
    HoldsParts(data, at + 1, e.content, [next] + tail);
    ByteHeld(data, at + 1 + |e.content|, next, tail);
  }

  lemma {:induction false} WalksExtensions(data: Data, start: nat, end: int, offset: nat, extensions: seq<Extension>)
    requires GoodExtensions(extensions) && Holds(data, start + offset, EncodeExtensions(extensions))
    requires start + offset + |EncodeExtensions(extensions)| - 1 <= end < |data|
    ensures AfterExtensions(data, start, end, FirstType(extensions), offset) == offset + |EncodeExtensions(extensions)|
    decreases |extensions|
  {
    hide Holds, EncodeExtensions;
    if extensions != [] {
      ExtensionHeld(data, start + offset, extensions);
      var n := |extensions[0].content| + 2;
      WalksExtensions(data, start, end, offset + n, extensions[1..]);
    } else {
      assert |EncodeExtensions([])| == 0 by { NoExtensions(); }
    }
  }

  lemma {:induction false} NoExtensions()
    ensures EncodeExtensions([]) == []
  {}

  /** Where the parts of a message lie. */
  lemma {:induction false} MessageHeld(data: Data, start: nat, m: Message)
    requires Good(m) && Holds(data, start, Encode(m))
    ensures start + 8 <= |data| && data[start] == Flags(m) && data[start + 1] == m.messageType
    ensures ToUInt16(data, start + 2) == |EncodeOptions(m)| + |m.payload| && ToUInt32(data, start + 4) == m.teid
    ensures Holds(data, start + 8, EncodeOptions(m)) && Holds(data, start + 8 + |EncodeOptions(m)|, m.payload)
  {
    hide ToUInt16, ToUInt32, FromUInt16, FromUInt32, Holds, EncodeOptions;
    HoldsParts(data, start, EncodeHeader(m), EncodeOptions(m) + m.payload);
    HoldsParts(data, start + 8, EncodeOptions(m), m.payload);
    var length, teid := FromUInt16(|EncodeOptions(m)| + |m.payload|), FromUInt32(m.teid);
    var flags: byte := Flags(m);
    assert EncodeHeader(m) == [flags] + ([m.messageType] + (length + teid));
    ByteHeld(data, start, flags, [m.messageType] + (length + teid));
    ByteHeld(data, start + 1, m.messageType, length + teid);
    HoldsParts(data, start + 2, length, teid);
    ReadsUInt16(data, start + 2, |EncodeOptions(m)| + |m.payload|);
    ReadsUInt32(data, start + 4, m.teid);
  }

  lemma {:induction false} OptionsSkipped(data: Data, start: nat, end: int, m: Message)
    requires Good(m) && Holds(data, start + 8, EncodeOptions(m)) && start + 8 + |EncodeOptions(m)| - 1 <= end < |data|
    ensures AfterOptions(data, start, end, 1, Flags(m), 8) == 8 + |EncodeOptions(m)|
  {
    hide Holds, AfterExtensions, EncodeExtensions, FromUInt16, Flag, Flags;
    if HasOptions(m) {
      assert m.extensions != [] ==> m.extensions[0] in m.extensions;
      var tail := EncodeExtensions(m.extensions);
      var npdu: byte, next: byte := m.npdu, FirstType(m.extensions);
      assert EncodeOptions(m) == FromUInt16(m.sequence) + ([npdu] + ([next] + tail));
      HoldsParts(data, start + 8, FromUInt16(m.sequence), [npdu] + ([next] + tail));
      ByteHeld(data, start + 10, npdu, [next] + tail);
      ByteHeld(data, start + 11, next, tail);
      if m.hasExtensions {
        WalksExtensions(data, start, end, 12, m.extensions);
      } else {
        NoExtensions();
      }
    }
  }

  /**
   Whatever extension headers a message carries, exactly its payload is found if it is a G-PDU; an empty one is
   not reported.
   */
  lemma {:induction false} RoundTrip(data: Data, start: nat, end: int, m: Message)
    requires Good(m) && Holds(data, start, Encode(m)) && start + |Encode(m)| - 1 <= end < |data|
    ensures var p := Parsed(data, start, end);
            && p.version == 1 && p.messageType == m.messageType as nat && p.tunnelEndpointID == m.teid
            && (p.tunneled.None? <==> m.payload == [] || m.messageType != 255)
            && (p.tunneled.Some? ==>
                  var t := p.tunneled.value;
                  t.offset == 8 + |EncodeOptions(m)| && t.length == |m.payload| && start + t.offset + t.length <= |data|
                  && data[start + t.offset..start + t.offset + t.length] == m.payload)
  {
    hide ToUInt16, ToUInt32, AfterOptions, EncodeOptions, Flag, Flags;
    MessageHeld(data, start, m);
    OptionsSkipped(data, start, end, m);
    var o := 8 + |EncodeOptions(m)|;
    assert Parsed(data, start, end).tunneled 
           == if m.payload == [] || m.messageType != 255 then None else Some(Tunneled(o, |m.payload|));
  }

  /** Other versions carry nothing, and have an endpoint identifier in version 2 only, when its flag says so. */
  lemma {:induction false} OtherVersions(data: Data, start: nat, end: int)
    requires start + 7 <= end < |data| && data[start] / 32 != 1
    ensures var p := Parsed(data, start, end);
            && p.tunneled == None && p.version == data[start] / 32
            && p.tunnelEndpointID == if data[start] in {72, 73, 74, 75, 76, 77, 78, 79, 88, 89, 90, 91, 92, 93, 94, 95}
                                     then ToUInt32(data, start + 4) else 0
  {
    hide ToUInt16, ToUInt32, AfterExtensions;
  }
}
