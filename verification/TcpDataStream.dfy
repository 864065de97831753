/** The stream and the virtual packets read from it, proved against the functions of TcpReassembly. */
module TcpDataStream {
  import opened Bytes
  import opened OrderedMaps
  import opened TcpReassembly

  /** The header put in front of a virtual packet is a stub of zeros. */
  const TCP_HEADER: Data := seq(20, _ => 0)

  lemma FirstBytesStep(data: map<int, Data>, n: nat)
    ensures n == 0 || |data| == 0 ==> FirstBytes(data, n) == []
    ensures n > 0 && |data| > 0 ==> FirstBytes(data, n) == data[FirstKey(data)] + FirstBytes(Rest(data), n - 1)
  {
  }

  class Stream {
    var initialTcpSequenceNumber: int
    var expectedTcpSequenceNumber: int
    var dataList: map<int, Data>
    var totalByteCount: int
    var virtualTcpData: VirtualTcpData?

    function Snapshot(): Buffer
      reads this
    {
      Buffer(initialTcpSequenceNumber, expectedTcpSequenceNumber, dataList, totalByteCount)
    }

    /** Segments are non-empty and end below 2^32, so no sequence number wraps. */
    ghost predicate Valid()
      reads this, virtualTcpData
    {
      && NonEmpty(dataList)
      && (forall k | k in dataList :: 0 <= k && k + |dataList[k]| < SEQUENCE_SPACE)
      && 0 <= expectedTcpSequenceNumber < SEQUENCE_SPACE
      && (virtualTcpData != null ==>
            virtualTcpData.stream == this && 1 <= virtualTcpData.nPackets <= |dataList|)
    }

    constructor (initialSeqNum: int)
      requires 0 <= initialSeqNum < SEQUENCE_SPACE
      ensures Valid() && Snapshot() == Fresh(initialSeqNum) && virtualTcpData == null
    {
      initialTcpSequenceNumber, expectedTcpSequenceNumber := initialSeqNum, initialSeqNum;
      dataList, totalByteCount, virtualTcpData := map[], 0, null;
    }

    method HasMissingSegments() returns (r: bool)
      ensures r == HasMissing(Snapshot())
    {
      r := totalByteCount < AsInt32((expectedTcpSequenceNumber - initialTcpSequenceNumber) % SEQUENCE_SPACE);
    }

    method SetInitialTcpSequenceNumber(seqNo: int)
      requires Valid() && 0 <= seqNo < SEQUENCE_SPACE
      modifies this
      ensures Valid() && Snapshot() == Apply(old(Snapshot()), SetInitial(seqNo))
      ensures virtualTcpData == old(virtualTcpData)
    {
      initialTcpSequenceNumber := seqNo;
    }

    method AddTcpData(seqNo: int, data: Data)
      requires Valid() && 0 <= seqNo && seqNo + |data| < SEQUENCE_SPACE
      modifies this
      ensures Valid() && Snapshot() == Insert(old(Snapshot()), seqNo, data)
      ensures virtualTcpData == old(virtualTcpData)
    {
      if data == [] {
        return;
      }
      if seqNo !in dataList {
        dataList := dataList[seqNo := data];
        totalByteCount := totalByteCount + |data|;
        if expectedTcpSequenceNumber == seqNo {
          ghost var end := Frontier(dataList, seqNo);
          assert seqNo in dataList;
          assert forall k | k in dataList :: 0 <= k && k + |dataList[k]| < SEQUENCE_SPACE;
          expectedTcpSequenceNumber := expectedTcpSequenceNumber + |data|;
          while expectedTcpSequenceNumber in dataList
            invariant 0 <= expectedTcpSequenceNumber < SEQUENCE_SPACE
            invariant Frontier(dataList, expectedTcpSequenceNumber) == end
            modifies this`expectedTcpSequenceNumber
            decreases KeysFrom(dataList, expectedTcpSequenceNumber)
          {
            ghost var e := expectedTcpSequenceNumber;
            expectedTcpSequenceNumber := expectedTcpSequenceNumber + |dataList[expectedTcpSequenceNumber]|;
            assert e in KeysFrom(dataList, e) && e !in KeysFrom(dataList, expectedTcpSequenceNumber);
          }
        }
      }
    }

    method RemoveData(bytesToRemove: int)
      requires Valid()
      modifies this
      ensures Valid() && virtualTcpData == null
      ensures Snapshot() == old(Snapshot()).(data := Remove(old(dataList), bytesToRemove))
    {
      hide Remove, FirstKey, Rest;
      var bytesRemoved := 0;
      virtualTcpData := null;
      while bytesRemoved < bytesToRemove && |dataList| > 0
        invariant Valid() && virtualTcpData == null
        invariant Snapshot() == old(Snapshot()).(data := dataList)
        invariant 0 <= bytesRemoved
        invariant Remove(dataList, bytesToRemove - bytesRemoved) == Remove(old(dataList), bytesToRemove)
        decreases |dataList|, bytesToRemove - bytesRemoved
      {
        var k := FirstKey(dataList);
        if bytesRemoved + |dataList[k]| <= bytesToRemove {
          RemoveWhole(dataList, bytesToRemove - bytesRemoved);
          bytesRemoved := bytesRemoved + |dataList[k]|;
          dataList := Rest(dataList);
        } else {
          RemoveCut(dataList, bytesToRemove - bytesRemoved);
          var toRemoveNow := bytesToRemove - bytesRemoved;
          var newSeq, newData := k + toRemoveNow, dataList[k][toRemoveNow..];
          dataList := Rest(dataList);
          dataList := dataList[newSeq := newData];
          bytesRemoved := bytesRemoved + toRemoveNow;
          RemoveNothing(dataList, 0);
        }
      }
      RemoveNothing(dataList, bytesToRemove - bytesRemoved);
    }

    method Clear()
      requires Valid()
      modifies this
      ensures Valid() && virtualTcpData == null
      ensures Snapshot() == Cleared(old(Snapshot()))
    {
      dataList, totalByteCount, virtualTcpData := map[], 0, null;
    }

    method CountBytesToRead() returns (n: int)
      ensures n == BytesToRead(Snapshot())
    {
      if |dataList| == 0 {
        return 0;
      }
      var firstSeq := FirstKey(dataList);
      if firstSeq != initialTcpSequenceNumber && firstSeq != expectedTcpSequenceNumber && |dataList| == 1 {
        return |dataList[firstSeq]|;
      }
      if expectedTcpSequenceNumber > firstSeq {
        return expectedTcpSequenceNumber - firstSeq;
      }
      return 0;
    }

    method CountPacketsToRead() returns (count: nat)
      ensures count == PacketsToRead(Snapshot())
    {
      count := 0;
      var expected := if |dataList| == 0 then 0 else FirstKey(dataList);
      var rest := dataList;
      while |rest| > 0
        invariant count + PacketsFrom(rest, expected) == PacketsToRead(Snapshot())
        decreases |rest|
      {
        if FirstKey(rest) != expected {
          break;
        }
        count := count + 1;
        expected := expected + |rest[expected]|;
        rest := Rest(rest);
      }
    }

    method GetAllAvailableTcpData() returns (vtd: VirtualTcpData)
      requires Valid()
      ensures fresh(vtd) && vtd.stream == this && vtd.Valid()
      ensures vtd.nPackets == Gather(Snapshot(), 1)
    {
      vtd := new VirtualTcpData(this);
      var more := vtd.TryAppendNextPacket();
      while more
        invariant vtd.stream == this && vtd.Valid()
        invariant if more then Gather(Snapshot(), vtd.nPackets) == Gather(Snapshot(), 1)
                  else vtd.nPackets == Gather(Snapshot(), 1)
        decreases more, MAX_PACKET_FRAGMENTS - vtd.nPackets
      {
        more := vtd.TryAppendNextPacket();
      }
    }

    /** Null when nothing can be read, and when the packet handed out last cannot grow. */
    method GetNextVirtualTcpData() returns (r: VirtualTcpData?)
      requires Valid()
      modifies this, virtualTcpData
      ensures Valid() && Snapshot() == old(Snapshot())
      ensures old(virtualTcpData) == null ==>
                if BytesToRead(Snapshot()) > 0 then r != null && r == virtualTcpData && r.nPackets == 1
                else r == null && virtualTcpData == null
      ensures old(virtualTcpData) != null ==>
                && virtualTcpData == old(virtualTcpData)
                && if CanAppend(Snapshot(), old(virtualTcpData.nPackets))
                   then r == virtualTcpData && r.nPackets == old(virtualTcpData.nPackets) + 1
                   else r == null && virtualTcpData.nPackets == old(virtualTcpData.nPackets)
    {
      if virtualTcpData == null {
        var bytes := CountBytesToRead();
        if bytes > 0 {
          virtualTcpData := new VirtualTcpData(this);
        }
      } else {
        var more := virtualTcpData.TryAppendNextPacket();
        if !more {
          return null;
        }
      }
      r := virtualTcpData;
    }
  }

  /** The first `nPackets` buffered packets, read as one. */
  class VirtualTcpData {
    const stream: Stream
    var nPackets: nat

    ghost predicate Valid()
      reads this, stream
    {
      nPackets >= 1 && (nPackets <= |stream.dataList| || |stream.dataList| == 0)
    }

    constructor (stream: Stream)
      ensures this.stream == stream && nPackets == 1
    {
      this.stream, nPackets := stream, 1;
    }

    method ByteCount() returns (n: int)
      requires Valid()
      ensures n == TcpReassembly.ByteCount(stream.dataList, nPackets)
    {
      if |stream.dataList| == 0 {
        return 0;
      }
      var it := stream.dataList;
      for i := 0 to nPackets - 1
        invariant |it| == |stream.dataList| - i
        invariant EndOf(it, nPackets - i) == EndOf(stream.dataList, nPackets)
      {
        it := Rest(it);
      }
      n := FirstKey(it) + |it[FirstKey(it)]| - FirstKey(stream.dataList);
    }

    method TryAppendNextPacket() returns (r: bool)
      requires Valid()
      modifies this
      ensures Valid()
      ensures r == CanAppend(stream.Snapshot(), old(nPackets))
      ensures nPackets == old(nPackets) + (if r then 1 else 0)
    {
      var available := stream.CountBytesToRead();
      var bytes := ByteCount();
      var packets := stream.CountPacketsToRead();
      if available > bytes && packets > nPackets && nPackets < MAX_PACKET_FRAGMENTS {
        nPackets := nPackets + 1;
        return true;
      }
      return false;
    }

    method GetBytes(includeTcpHeader: bool) returns (result: Data)
      ensures result == (if includeTcpHeader then seq(20, _ => 0) else []) + FirstBytes(stream.dataList, nPackets)
    {
      hide FirstBytes;
      result := [];
      if includeTcpHeader {
        result := result + TCP_HEADER;
      }
      ghost var header := result;
      var it, i := stream.dataList, 0;
      while i < nPackets && |it| > 0
        invariant i <= nPackets
        invariant result + FirstBytes(it, nPackets - i) == header + FirstBytes(stream.dataList, nPackets)
        decreases |it|
      {
        FirstBytesStep(it, nPackets - i);
        Associative(result, it[FirstKey(it)], FirstBytes(Rest(it), nPackets - i - 1));
        result := result + it[FirstKey(it)];
        it, i := Rest(it), i + 1;
      }
      FirstBytesStep(it, nPackets - i);
      assert result + [] == result;
    }
  }
}
