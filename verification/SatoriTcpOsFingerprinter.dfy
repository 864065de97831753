/**
 Matching operating systems by TCP fingerprint. Both the fingerprinter and each fingerprint remember,
 per value of the flag byte, what is left to look at; what is remembered never changes an answer.
 */
module SatoriTcpOsFingerprinter {
  import opened Bytes
  import opened Wrappers

  type Data = seq<byte>

  /** The packets of a frame that matter here; p0f compares the contents of the two. */
  datatype Packet = Tcp(flagsRaw: byte, segment: Data) | IPv4(timeToLive: byte, packet: Data) | Other

  datatype Query = Query(flagsRaw: byte, segment: Data, timeToLive: byte, packet: Data)

  // ----- Tests

  /** A weighted test: the TCP flags it names, and the p0f signature when there is one. */
  datatype Test = Test(weight: int, tcpflags: set<char>, p0f: Option<(Data, Data, nat) -> bool>) {

    predicate TcpFlagsMatch(flagsRaw: byte) {
      && (HasFlag(flagsRaw, SYN) <==> 'S' in tcpflags)
      && (HasFlag(flagsRaw, ACK) <==> 'A' in tcpflags)
      && (HasFlag(flagsRaw, FIN) <==> 'F' in tcpflags)
    }

    predicate Matches(q: Query) {
      && TcpFlagsMatch(q.flagsRaw)
      && p0f.Some?
      && (p0f.value(q.packet, q.segment, q.timeToLive)
          || p0f.value(q.packet, q.segment, OriginalTimeToLive(q.timeToLive)))
    }

    /** Tests lighter than three never count. */
    predicate Qualifies(q: Query) {
      weight >= 3 && Matches(q)
    }
  }

  const FIN := 1
  const SYN := 2
  const ACK := 16

  predicate HasFlag(flagsRaw: byte, weight: nat)
    requires weight > 0
  {
    (flagsRaw as nat / weight) % 2 == 1
  }

  function OriginalTimeToLive(timeToLive: byte): byte {
    if timeToLive > 128 then 255 else if timeToLive > 64 then 128 else if timeToLive > 32 then 64 else 32
  }

  /** The flag bits of section 3.1 of RFC 793, with any others set. */
  lemma {:induction false} FlagsRead(fin: bool, syn: bool, middle: nat, ack: bool, high: nat)
    requires middle < 4 && high < 8
    ensures var b: byte := (if fin then 1 else 0) + (if syn then 2 else 0) + 4 * middle
                           + (if ack then 16 else 0) + 32 * high;
            HasFlag(b, FIN) == fin && HasFlag(b, SYN) == syn && HasFlag(b, ACK) == ack
  {
    var low := (if fin then 1 else 0) + (if syn then 2 else 0) + 4 * middle;
    var b: byte := low + (if ack then 16 else 0) + 32 * high;
    assert b / 16 == 2 * high + if ack then 1 else 0;
    assert b / 2 == 2 * (middle + (if ack then 4 else 0) + 8 * high) + if syn then 1 else 0;
    assert b == 2 * (b / 2) + if fin then 1 else 0;
  }

  /** The original time to live is the least of four usual ones that the packet can have started with. */
  lemma {:induction false} OriginalIsLeast(timeToLive: byte)
    ensures OriginalTimeToLive(timeToLive) in {32, 64, 128, 255} && timeToLive <= OriginalTimeToLive(timeToLive)
    ensures timeToLive <= 32 ==> OriginalTimeToLive(timeToLive) <= 32
    ensures timeToLive <= 64 ==> OriginalTimeToLive(timeToLive) <= 64
    ensures timeToLive <= 128 ==> OriginalTimeToLive(timeToLive) <= 128
  {}

  /** What makes a test count, for a packet with these three flags and no matter what others. */
  lemma {:induction false} QualifiesIff(t: Test, q: Query, syn: bool, ack: bool, fin: bool)
    requires syn == (q.flagsRaw / 2 % 2 == 1) && ack == (q.flagsRaw / 16 % 2 == 1) && fin == (q.flagsRaw % 2 == 1)
    ensures t.Qualifies(q)
            <==> t.weight >= 3 && ('S' in t.tcpflags) == syn && ('A' in t.tcpflags) == ack && ('F' in t.tcpflags) == fin
                 && t.p0f.Some?
                 && exists ttl: byte :: t.p0f.value(q.packet, q.segment, ttl)
                                        && ttl in {q.timeToLive, OriginalTimeToLive(q.timeToLive)}
  {}

  // ----- What a scan of all tests finds

  /** The greatest weight of a matching test of at least three, or -1. */
  function Best(tests: seq<Test>, q: Query): int {
    if tests == [] then -1
    else
      var rest, last := Best(tests[..|tests| - 1], q), tests[|tests| - 1];
      if last.Qualifies(q) && last.weight > rest then last.weight else rest
  }

  lemma {:induction false} BestIsGreatest(tests: seq<Test>, q: Query)
    ensures Best(tests, q) == -1 || Best(tests, q) >= 3
    ensures Best(tests, q) == -1 <==> forall t | t in tests :: !t.Qualifies(q)
    ensures Best(tests, q) != -1 ==> exists t :: t in tests && t.Qualifies(q) && t.weight == Best(tests, q)
    ensures forall t | t in tests && t.Qualifies(q) :: t.weight <= Best(tests, q)
  {
    if tests != [] {
      var front, last := tests[..|tests| - 1], tests[|tests| - 1];
      BestIsGreatest(front, q);
      assert tests == front + [last];
      if Best(tests, q) != -1 {
        if Best(tests, q) == Best(front, q) {
          var t :| t in front && t.Qualifies(q) && t.weight == Best(front, q);
          assert t in tests;
        } else {
          assert last in tests;
        }
      }
    }
  }

  /** The tests for a flag byte. */
  function ForFlags(tests: seq<Test>, flagsRaw: byte): seq<Test> {
    if tests == [] then []
    else
      var rest, last := ForFlags(tests[..|tests| - 1], flagsRaw), tests[|tests| - 1];
      if last.TcpFlagsMatch(flagsRaw) then rest + [last] else rest
  }

  lemma {:induction false} BestForFlags(tests: seq<Test>, q: Query)
    ensures Best(ForFlags(tests, q.flagsRaw), q) == Best(tests, q)
  {
    if tests != [] {
      var front, last := tests[..|tests| - 1], tests[|tests| - 1];
      BestForFlags(front, q);
      var rest := ForFlags(front, q.flagsRaw);
      assert (rest + [last])[..|rest|] == rest;
    }
  }

  function Marked(tests: seq<Test>): seq<Option<Test>> {
    if tests == [] then [None] else Remembered(tests)
  }

  function Remembered(tests: seq<Test>): (r: seq<Option<Test>>)
    ensures |r| == |tests| && forall i :: 0 <= i < |tests| ==> r[i] == Some(tests[i])
  {
    seq(|tests|, i requires 0 <= i < |tests| => Some(tests[i]))
  }

  class TcpFingerprint {
    const os: string
    const osClass: string
    const testList: seq<Test>
    var tcpFlagsTestLists: seq<seq<Option<Test>>>

    constructor (os: string, osClass: string, tests: seq<Test>)
      ensures Valid() && this.os == os && this.osClass == osClass && testList == tests
    {
      this.os, this.osClass, testList := os, osClass, tests;
      tcpFlagsTestLists := seq(256, _ => []);
    }

    /** What is remembered for a flag byte is nothing yet, its tests, or the mark that it has none. */
    ghost predicate Valid()
      reads this
    {
      && |tcpFlagsTestLists| == 256
      && forall k: byte :: tcpFlagsTestLists[k] == [] || tcpFlagsTestLists[k] == Marked(ForFlags(testList, k))
    }

    function ToString(): string {
      if os != [] && osClass != [] then osClass + " - " + os
      else if os != [] then os
      else if osClass != [] then osClass
      else "TcpFingerprint"
    }

    method ContainsFingerprintsForTcpFlags(flagsRaw: byte) returns (contains: bool)
      requires Valid()
      modifies this
      ensures Valid() && tcpFlagsTestLists[flagsRaw] == Marked(ForFlags(testList, flagsRaw))
      ensures contains <==> ForFlags(testList, flagsRaw) != []
    {
      hide ForFlags;
      if |tcpFlagsTestLists[flagsRaw]| == 0 {
        var tests := TestsForFlags(flagsRaw);
        if tests == [] {
          tests := [None];
        }
        assert tests == Marked(ForFlags(testList, flagsRaw));
        tcpFlagsTestLists := tcpFlagsTestLists[flagsRaw as int := tests];
      }
      contains := tcpFlagsTestLists[flagsRaw][0].Some?;
    }

    method TestsForFlags(flagsRaw: byte) returns (tests: seq<Option<Test>>)
      ensures tests == Remembered(ForFlags(testList, flagsRaw))
    {
      tests := [];
      for i := 0 to |testList|
        invariant tests == Remembered(ForFlags(testList[..i], flagsRaw))
      {
        ghost var next := testList[..i + 1];
        assert next[..i] == testList[..i];
        if testList[i].TcpFlagsMatch(flagsRaw) {
          tests := tests + [Some(testList[i])];
        }
      }
      assert testList[..|testList|] == testList;
    }

    /** The weight a scan of all tests finds, whatever was remembered before. */
    method GetHighestMatchWeight(q: Query) returns (highestWeight: int)
      requires Valid()
      modifies this
      ensures Valid() && highestWeight == Best(testList, q)
    {
      hide ForFlags, Valid;
      BestForFlags(testList, q);
      ghost var tests := ForFlags(testList, q.flagsRaw);
      highestWeight := -1;
      var contains := ContainsFingerprintsForTcpFlags(q.flagsRaw);
      if contains {
        ListsValid();
        var cached := tcpFlagsTestLists[q.flagsRaw];
        for i := 0 to |cached|
          invariant |cached| == |tests| && highestWeight == Best(tests[..i], q)
        {
          ghost var next := tests[..i + 1];
          assert next[..i] == tests[..i];
          if cached[i].Some? && cached[i].value.weight >= 3 && cached[i].value.weight > highestWeight
             && cached[i].value.Matches(q) {
            highestWeight := cached[i].value.weight;
          }
        }
        assert tests[..|tests|] == tests;
      }
    }

    lemma ListsValid()
      requires Valid()
      ensures |tcpFlagsTestLists| == 256
    {}
  }

  // ----- What a scan of all fingerprints finds

  function Highest(fingerprints: seq<TcpFingerprint>, q: Query): int {
    if fingerprints == [] then -1
    else
      var rest := Highest(fingerprints[..|fingerprints| - 1], q);
      var last := Best(fingerprints[|fingerprints| - 1].testList, q);
      if last > rest then last else rest
  }

  /** The names of the fingerprints whose best test has this weight, in load order. */
  function Names(fingerprints: seq<TcpFingerprint>, q: Query, weight: int): seq<string> {
    if fingerprints == [] then []
    else
      var rest, last := Names(fingerprints[..|fingerprints| - 1], q, weight), fingerprints[|fingerprints| - 1];
      if Best(last.testList, q) == weight then rest + [last.ToString()] else rest
  }

  /** The fingerprints that have tests for a flag byte. */
  function Having(fingerprints: seq<TcpFingerprint>, flagsRaw: byte): seq<TcpFingerprint> {
    if fingerprints == [] then []
    else
      var rest, last := Having(fingerprints[..|fingerprints| - 1], flagsRaw), fingerprints[|fingerprints| - 1];
      if ForFlags(last.testList, flagsRaw) != [] then rest + [last] else rest
  }

  lemma {:induction false} HighestIsGreatest(fingerprints: seq<TcpFingerprint>, q: Query)
    ensures Highest(fingerprints, q) == -1
            || exists f :: f in fingerprints && Best(f.testList, q) == Highest(fingerprints, q)
    ensures forall f | f in fingerprints :: Best(f.testList, q) <= Highest(fingerprints, q)
    ensures forall w :: w > Highest(fingerprints, q) ==> Names(fingerprints, q, w) == []
  {
    hide Best;
    if fingerprints != [] {
      var front, last := fingerprints[..|fingerprints| - 1], fingerprints[|fingerprints| - 1];
      HighestIsGreatest(front, q);
      assert fingerprints == front + [last];
      if Highest(fingerprints, q) == Highest(front, q) {
        if Highest(front, q) != -1 {
          var f :| f in front && Best(f.testList, q) == Highest(front, q);
          assert f in fingerprints;
        }
      } else {
        assert last in fingerprints;
      }
    }
  }

  /** Leaving out the fingerprints without tests for the flags changes neither the maximum nor who reaches it. */
  lemma {:induction false} HavingSuffices(fingerprints: seq<TcpFingerprint>, q: Query, weight: int)
    requires weight >= 3
    ensures Highest(Having(fingerprints, q.flagsRaw), q) == Highest(fingerprints, q)
    ensures Names(Having(fingerprints, q.flagsRaw), q, weight) == Names(fingerprints, q, weight)
  {
    hide ForFlags, Best;
    if fingerprints != [] {
      var front, last := fingerprints[..|fingerprints| - 1], fingerprints[|fingerprints| - 1];
      HavingSuffices(front, q, weight);
      var rest := Having(front, q.flagsRaw);
      assert (rest + [last])[..|rest|] == rest;
      WithoutTests(last.testList, q);
      HighestFromBelow(front, q);
    }
  }

  lemma {:induction false} WithoutTests(tests: seq<Test>, q: Query)
    ensures ForFlags(tests, q.flagsRaw) == [] ==> Best(tests, q) == -1
  {
    BestForFlags(tests, q);
  }

  lemma {:induction false} HighestFromBelow(fingerprints: seq<TcpFingerprint>, q: Query)
    ensures Highest(fingerprints, q) >= -1
  {
    hide Best;
    if fingerprints != [] {
      HighestFromBelow(fingerprints[..|fingerprints| - 1], q);
    }
  }

  /** The last TCP and the last IPv4 packet, when there are both. */
  function LastTcp(packets: seq<Packet>): Option<Packet> {
    if packets == [] then None
    else if packets[|packets| - 1].Tcp? then Some(packets[|packets| - 1])
    else LastTcp(packets[..|packets| - 1])
  }

  function LastIPv4(packets: seq<Packet>): Option<Packet> {
    if packets == [] then None
    else if packets[|packets| - 1].IPv4? then Some(packets[|packets| - 1])
    else LastIPv4(packets[..|packets| - 1])
  }

  lemma {:induction false} LastKinds(packets: seq<Packet>)
    ensures LastTcp(packets).Some? ==> LastTcp(packets).value.Tcp?
    ensures LastIPv4(packets).Some? ==> LastIPv4(packets).value.IPv4?
  {
    if packets != [] {
      LastKinds(packets[..|packets| - 1]);
    }
  }

  function Asked(packets: seq<Packet>): Option<Query> {
    match (LastTcp(packets), LastIPv4(packets))
    case (Some(Tcp(flagsRaw, segment)), Some(IPv4(timeToLive, packet))) =>
      Some(Query(flagsRaw, segment, timeToLive, packet))
    case _ => None
  }

  /** The answer of a scan of all tests of all fingerprints, added to or replacing what was listed. */
  function Answer(fingerprints: seq<TcpFingerprint>, asked: Option<Query>, listed: seq<string>): seq<string> {
    match asked
    case None => listed
    case Some(q) =>
      var highest := Highest(fingerprints, q);
      if highest > 3 then Names(fingerprints, q, highest)
      else if highest == 3 then listed + Names(fingerprints, q, 3)
      else listed
  }

  /** The query is made of the last TCP packet and the last IPv4 packet of the frame. */
  lemma {:induction false} AskedIs(front: seq<Packet>, rest: seq<Packet>, flagsRaw: byte, segment: Data,
                                   timeToLive: byte, packet: Data)
    requires forall p | p in rest :: p.Other?
    ensures Asked(front + [Tcp(flagsRaw, segment), IPv4(timeToLive, packet)] + rest)
            == Asked(front + [IPv4(timeToLive, packet), Tcp(flagsRaw, segment)] + rest)
            == Some(Query(flagsRaw, segment, timeToLive, packet))
    ensures (forall p | p in front :: !p.Tcp?) || (forall p | p in front :: !p.IPv4?) ==> Asked(front + rest) == None
    decreases |rest|
  {
    var both := [Tcp(flagsRaw, segment), IPv4(timeToLive, packet)];
    var other := [IPv4(timeToLive, packet), Tcp(flagsRaw, segment)];
    if rest == [] {
      LastOf(front, both);
      LastOf(front, other);
      NoneLast(front);
      assert front + [] == front && front + both + [] == front + both && front + other + [] == front + other;
    } else {
      var n := |rest| - 1;
      assert rest[n] in rest && rest == rest[..n] + [rest[n]];
      AskedIs(front, rest[..n], flagsRaw, segment, timeToLive, packet);
      OtherLast(front + both + rest[..n], rest[n]);
      OtherLast(front + other + rest[..n], rest[n]);
      OtherLast(front + rest[..n], rest[n]);
      assert front + both + rest == (front + both + rest[..n]) + [rest[n]];
      assert front + other + rest == (front + other + rest[..n]) + [rest[n]];
      assert front + rest == (front + rest[..n]) + [rest[n]];
    }
  }

  lemma LastOf(front: seq<Packet>, two: seq<Packet>)
    requires |two| == 2 && ((two[0].Tcp? && two[1].IPv4?) || (two[0].IPv4? && two[1].Tcp?))
    ensures LastTcp(front + two) == Some(if two[0].Tcp? then two[0] else two[1])
    ensures LastIPv4(front + two) == Some(if two[0].Tcp? then two[1] else two[0])
  {
    var all := front + two;
    assert all[..|all| - 1] == front + [two[0]] && (front + [two[0]])[..|front|] == front;
  }

  lemma {:induction false} NoneLast(packets: seq<Packet>)
    ensures (forall p | p in packets :: !p.Tcp?) ==> LastTcp(packets) == None
    ensures (forall p | p in packets :: !p.IPv4?) ==> LastIPv4(packets) == None
  {
    if packets != [] {
      var n := |packets| - 1;
      assert packets[n] in packets && forall p | p in packets[..n] :: p in packets;
      NoneLast(packets[..n]);
    }
  }

  lemma OtherLast(packets: seq<Packet>, p: Packet)
    requires p.Other?
    ensures LastTcp(packets + [p]) == LastTcp(packets) && LastIPv4(packets + [p]) == LastIPv4(packets)
  {
    assert (packets + [p])[..|packets|] == packets;
  }

  /** The test qualifies, and none of the fingerprint is heavier. */
  ghost predicate Heaviest(f: TcpFingerprint, q: Query, weight: int) {
    && (exists t :: t in f.testList && t.Qualifies(q) && t.weight == weight)
    && (forall t | t in f.testList && t.Qualifies(q) :: t.weight <= weight)
  }

  lemma {:induction false} HeaviestIsBest(f: TcpFingerprint, q: Query, weight: int)
    requires weight >= 3
    ensures Heaviest(f, q, weight) <==> Best(f.testList, q) == weight
  {
    BestIsGreatest(f.testList, q);
  }

  /** The names that are reported, one fingerprint after the other: of those whose heaviest test has this weight. */
  lemma {:induction false} NamesOf(front: seq<TcpFingerprint>, f: TcpFingerprint, q: Query, weight: int)
    requires weight >= 3
    ensures Names([], q, weight) == []
    ensures Names(front + [f], q, weight)
            == Names(front, q, weight)
               + if !Heaviest(f, q, weight) then []
                 else [if f.os == "" && f.osClass == "" then "TcpFingerprint"
                       else if f.os == "" then f.osClass
                       else if f.osClass == "" then f.os
                       else f.osClass + " - " + f.os]
  {
    HeaviestIsBest(f, q, weight);
    assert (front + [f])[..|front|] == front;
  }

  /**
   What is reported when `weight` is the greatest of all tests that qualify: those names instead of what was
   listed, or behind it when the weight is no more than the least one; and what was listed when none qualifies.
   */
  lemma {:induction false} AnswerMeans(fingerprints: seq<TcpFingerprint>, q: Query, listed: seq<string>, weight: int)
    ensures (exists f :: f in fingerprints && Heaviest(f, q, weight))
            && (forall f, t | f in fingerprints && t in f.testList && t.Qualifies(q) :: t.weight <= weight) ==>
              Answer(fingerprints, Some(q), listed)
              == (if weight == 3 then listed else []) + Names(fingerprints, q, weight)
    ensures (forall f, t | f in fingerprints && t in f.testList :: !t.Qualifies(q)) ==>
              Answer(fingerprints, Some(q), listed) == listed
    ensures Answer(fingerprints, None, listed) == listed
  {
    hide Names, Best, Highest;
    HighestIsGreatest(fingerprints, q);
    HighestFromBelow(fingerprints, q);
    forall f | f in fingerprints
      ensures Best(f.testList, q) != -1 ==>
                exists t :: t in f.testList && t.Qualifies(q) && t.weight == Best(f.testList, q)
      ensures Best(f.testList, q) == -1 || Best(f.testList, q) >= 3
      ensures forall t | t in f.testList && t.Qualifies(q) :: t.weight <= Best(f.testList, q)
    {
      BestIsGreatest(f.testList, q);
    }
  }

  class Fingerprinter {
    const fingerprintList: seq<TcpFingerprint>
    var tcpFlagsFingerprintList: seq<seq<TcpFingerprint?>>

    constructor (fingerprints: seq<TcpFingerprint>)
      requires forall f | f in fingerprints :: f.Valid()
      ensures Valid() && fingerprintList == fingerprints
    {
      fingerprintList := fingerprints;
      tcpFlagsFingerprintList := seq(256, _ => []);
    }

    ghost function Repr(): set<object> {
      set f | f in fingerprintList
    }

    ghost predicate ListsValid()
      reads this
    {
      && |tcpFlagsFingerprintList| == 256
      && forall k: byte :: tcpFlagsFingerprintList[k] == []
                           || tcpFlagsFingerprintList[k] == MarkedFingerprints(Having(fingerprintList, k))
    }

    ghost predicate FingerprintsValid()
      reads Repr()
    {
      forall f | f in fingerprintList :: f.Valid()
    }

    ghost predicate Valid()
      reads this, Repr()
    {
      ListsValid() && FingerprintsValid()
    }

    /** The list for a flag byte is looked up once and then remembered. */
    method FingerprintsFor(flagsRaw: byte) returns (list: seq<TcpFingerprint?>)
      requires Valid()
      modifies this, Repr()
      ensures Valid() && list == MarkedFingerprints(Having(fingerprintList, flagsRaw))
    {
      hide Having, ForFlags;
      if |tcpFlagsFingerprintList[flagsRaw]| == 0 {
        var found := CollectFor(flagsRaw);
        if found == [] {
          found := [null];
        }
        tcpFlagsFingerprintList := tcpFlagsFingerprintList[flagsRaw as int := found];
      }
      list := tcpFlagsFingerprintList[flagsRaw];
    }

    method CollectFor(flagsRaw: byte) returns (found: seq<TcpFingerprint?>)
      requires FingerprintsValid()
      modifies Repr()
      ensures FingerprintsValid() && found == Having(fingerprintList, flagsRaw)
    {
      hide ForFlags;
      found := [];
      for i := 0 to |fingerprintList|
        invariant FingerprintsValid() && found == Having(fingerprintList[..i], flagsRaw)
      {
        ghost var next := fingerprintList[..i + 1];
        assert next[..i] == fingerprintList[..i];
        var contains := fingerprintList[i].ContainsFingerprintsForTcpFlags(flagsRaw);
        if contains {
          found := found + [fingerprintList[i]];
        }
      }
      assert fingerprintList[..|fingerprintList|] == fingerprintList;
    }

    /**
     The operating systems a scan of everything finds, after any earlier queries. Something is reported
     when a fingerprint has tests for the flags and the list is not empty in the end.
     */
    method TryGetOperatingSystems(listed: seq<string>, packetList: seq<Packet>)
      returns (found: bool, osList: seq<string>)
      requires Valid()
      modifies this, Repr()
      ensures Valid() && osList == Answer(fingerprintList, Asked(packetList), listed)
      ensures found <==> osList != [] && Asked(packetList).Some?
                         && Having(fingerprintList, Asked(packetList).value.flagsRaw) != []
    {
      hide Having, Names, Highest, Valid;
      osList, found := listed, false;
      var asked := FindPackets(packetList);
      if asked.Some? {
        var q := asked.value;
        var list := FingerprintsFor(q.flagsRaw);
        ghost var having := Having(fingerprintList, q.flagsRaw);
        HavingSuffices(fingerprintList, q, 3);
        if Highest(fingerprintList, q) >= 3 {
          HavingSuffices(fingerprintList, q, Highest(fingerprintList, q));
        }
        if list[0] != null {
          osList := CollectNames(list, q, listed, having);
          found := osList != [];
        } else {
          assert having == [];
          NothingHighest(q);
        }
      }
    }

    lemma {:induction false} NothingHighest(q: Query)
      ensures Highest([], q) == -1
    {}

    method FindPackets(packetList: seq<Packet>) returns (asked: Option<Query>)
      ensures asked == Asked(packetList)
    {
      var tcpPacket, ipPacket := None, None;
      for i := 0 to |packetList|
        invariant tcpPacket == LastTcp(packetList[..i]) && ipPacket == LastIPv4(packetList[..i])
      {
        ghost var next := packetList[..i + 1];
        assert next[..i] == packetList[..i];
        if packetList[i].Tcp? {
          tcpPacket := Some(packetList[i]);
        } else if packetList[i].IPv4? {
          ipPacket := Some(packetList[i]);
        }
      }
      assert packetList[..|packetList|] == packetList;
      LastKinds(packetList);
      if tcpPacket.None? || ipPacket.None? {
        return None;
      }
      asked := Some(Query(tcpPacket.value.flagsRaw, tcpPacket.value.segment,
                          ipPacket.value.timeToLive, ipPacket.value.packet));
    }

    method CollectNames(list: seq<TcpFingerprint?>, q: Query, listed: seq<string>, ghost having: seq<TcpFingerprint>)
      returns (osList: seq<string>)
      requires Valid() && having == Having(fingerprintList, q.flagsRaw) && list == having
      modifies Repr()
      ensures Valid() && osList == Answer(having, Some(q), listed)
    {
      hide Having, Names, Highest, Best, ListsValid;
      osList := listed;
      var osListWeight := 3;
      HavingAreListed(fingerprintList, q.flagsRaw);
      NoNames(q);
      assert list[..0] == [];
      for i := 0 to |list|
        invariant Valid() && osListWeight == (if Highest(having[..i], q) > 3 then Highest(having[..i], q) else 3)
        invariant osList == Answer(having[..i], Some(q), listed)
      {
        var f := list[i];
        if f == null { continue; }
        ghost var next := having[..i + 1];
        assert next[..i] == having[..i] && next[i] == f;
        AnswerStep(having[..i], f, q, listed, next);
        var w := f.GetHighestMatchWeight(q);
        if w > osListWeight {
          osListWeight := w;
          osList := [];
          osList := osList + [f.ToString()];
        } else if w == osListWeight {
          osList := osList + [f.ToString()];
        }
      }
      assert having[..|list|] == having;
    }
  }

  function MarkedFingerprints(fingerprints: seq<TcpFingerprint>): seq<TcpFingerprint?> {
    if fingerprints == [] then [null] else fingerprints
  }

  lemma {:induction false} HavingAreListed(fingerprints: seq<TcpFingerprint>, flagsRaw: byte)
    ensures forall f | f in Having(fingerprints, flagsRaw) :: f in fingerprints
  {
    hide ForFlags;
    if fingerprints != [] {
      HavingAreListed(fingerprints[..|fingerprints| - 1], flagsRaw);
    }
  }

  lemma {:induction false} NoNames(q: Query)
    ensures Names([], q, 3) == [] && Highest([], q) == -1
  {}

  /** One more fingerprint: a greater weight replaces the list, the same weight extends it. */
  lemma {:induction false} AnswerStep(before: seq<TcpFingerprint>, f: TcpFingerprint, q: Query, listed: seq<string>,
                                      after: seq<TcpFingerprint>)
    requires |after| == |before| + 1 && after[..|before|] == before && after[|before|] == f
    ensures var w, highest := Best(f.testList, q), Highest(before, q);
            var weight := if highest > 3 then highest else 3;
            && Highest(after, q) == (if w > highest then w else highest)
            && Answer(after, Some(q), listed)
               == (if w > weight then [f.ToString()]
                   else if w == weight then Answer(before, Some(q), listed) + [f.ToString()]
                   else Answer(before, Some(q), listed))
  {
    hide Best;
    HighestIsGreatest(before, q);
    var w := Best(f.testList, q);
    var name := [f.ToString()];
    assert Names(after, q, w) == Names(before, q, w) + name;
    assert w > Highest(before, q) ==> Names(before, q, w) == [];
    assert listed + (Names(before, q, 3) + name) == (listed + Names(before, q, 3)) + name;
    assert w != Highest(before, q) ==> Names(after, q, Highest(before, q)) == Names(before, q, Highest(before, q));
  }
}
