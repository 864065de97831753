/**
 Reading DNS messages (sections 4.1.3 and 4.1.4 of RFC 1035): names with compression, resource
 records, and the question and answer sections.
 */
module DnsPacket {
  import opened Bytes
  import opened Sets
  import opened Wrappers

  type Data = seq<byte>

  // ----- Names as they lie in a message

  /** How a name is read: labels, then the root or a pointer; a byte of 64 to 191 reads as an empty label. */
  datatype WireName = Root | Label(text: Data, rest: WireName) | Odd(rest: WireName) | Pointer(target: WireName)

  /** The bytes at `i` read as the name `n`; pointers count from `base`. */
  ghost predicate Encodes(data: Data, base: nat, i: nat, n: WireName)
    decreases n
  {
    i < |data| &&
    match n
    case Root => data[i] == 0
    case Label(text, rest) =>
      && 1 <= |text| <= 63 && data[i] == |text|
      && i + 1 + |text| <= |data| && data[i + 1..i + 1 + |text|] == text
      && Encodes(data, base, i + 1 + |text|, rest)
    case Odd(rest) => 64 <= data[i] < 192 && Encodes(data, base, i + 1, rest)
    case Pointer(target) =>
      && data[i] >= 192 && i + 2 <= |data|
      && Encodes(data, base, base + ToUInt16(data, i) % 0x4000, target)
  }

  function LabelsOf(n: WireName): seq<Data> {
    match n
    case Root => []
    case Label(text, rest) => [text] + LabelsOf(rest)
    case Odd(rest) => [[]] + LabelsOf(rest)
    case Pointer(target) => LabelsOf(target)
  }

  /** What the first byte of a name tells. */
  lemma {:induction false} NameStep(data: Data, base: nat, i: nat, n: WireName)
    requires Encodes(data, base, i, n)
    ensures i < |data| && (data[i] == 0 <==> n.Root?) && (data[i] >= 192 <==> n.Pointer?)
    ensures n.Root? ==> LabelsOf(n) == []
    ensures n.Pointer? ==> i + 2 <= |data| && Encodes(data, base, base + ToUInt16(data, i) % 0x4000, n.target)
                           && LabelsOf(n) == LabelsOf(n.target)
    ensures n.Label? ==> 1 <= data[i] == |n.text| <= 63 && i + 1 + data[i] <= |data|
                         && data[i + 1..i + 1 + data[i]] == n.text
                         && Encodes(data, base, i + 1 + data[i], n.rest) && LabelsOf(n) == [n.text] + LabelsOf(n.rest)
    ensures n.Odd? ==> data[i] > 63 && Encodes(data, base, i + 1, n.rest) && LabelsOf(n) == [[]] + LabelsOf(n.rest)
  {}

  // ----- When reading a name ends

  /** The labels of the name at `i`, given up after `fuel` steps or outside the data. */
  function ReadName(data: Data, base: nat, i: nat, fuel: nat): Option<seq<Data>>
    decreases fuel
  {
    if fuel == 0 || i >= |data| then None
    else if data[i] == 0 then Some([])
    else if data[i] >= 192 then
      if i + 2 > |data| then None else ReadName(data, base, base + ToUInt16(data, i) % 0x4000, fuel - 1)
    else if data[i] > 63 then
      match ReadName(data, base, i + 1, fuel - 1)
      case None => None
      case Some(rest) => Some([[]] + rest)
    else if i + 1 + data[i] > |data| then None
    else
      match ReadName(data, base, i + 1 + data[i], fuel - 1)
      case None => None
      case Some(rest) => Some([data[i + 1..i + 1 + data[i]]] + rest)
  }

  function Steps(n: WireName): nat {
    match n
    case Root => 1
    case Label(_, rest) => 1 + Steps(rest)
    case Odd(rest) => 1 + Steps(rest)
    case Pointer(target) => 1 + Steps(target)
  }

  lemma {:induction false} ReadsEncoded(data: Data, base: nat, i: nat, n: WireName, fuel: nat)
    requires Encodes(data, base, i, n) && fuel >= Steps(n)
    ensures ReadName(data, base, i, fuel) == Some(LabelsOf(n))
    decreases n
  {
    hide Encodes, LabelsOf, ToUInt16;
    NameStep(data, base, i, n);
    match n {
      case Root =>
      case Label(text, rest) => ReadsEncoded(data, base, i + 1 + |text|, rest, fuel - 1);
      case Odd(rest) => ReadsEncoded(data, base, i + 1, rest, fuel - 1);
      case Pointer(target) => ReadsEncoded(data, base, base + ToUInt16(data, i) % 0x4000, target, fuel - 1);
    }
  }

  lemma {:induction false} EncodedIfRead(data: Data, base: nat, i: nat, fuel: nat) returns (n: WireName)
    requires ReadName(data, base, i, fuel).Some?
    ensures Encodes(data, base, i, n)
    decreases fuel
  {
    if data[i] == 0 {
      n := Root;
    } else if data[i] >= 192 {
      var t := EncodedIfRead(data, base, base + ToUInt16(data, i) % 0x4000, fuel - 1);
      n := Pointer(t);
    } else if data[i] > 63 {
      var r := EncodedIfRead(data, base, i + 1, fuel - 1);
      n := Odd(r);
    } else {
      var r := EncodedIfRead(data, base, i + 1 + data[i], fuel - 1);
      n := Label(data[i + 1..i + 1 + data[i]], r);
    }
  }

  /** Reading ends, inside the data, after some number of steps. */
  ghost predicate Terminates(data: Data, base: nat, i: nat) {
    exists fuel :: ReadName(data, base, i, fuel).Some?
  }

  /** Reading ends within as many steps as there are bytes. */
  predicate Readable(data: Data, base: nat, i: nat) {
    ReadName(data, base, i, |data|).Some?
  }

  function NameAt(data: Data, base: nat, i: nat): seq<Data>
    requires Readable(data, base, i)
  {
    ReadName(data, base, i, |data|).value
  }

  /** Bytes read as at most one name. */
  lemma {:induction false} ReadingIsUnique(data: Data, base: nat, i: nat, n: WireName, other: WireName)
    requires Encodes(data, base, i, n) && Encodes(data, base, i, other)
    ensures n == other
    decreases n
  {
    hide Encodes, LabelsOf, ToUInt16;
    NameStep(data, base, i, n);
    NameStep(data, base, i, other);
    match n {
      case Root =>
      case Label(text, rest) => ReadingIsUnique(data, base, i + 1 + |text|, rest, other.rest);
      case Odd(rest) => ReadingIsUnique(data, base, i + 1, rest, other.rest);
      case Pointer(target) => ReadingIsUnique(data, base, base + ToUInt16(data, i) % 0x4000, target, other.target);
    }
  }

  /** The positions at which a step of the reading starts. */
  ghost function Visited(data: Data, base: nat, i: nat, n: WireName): set<nat>
    requires Encodes(data, base, i, n)
    decreases n
  {
    {i} + match n
          case Root => {}
          case Label(text, rest) => Visited(data, base, i + 1 + |text|, rest)
          case Odd(rest) => Visited(data, base, i + 1, rest)
          case Pointer(target) => Visited(data, base, base + ToUInt16(data, i) % 0x4000, target)
  }

  lemma {:induction false} VisitedReads(data: Data, base: nat, i: nat, n: WireName, x: nat) returns (m: WireName)
    requires Encodes(data, base, i, n) && x in Visited(data, base, i, n)
    ensures x < |data| && Encodes(data, base, x, m) && Steps(m) <= Steps(n)
    decreases n
  {
    if x == i {
      m := n;
    } else {
      match n {
        case Label(text, rest) => m := VisitedReads(data, base, i + 1 + |text|, rest, x);
        case Odd(rest) => m := VisitedReads(data, base, i + 1, rest, x);
        case Pointer(target) => m := VisitedReads(data, base, base + ToUInt16(data, i) % 0x4000, target, x);
      }
    }
  }

  /** No position is visited twice: what is read there would contain itself. */
  lemma {:induction false} NotVisitedAgain(data: Data, base: nat, i: nat, n: WireName, j: nat, next: WireName)
    requires Encodes(data, base, i, n) && Encodes(data, base, j, next) && Steps(next) < Steps(n)
    ensures i !in Visited(data, base, j, next)
  {
    hide Encodes, Visited, Steps;
    if i in Visited(data, base, j, next) {
      var m := VisitedReads(data, base, j, next, i);
      ReadingIsUnique(data, base, i, n, m);
    }
  }

  /** What the rest of a name is, and where it lies. */
  ghost function Next(data: Data, base: nat, i: nat, n: WireName): (next: (nat, WireName))
    requires Encodes(data, base, i, n) && !n.Root?
    ensures Encodes(data, base, next.0, next.1) && Steps(n) == 1 + Steps(next.1)
    ensures Visited(data, base, i, n) == {i} + Visited(data, base, next.0, next.1)
  {
    match n
    case Label(text, rest) => (i + 1 + |text|, rest)
    case Odd(rest) => (i + 1, rest)
    case Pointer(target) => (base + ToUInt16(data, i) % 0x4000, target)
  }

  lemma {:induction false} VisitedCount(data: Data, base: nat, i: nat, n: WireName)
    requires Encodes(data, base, i, n)
    ensures |Visited(data, base, i, n)| == Steps(n)
    decreases Steps(n)
  {
    if !n.Root? {
      hide Encodes, Visited, Steps, Next;
      var (j, next) := Next(data, base, i, n);
      NotVisitedAgain(data, base, i, n, j, next);
      VisitedCount(data, base, j, next);
    }
  }

  /** A finite name is read within as many steps as there are bytes. */
  lemma {:induction false} EncodedIsReadable(data: Data, base: nat, i: nat, n: WireName)
    requires Encodes(data, base, i, n)
    ensures Readable(data, base, i) && NameAt(data, base, i) == LabelsOf(n)
  {
    hide Encodes, Visited, ReadName, LabelsOf, Steps;
    var v := Visited(data, base, i, n);
    forall x | x in v ensures x in Below(|data|) {
      var m := VisitedReads(data, base, i, n, x);
    }
    SubsetSize(v, Below(|data|));
    VisitedCount(data, base, i, n);
    ReadsEncoded(data, base, i, n, |data|);
  }

  /** Reading a name ends, if it ever does, within as many steps as there are bytes: this can be checked beforehand. */
  lemma {:induction false} TerminationIff(data: Data, base: nat, i: nat)
    ensures Terminates(data, base, i) <==> Readable(data, base, i)
  {
    if Terminates(data, base, i) {
      var fuel :| ReadName(data, base, i, fuel).Some?;
      var n := EncodedIfRead(data, base, i, fuel);
      EncodedIsReadable(data, base, i, n);
    }
  }

  /** The byte that ends the run of labels at `i`: 0 or a pointer. */
  function RunEnd(data: Data, i: nat): Option<nat>
    decreases |data| - i
  {
    if i >= |data| then None
    else if data[i] == 0 || data[i] >= 192 then Some(i)
    else if data[i] > 63 then RunEnd(data, i + 1)
    else RunEnd(data, i + 1 + data[i])
  }

  /** Every pointer that is reached goes strictly in front of the run of labels that it ends. */
  predicate PointersDescend(data: Data, base: nat, i: nat)
    decreases i
  {
    match RunEnd(data, i)
    case None => false
    case Some(e) =>
      e < |data|
      && (data[e] == 0
          || (e + 2 <= |data|
              && base + ToUInt16(data, e) % 0x4000 < i
              && PointersDescend(data, base, base + ToUInt16(data, e) % 0x4000)))
  }

  lemma {:induction false} RunReads(data: Data, base: nat, i: nat, e: nat, end: WireName) returns (n: WireName)
    requires RunEnd(data, i) == Some(e) && Encodes(data, base, e, end)
    ensures Encodes(data, base, i, n)
    decreases |data| - i
  {
    if data[i] == 0 || data[i] >= 192 {
      n := end;
    } else if data[i] > 63 {
      var rest := RunReads(data, base, i + 1, e, end);
      n := Odd(rest);
    } else {
      var rest := RunReads(data, base, i + 1 + data[i], e, end);
      n := Label(data[i + 1..i + 1 + data[i]], rest);
    }
  }

  lemma {:induction false} RunEndInside(data: Data, i: nat)
    ensures var e := RunEnd(data, i); e.Some? ==> i <= e.value < |data| && (data[e.value] == 0 || data[e.value] >= 192)
    decreases |data| - i
  {
    if i < |data| && 0 < data[i] < 192 {
      RunEndInside(data, if data[i] > 63 then i + 1 else i + 1 + data[i]);
    }
  }

  lemma {:induction false} DescendingReads(data: Data, base: nat, i: nat) returns (n: WireName)
    requires PointersDescend(data, base, i)
    ensures Encodes(data, base, i, n)
    decreases i
  {
    hide RunEnd, ToUInt16;
    var e := RunEnd(data, i).value;
    RunEndInside(data, i);
    var end := Root;
    if data[e] != 0 {
      var target := DescendingReads(data, base, base + ToUInt16(data, e) % 0x4000);
      end := Pointer(target);
    }
    n := RunReads(data, base, i, e, end);
  }

  /** Pointers that go in front of the whole run of labels they end, not only in front of themselves, are enough. */
  lemma {:induction false} DescendingIsEnough(data: Data, base: nat, i: nat)
    requires PointersDescend(data, base, i)
    ensures Readable(data, base, i)
  {
    hide PointersDescend, Encodes, Readable;
    var n := DescendingReads(data, base, i);
    EncodedIsReadable(data, base, i, n);
  }

  /** A header, and a question whose label is followed by a pointer back to it. */
  const LOOPING: Data := [0, 0, 0, 0, 0, 1, 0, 0, 0, 0, 0, 0, 1, 0x61, 0xc0, 12]

  /** The pointer at 14 goes back to 12, and reading the question never ends. */
  lemma {:induction false} BackwardIsNotEnough(fuel: nat)
    ensures ToUInt16(LOOPING, 14) % 0x4000 == HEADER < 14
    ensures ReadName(LOOPING, 0, HEADER, fuel) == None && ReadName(LOOPING, 0, 14, fuel) == None
    decreases fuel
  {
    if fuel > 0 {
      BackwardIsNotEnough(fuel - 1);
    }
  }

  // ----- Reading names

  lemma {:induction false} ReadStep(data: Data, base: nat, i: nat, fuel: nat)
    requires ReadName(data, base, i, fuel).Some?
    ensures fuel > 0 && i < |data|
    ensures data[i] == 0 ==> ReadName(data, base, i, fuel).value == []
    ensures data[i] >= 192 ==>
              i + 2 <= |data|
              && ReadName(data, base, base + ToUInt16(data, i) % 0x4000, fuel - 1) == ReadName(data, base, i, fuel)
    ensures 0 < data[i] < 192 ==>
              var count := if data[i] > 63 then 0 else data[i] as nat;
              && i + 1 + count <= |data|
              && var rest := ReadName(data, base, i + 1 + count, fuel - 1);
                 rest.Some? && ReadName(data, base, i, fuel).value == [data[i + 1..i + 1 + count]] + rest.value
  {
    if 63 < data[i] < 192 {
      assert data[i + 1..i + 1 + 0] == [];
    }
  }

  /** The labels of the name at `base + relativeStart`. */
  method GetNameLabelList(data: Data, base: nat, relativeStart: nat, ghost fuel: nat) returns (list: seq<Data>)
    requires ReadName(data, base, base + relativeStart, fuel).Some?
    ensures list == ReadName(data, base, base + relativeStart, fuel).value
    decreases fuel
  {
    hide ReadName, ToUInt16;
    list := [];
    var currentIndex: nat := base + relativeStart;
    ghost var left: nat := fuel;
    ReadStep(data, base, currentIndex, left);
    while data[currentIndex] != 0
      invariant currentIndex < |data| && left <= fuel && ReadName(data, base, currentIndex, left).Some?
      invariant list + ReadName(data, base, currentIndex, left).value
                == ReadName(data, base, base + relativeStart, fuel).value
      decreases left
    {
      ReadStep(data, base, currentIndex, left);
      if data[currentIndex] >= 192 {
        var offset := ToUInt16(data, currentIndex) % 0x4000;
        var pointerLabels := GetNameLabelList(data, base, offset, left - 1);
        list := list + pointerLabels;
        return;
      }
      var count, text := ReadLabel(data, currentIndex);
      ghost var rest := ReadName(data, base, currentIndex + 1 + count, left - 1).value;
      assert list + ([text] + rest) == (list + [text]) + rest;
      list := list + [text];
      currentIndex := currentIndex + count + 1;
      left := left - 1;
      ReadStep(data, base, currentIndex, left);
    }
    ReadStep(data, base, currentIndex, left);
    assert list + [] == list;
  }

  /** One label: its length byte and text; a length over 63 counts as none. */
  method ReadLabel(data: Data, start: nat) returns (count: nat, text: Data)
    requires start < |data| && (data[start] > 63 || start + 1 + data[start] <= |data|)
    ensures count == if data[start] > 63 then 0 else data[start] as nat
    ensures text == data[start + 1..start + 1 + count]
  {
    count, text := data[start], [];
    if count > 63 {
      count := 0;
    } else {
      for i := 0 to count
        invariant text == data[start + 1..start + 1 + i]
      {
        text := text + [data[start + 1 + i]];
      }
    }
  }

  /** The index behind the name at `i`, found by its length bytes alone. */
  function SkipFrom(data: Data, i: nat): (next: Option<nat>)
    ensures next.Some? ==> i < next.value
    decreases |data| - i
  {
    if i >= |data| then None
    else if data[i] == 0 then Some(i + 1)
    else if data[i] >= 192 then Some(i + 2)
    else SkipFrom(data, i + 1 + data[i])
  }

  method SkipName(data: Data, start: nat) returns (currentIndex: nat)
    requires SkipFrom(data, start).Some?
    ensures SkipFrom(data, start) == Some(currentIndex)
  {
    currentIndex := start;
    while data[currentIndex] != 0 && data[currentIndex] < 192
      invariant currentIndex < |data| && SkipFrom(data, currentIndex) == SkipFrom(data, start)
      decreases |data| - currentIndex
    {
      currentIndex := currentIndex + data[currentIndex] + 1;
    }
    if data[currentIndex] >= 192 {
      currentIndex := currentIndex + 2;
    } else {
      currentIndex := currentIndex + 1;
    }
  }

  // ----- Reading records and messages

  datatype Replied = RawBytes(bytes: Data) | Names(labels: seq<Data>) | Nothing

  /** A decoded record. */
  datatype Record = Record(name: seq<Data>, rtype: nat, class_: nat, ttl: nat, dataLength: nat,
                           replied: Replied, byteCount: nat)

  const HEADER := 12
  const CNAME := 5

  function OperationCode(flags: nat): nat {
    (flags / 2048) % 16
  }

  /** Names are read from the data of CNAME answers to queries, and of all answers to inverse queries. */
  predicate ReadsNames(opcode: nat, rtype: nat) {
    (opcode == 0 && rtype == CNAME) || opcode == 1
  }

  /** What the data of a record is decoded to; None where the source reads outside the captured bytes or forever. */
  function RepliedAt(data: Data, base: nat, at: nat, length: nat, opcode: nat, rtype: nat): Option<Replied> {
    if ReadsNames(opcode, rtype) then
      if Readable(data, base, at) then Some(Names(NameAt(data, base, at))) else None
    else if opcode == 0 then
      if at + length <= |data| then Some(RawBytes(data[at..at + length])) else None
    else Some(Nothing)
  }

  /** The record at `start`, likewise. */
  function RecordAt(data: Data, base: nat, start: nat, opcode: nat): Option<Record> {
    match SkipFrom(data, start)
    case None => None
    case Some(at) =>
      if !Readable(data, base, start) || at + 10 > |data| then None
      else
        var rtype, length := ToUInt16(data, at), ToUInt16(data, at + 8);
        match RepliedAt(data, base, at + 10, length, opcode, rtype)
        case None => None
        case Some(replied) =>
          Some(Record(NameAt(data, base, start), rtype, ToUInt16(data, at + 2), ToUInt32(data, at + 4), length,
                      replied, at + 10 - start + length))
  }

  /** Up to `count` records from `position` on, each where the one before ends, until the data does. */
  function RecordsAt(data: Data, base: nat, position: nat, count: nat, opcode: nat): Option<seq<Record>>
    decreases count
  {
    if count == 0 || position >= |data| then Some([])
    else
      match RecordAt(data, base, position, opcode)
      case None => None
      case Some(r) =>
        match RecordsAt(data, base, position + r.byteCount, count - 1, opcode)
        case None => None
        case Some(rest) => Some([r] + rest)
  }

  /** The bytes of the labels with their length bytes. */
  function LabelBytes(labels: seq<Data>): nat {
    if labels == [] then 0 else |labels[0]| + 1 + LabelBytes(labels[1..])
  }

  /** The question as it is decoded; its type and class are missing when they were not captured. */
  datatype Question = Question(name: seq<Data>, qtype: Option<nat>, qclass: Option<nat>, byteCount: nat)

  const NO_QUESTION := Question([], None, None, 0)

  /** Only the first of several questions is read. */
  function QuestionAt(data: Data, base: nat, count: nat): Option<Question> {
    if count == 0 then Some(NO_QUESTION)
    else if !Readable(data, base, base + HEADER) then None
    else
      var name := NameAt(data, base, base + HEADER);
      var bytes := LabelBytes(name) + 1;
      var at := base + HEADER + bytes;
      if at + 4 <= |data| then
        Some(Question(name, Some(ToUInt16(data, at)), Some(ToUInt16(data, at + 2)), bytes + 4))
      else Some(Question(name, None, None, bytes))
  }

  /** The fields of a decoded message; fewer when the header was cut off or its operation is not decoded. */
  datatype Packet =
    | CutOff
    | HeaderOnly(transactionId: nat, flags: nat)
    | Packet(transactionId: nat, flags: nat, questionCount: nat, answerCount: nat,
             nameServerCount: nat, additionalCount: nat, question: Question, answerRecords: seq<Record>)

  /** The message at `base`; None where the source reads outside the captured bytes or forever. */
  function MessageAt(data: Data, base: nat): Option<Packet> {
    if base + HEADER > |data| then Some(CutOff)
    else
      var id, flags := ToUInt16(data, base), ToUInt16(data, base + 2);
      if OperationCode(flags) >= 5 then Some(HeaderOnly(id, flags))
      else
        var questions, answers := ToUInt16(data, base + 4), ToUInt16(data, base + 6);
        match QuestionAt(data, base, questions)
        case None => None
        case Some(q) =>
          match RecordsAt(data, base, base + HEADER + q.byteCount, answers, OperationCode(flags))
          case None => None
          case Some(records) =>
            Some(Packet(id, flags, questions, answers, ToUInt16(data, base + 8), ToUInt16(data, base + 10), q, records))
  }

  method ReadBytes(data: Data, at: nat, count: nat) returns (bytes: Data)
    requires at + count <= |data|
    ensures bytes == data[at..at + count]
  {
    bytes := [];
    for i := 0 to count
      invariant bytes == data[at..at + i]
    {
      bytes := bytes + [data[at + i]];
    }
  }

  method ReadRecord(data: Data, base: nat, start: nat, opcode: nat) returns (r: Record)
    requires base <= start && RecordAt(data, base, start, opcode).Some?
    ensures RecordAt(data, base, start, opcode) == Some(r)
  {
    hide ReadName, SkipFrom, ToUInt16, ToUInt32;
    var name := GetNameLabelList(data, base, start - base, |data|);
    var currentIndex := SkipName(data, start);
    var rtype := ToUInt16(data, currentIndex);
    var class_ := ToUInt16(data, currentIndex + 2);
    var ttl := ToUInt32(data, currentIndex + 4);
    var dataLength := ToUInt16(data, currentIndex + 8);
    var replied := Nothing;
    if opcode == 0 && rtype != CNAME {
      var bytes := ReadBytes(data, currentIndex + 10, dataLength);
      replied := RawBytes(bytes);
    } else if opcode == 0 && rtype == CNAME {
      var labels := GetNameLabelList(data, base, currentIndex + 10 - base, |data|);
      replied := Names(labels);
    } else if opcode == 1 {
      var labels := GetNameLabelList(data, base, currentIndex + 10 - base, |data|);
      replied := Names(labels);
    }
    r := Record(name, rtype, class_, ttl, dataLength, replied, currentIndex + 10 - start + dataLength);
  }

  method ReadAnswers(data: Data, base: nat, start: nat, count: nat, opcode: nat) returns (records: seq<Record>)
    requires base <= start && RecordsAt(data, base, start, count, opcode).Some?
    ensures RecordsAt(data, base, start, count, opcode) == Some(records)
  {
    hide RecordAt;
    records := [];
    var position: nat := start;
    var i: nat := 0;
    while i < count
      invariant i <= count && base <= position && RecordsAt(data, base, position, count - i, opcode).Some?
      invariant records + RecordsAt(data, base, position, count - i, opcode).value
                == RecordsAt(data, base, start, count, opcode).value
    {
      if position >= |data| { break; }
      var r := ReadRecord(data, base, position, opcode);
      ghost var rest := RecordsAt(data, base, position + r.byteCount, count - i - 1, opcode).value;
      assert records + ([r] + rest) == (records + [r]) + rest;
      records := records + [r];
      position := position + r.byteCount;
      i := i + 1;
    }
    assert records + [] == records;
  }

  method CountLabelBytes(labels: seq<Data>) returns (count: nat)
    ensures count == LabelBytes(labels)
  {
    count := 0;
    for i := 0 to |labels|
      invariant count + LabelBytes(labels[i..]) == LabelBytes(labels)
    {
      assert labels[i..][1..] == labels[i + 1..];
      count := count + |labels[i]| + 1;
    }
  }

  method ReadQuestion(data: Data, base: nat, count: nat) returns (q: Question)
    requires QuestionAt(data, base, count).Some?
    ensures QuestionAt(data, base, count) == Some(q)
  {
    hide ReadName, LabelBytes, ToUInt16;
    if count > 0 {
      var name := GetNameLabelList(data, base, HEADER, |data|);
      var bytes := CountLabelBytes(name);
      bytes := bytes + 1;
      var qtype, qclass := None, None;
      if base + HEADER + bytes + 4 <= |data| {
        qtype := Some(ToUInt16(data, base + HEADER + bytes));
        bytes := bytes + 2;
        qclass := Some(ToUInt16(data, base + HEADER + bytes));
        bytes := bytes + 2;
      }
      q := Question(name, qtype, qclass, bytes);
    } else {
      q := NO_QUESTION;
    }
  }

  /** On any bytes from which the source can read a message, that message. */
  method Parse(data: Data, base: nat) returns (p: Packet)
    requires MessageAt(data, base).Some?
    ensures MessageAt(data, base) == Some(p)
  {
    hide QuestionAt, RecordsAt, ToUInt16;
    if base + HEADER > |data| {
      return CutOff;
    }
    var id := ToUInt16(data, base);
    var flags := ToUInt16(data, base + 2);
    if OperationCode(flags) >= 5 {
      return HeaderOnly(id, flags);
    }
    var questionCount := ToUInt16(data, base + 4);
    var answerCount := ToUInt16(data, base + 6);
    var nameServerCount := ToUInt16(data, base + 8);
    var additionalCount := ToUInt16(data, base + 10);
    var q := ReadQuestion(data, base, questionCount);
    var records := ReadAnswers(data, base, base + HEADER + q.byteCount, answerCount, OperationCode(flags));
    p := Packet(id, flags, questionCount, answerCount, nameServerCount, additionalCount, q, records);
  }

  // ----- Messages and their encoding

  /** A compression pointer, and the name it is meant to be read as. */
  datatype PointerTo = PointerTo(offset: nat, target: WireName)

  /** A name as it is sent: labels, then the root or a pointer. */
  datatype Name = Name(labels: seq<Data>, pointer: Option<PointerTo>)

  datatype RData = Raw(bytes: Data) | Alias(name: Name)

  datatype Answer = Answer(name: Name, rtype: nat, class_: nat, ttl: nat, rdata: RData)

  datatype Asked = Asked(name: seq<Data>, qtype: nat, qclass: nat)

  /** `rest` is the bits behind the operation code, with the response code. */
  datatype Message = Message(id: nat, response: bool, opcode: nat, rest: nat, question: Option<Asked>,
                             answers: seq<Answer>, nameServers: nat, additional: nat)

  predicate GoodLabels(labels: seq<Data>) {
    forall l | l in labels :: 1 <= |l| <= 63
  }

  function EncodeLabels(labels: seq<Data>): Data
    requires GoodLabels(labels)
  {
    if labels == [] then []
    else
      assert labels[0] in labels;
      [|labels[0]|] + labels[0] + EncodeLabels(labels[1..])
  }

  predicate GoodName(n: Name) {
    GoodLabels(n.labels) && (n.pointer.Some? ==> n.pointer.value.offset < 0x4000)
  }

  function EncodeEnd(pointer: Option<PointerTo>): Data
    requires pointer.Some? ==> pointer.value.offset < 0x4000
  {
    match pointer
    case None => [0]
    case Some(p) => [192 + p.offset / 256, p.offset % 256]
  }

  function EncodeName(n: Name): (d: Data)
    requires GoodName(n)
    ensures d != []
  {
    EncodeLabels(n.labels) + EncodeEnd(n.pointer)
  }

  predicate GoodRData(r: RData) {
    match r
    case Raw(bytes) => |bytes| < 0x1_0000
    case Alias(name) => GoodName(name) && |EncodeName(name)| < 0x1_0000
  }

  function EncodeRData(r: RData): (d: Data)
    requires GoodRData(r)
    ensures |d| < 0x1_0000
  {
    match r
    case Raw(bytes) => bytes
    case Alias(name) => EncodeName(name)
  }

  predicate GoodAnswer(a: Answer) {
    GoodName(a.name) && GoodRData(a.rdata) && a.rtype < 0x1_0000 && a.class_ < 0x1_0000 && a.ttl < 0x1_0000_0000
  }

  function EncodeFields(a: Answer): (d: Data)
    requires GoodAnswer(a)
    ensures |d| == 10
  {
    FromUInt16(a.rtype) + FromUInt16(a.class_) + FromUInt32(a.ttl) + FromUInt16(|EncodeRData(a.rdata)|)
  }

  /** Everything in front of the data of the answer. */
  function EncodeFront(a: Answer): (d: Data)
    requires GoodAnswer(a)
    ensures |d| == |EncodeName(a.name)| + 10
  {
    EncodeName(a.name) + EncodeFields(a)
  }

  function EncodeAnswer(a: Answer): (d: Data)
    requires GoodAnswer(a)
    ensures |d| == |EncodeName(a.name)| + 10 + |EncodeRData(a.rdata)|
  {
    EncodeFront(a) + EncodeRData(a.rdata)
  }

  predicate GoodAnswers(answers: seq<Answer>) {
    forall a | a in answers :: GoodAnswer(a)
  }

  function EncodeAnswers(answers: seq<Answer>): Data
    requires GoodAnswers(answers)
  {
    if answers == [] then []
    else
      assert answers[0] in answers;
      EncodeAnswer(answers[0]) + EncodeAnswers(answers[1..])
  }

  predicate GoodMessage(m: Message) {
    && m.id < 0x1_0000 && m.opcode < 16 && m.rest < 0x800
    && m.nameServers < 0x1_0000 && m.additional < 0x1_0000 && |m.answers| < 0x1_0000
    && (m.question.Some? ==> GoodAsked(m.question.value)) && GoodAnswers(m.answers)
  }

  predicate GoodAsked(q: Asked) {
    q.qtype < 0x1_0000 && q.qclass < 0x1_0000 && GoodLabels(q.name)
  }

  function Flags(m: Message): (flags: nat)
    requires GoodMessage(m)
    ensures flags < 0x1_0000
  {
    (if m.response then 0x8000 else 0) + m.opcode * 0x800 + m.rest
  }

  function QuestionCount(m: Message): nat {
    if m.question.Some? then 1 else 0
  }

  function EncodeHeader(m: Message): (d: Data)
    requires GoodMessage(m)
    ensures |d| == HEADER
  {
    FromUInt16(m.id) + FromUInt16(Flags(m)) + FromUInt16(QuestionCount(m)) + FromUInt16(|m.answers|)
    + FromUInt16(m.nameServers) + FromUInt16(m.additional)
  }

  function EncodeAsked(q: Asked): Data
    requires GoodAsked(q)
  {
    EncodeName(Name(q.name, None)) + (FromUInt16(q.qtype) + FromUInt16(q.qclass))
  }

  function EncodeQuestion(m: Message): Data
    requires GoodMessage(m)
  {
    match m.question
    case None => []
    case Some(q) => EncodeAsked(q)
  }

  /** Header and question. */
  function EncodeStart(m: Message): Data
    requires GoodMessage(m)
  {
    EncodeHeader(m) + EncodeQuestion(m)
  }

  function Encode(m: Message): Data
    requires GoodMessage(m)
  {
    EncodeStart(m) + EncodeAnswers(m.answers)
  }

  // ----- What a message means

  /**
   A pointer goes back to any offset of the bytes sent so far that read as a name there: in an earlier
   name, in the data of an earlier answer, anywhere.
   */
  ghost predicate Resolves(n: Name, sent: Data) {
    n.pointer.Some? ==> Encodes(sent, 0, n.pointer.value.offset, n.pointer.value.target)
  }

  function Meaning(n: Name): seq<Data> {
    n.labels + if n.pointer.Some? then LabelsOf(n.pointer.value.target) else []
  }

  /** Answers of type 5 to queries (operation 0) hold a name, and so do all answers to inverse queries (1). */
  predicate HoldsName(opcode: nat, rtype: nat) {
    (opcode == 0 && rtype == 5) || opcode == 1
  }

  ghost predicate ResolvesAnswer(a: Answer, sent: Data, opcode: nat)
    requires GoodAnswer(a)
  {
    && Resolves(a.name, sent)
    && (HoldsName(opcode, a.rtype) ==> a.rdata.Alias? && Resolves(a.rdata.name, sent + EncodeFront(a)))
  }

  function AnswerMeaning(a: Answer, opcode: nat): Record
    requires GoodAnswer(a) && (HoldsName(opcode, a.rtype) ==> a.rdata.Alias?)
  {
    Record(Meaning(a.name), a.rtype, a.class_, a.ttl, |EncodeRData(a.rdata)|,
           if HoldsName(opcode, a.rtype) then Names(Meaning(a.rdata.name))
           else if opcode == 0 then RawBytes(EncodeRData(a.rdata))
           else Nothing,
           |EncodeAnswer(a)|)
  }

  ghost predicate ResolvesAnswers(answers: seq<Answer>, sent: Data, opcode: nat)
    requires GoodAnswers(answers)
    decreases |answers|
  {
    answers == []
    || (assert answers[0] in answers;
        && ResolvesAnswer(answers[0], sent, opcode)
        && ResolvesAnswers(answers[1..], sent + EncodeAnswer(answers[0]), opcode))
  }

  ghost function AnswersMeaning(answers: seq<Answer>, sent: Data, opcode: nat): seq<Record>
    requires GoodAnswers(answers) && ResolvesAnswers(answers, sent, opcode)
    decreases |answers|
  {
    if answers == [] then []
    else
      assert answers[0] in answers;
      [AnswerMeaning(answers[0], opcode)] + AnswersMeaning(answers[1..], sent + EncodeAnswer(answers[0]), opcode)
  }

  /** A message whose operation is decoded, and whose pointers go back to names. */
  ghost predicate WellFormed(m: Message) {
    GoodMessage(m) && m.opcode < 5
    && ResolvesAnswers(m.answers, EncodeStart(m), m.opcode)
  }

  ghost function Decoded(m: Message): Packet
    requires WellFormed(m)
  {
    Packet(m.id, Flags(m), QuestionCount(m), |m.answers|, m.nameServers, m.additional,
           match m.question
           case None => Question([], None, None, 0)
           case Some(q) => Question(q.name, Some(q.qtype), Some(q.qclass), |EncodeAsked(q)|),
           AnswersMeaning(m.answers, EncodeStart(m), m.opcode))
  }

  // ----- Encoded names are read as they are meant

  /** A name that lies in some bytes lies in all data that holds them. */
  lemma {:induction false} EncodesInside(sent: Data, i: nat, n: WireName, data: Data, base: nat)
    requires Encodes(sent, 0, i, n) && Holds(data, base, sent)
    ensures Encodes(data, base, base + i, n)
    decreases n
  {
    hide Encodes, Holds, ToUInt16, LabelsOf;
    NameStep(sent, 0, i, n);
    ByteInside(data, base, sent, i);
    match n {
      case Root =>
      case Label(text, rest) =>
        EncodesInside(sent, i + 1 + |text|, rest, data, base);
        SliceInside(data, base, sent, i + 1, i + 1 + |text|);
      case Odd(rest) => EncodesInside(sent, i + 1, rest, data, base);
      case Pointer(target) =>
        UInt16Inside(data, base, sent, i);
        EncodesInside(sent, ToUInt16(sent, i) % 0x4000, target, data, base);
    }
    NameBuild(data, base, base + i, n);
  }

  lemma {:induction false} UInt16Inside(data: Data, base: nat, sent: Data, i: nat)
    requires Holds(data, base, sent) && i + 2 <= |sent|
    ensures base + |sent| <= |data| && ToUInt16(data, base + i) == ToUInt16(sent, i)
  {
    hide Holds;
    ByteInside(data, base, sent, i);
    ByteInside(data, base, sent, i + 1);
  }

  /** What the first byte of a name must be, and what must follow. */
  lemma {:induction false} NameBuild(data: Data, base: nat, i: nat, n: WireName)
    requires i < |data|
    requires match n
             case Root => data[i] == 0
             case Label(text, rest) =>
               && 1 <= |text| <= 63 && data[i] == |text|
               && i + 1 + |text| <= |data| && data[i + 1..i + 1 + |text|] == text
               && Encodes(data, base, i + 1 + |text|, rest)
             case Odd(rest) => 64 <= data[i] < 192 && Encodes(data, base, i + 1, rest)
             case Pointer(target) =>
               && data[i] >= 192 && i + 2 <= |data|
               && Encodes(data, base, base + ToUInt16(data, i) % 0x4000, target)
    ensures Encodes(data, base, i, n)
  {}

  function Wire(labels: seq<Data>, end: WireName): WireName {
    if labels == [] then end else Label(labels[0], Wire(labels[1..], end))
  }

  /** The name as it lies in the message. */
  function WireOf(n: Name): WireName {
    Wire(n.labels, if n.pointer.Some? then Pointer(n.pointer.value.target) else Root)
  }

  lemma {:induction false} LabelsOfWire(labels: seq<Data>, end: WireName)
    ensures LabelsOf(Wire(labels, end)) == labels + LabelsOf(end)
  {
    if labels != [] {
      LabelsOfWire(labels[1..], end);
      assert labels + LabelsOf(end) == [labels[0]] + (labels[1..] + LabelsOf(end));
    }
  }

  lemma {:induction false} LabelHeld(data: Data, at: nat, text: Data, rest: Data)
    requires |text| < 256 && Holds(data, at, [|text|] + (text + rest))
    ensures at + 1 + |text| <= |data| && data[at] == |text| && data[at + 1..at + 1 + |text|] == text
    ensures Holds(data, at + 1 + |text|, rest)
  {
    HoldsParts(data, at, [|text|], text + rest);
    HoldsParts(data, at + 1, text, rest);
    assert data[at..at + 1][0] == data[at];
  }

  lemma {:induction false} WireEncodes(data: Data, base: nat, at: nat, labels: seq<Data>, end: WireName, last: Data)
    requires GoodLabels(labels) && Holds(data, at, EncodeLabels(labels) + last)
    requires Encodes(data, base, at + |EncodeLabels(labels)|, end)
    ensures Encodes(data, base, at, Wire(labels, end))
    decreases |labels|
  {
    hide Holds, Encodes;
    if labels != [] {
      assert labels[0] in labels;
      var rest := EncodeLabels(labels[1..]) + last;
      assert EncodeLabels(labels) + last == [|labels[0]|] + (labels[0] + rest);
      LabelHeld(data, at, labels[0], rest);
      WireEncodes(data, base, at + 1 + |labels[0]|, labels[1..], end, last);
      NameBuild(data, base, at, Wire(labels, end));
    }
  }

  lemma {:induction false} EndEncodes(data: Data, base: nat, at: nat, pointer: Option<PointerTo>, sent: Data)
    requires pointer.Some? ==> pointer.value.offset < 0x4000
                               && Encodes(sent, 0, pointer.value.offset, pointer.value.target)
    requires Holds(data, base, sent) && Holds(data, at, EncodeEnd(pointer))
    ensures Encodes(data, base, at, if pointer.Some? then Pointer(pointer.value.target) else Root)
  {
    hide Encodes, Holds;
    ByteInside(data, at, EncodeEnd(pointer), 0);
    match pointer {
      case None => NameBuild(data, base, at, Root);
      case Some(p) =>
        ByteInside(data, at, EncodeEnd(pointer), 1);
        EncodesInside(sent, p.offset, p.target, data, base);
        assert ToUInt16(data, at) % 0x4000 == p.offset;
        NameBuild(data, base, at, Pointer(p.target));
    }
  }

  /** A name whose pointer goes back into what was sent before lies in the data with its meaning. */
  lemma {:induction false} NameReads(data: Data, base: nat, n: Name, sent: Data)
    requires GoodName(n) && Resolves(n, sent) && Holds(data, base, sent)
    requires Holds(data, base + |sent|, EncodeName(n))
    ensures Encodes(data, base, base + |sent|, WireOf(n)) && LabelsOf(WireOf(n)) == Meaning(n)
  {
    hide Holds, Encodes, LabelsOf, EncodeLabels, EncodeEnd, Wire;
    var at := base + |sent|;
    var labels := EncodeLabels(n.labels);
    var end := if n.pointer.Some? then Pointer(n.pointer.value.target) else Root;
    HoldsParts(data, at, labels, EncodeEnd(n.pointer));
    EndEncodes(data, base, at + |labels|, n.pointer, sent);
    WireEncodes(data, base, at, n.labels, end, EncodeEnd(n.pointer));
    LabelsOfWire(n.labels, end);
    LabelsOfEnd(n);
  }

  lemma {:induction false} LabelsOfEnd(n: Name)
    ensures LabelsOf(Root) == []
    ensures n.pointer.Some? ==> LabelsOf(Pointer(n.pointer.value.target)) == LabelsOf(n.pointer.value.target)
  {}

  // ----- Records and messages are read as they are meant

  /** The byte a name starts with tells its length, or that it ends here. */
  ghost predicate NameStart(data: Data, at: nat, n: Name)
    requires GoodName(n)
  {
    && at < |data|
    && if n.labels == [] then
         if n.pointer.Some? then data[at] >= 192 && |EncodeName(n)| == 2 else data[at] == 0 && |EncodeName(n)| == 1
       else
         var rest := n.(labels := n.labels[1..]);
         && 0 < data[at] < 192 && GoodName(rest)
         && |EncodeName(n)| == data[at] + 1 + |EncodeName(rest)|
         && Holds(data, at + data[at] + 1, EncodeName(rest))
  }

  lemma {:induction false} NameStarts(data: Data, at: nat, n: Name)
    requires GoodName(n) && Holds(data, at, EncodeName(n))
    ensures NameStart(data, at, n)
  {
    hide Holds;
    ByteInside(data, at, EncodeName(n), 0);
    if n.labels != [] {
      var first := n.labels[0];
      assert first in n.labels;
      var rest := n.(labels := n.labels[1..]);
      assert EncodeName(n) == ([|first|] + first) + EncodeName(rest);
      HoldsParts(data, at, [|first|] + first, EncodeName(rest));
    }
  }

  lemma {:induction false} SkipsEncoded(data: Data, at: nat, n: Name)
    requires GoodName(n) && Holds(data, at, EncodeName(n))
    ensures SkipFrom(data, at) == Some(at + |EncodeName(n)|)
    decreases |n.labels|
  {
    hide EncodeName, Holds;
    NameStarts(data, at, n);
    if n.labels != [] {
      SkipsEncoded(data, at + data[at] + 1, n.(labels := n.labels[1..]));
    }
  }

  lemma {:induction false} ReadsFields(data: Data, at: nat, a: Answer)
    requires GoodAnswer(a) && Holds(data, at, EncodeFields(a))
    ensures at + 10 <= |data|
    ensures ToUInt16(data, at) == a.rtype && ToUInt16(data, at + 2) == a.class_
    ensures ToUInt32(data, at + 4) == a.ttl && ToUInt16(data, at + 8) == |EncodeRData(a.rdata)|
  {
    hide Holds, EncodeRData, FromUInt16, FromUInt32, ToUInt16, ToUInt32;
    ByteInside(data, at, EncodeFields(a), 9);
    var f0, f1, f2 := FromUInt16(a.rtype), FromUInt16(a.class_), FromUInt32(a.ttl);
    var f3 := FromUInt16(|EncodeRData(a.rdata)|);
    HoldsParts(data, at, f0 + f1 + f2, f3);
    HoldsParts(data, at, f0 + f1, f2);
    HoldsParts(data, at, f0, f1);
    ReadsUInt16(data, at, a.rtype);
    ReadsUInt16(data, at + 2, a.class_);
    ReadsUInt32(data, at + 4, a.ttl);
    ReadsUInt16(data, at + 8, |EncodeRData(a.rdata)|);
  }

  /** Where the parts of an encoded answer lie, and what its names read as. */
  lemma {:induction false} AnswerReads(data: Data, base: nat, a: Answer, sent: Data, opcode: nat)
    requires GoodAnswer(a) && ResolvesAnswer(a, sent, opcode)
    requires Holds(data, base, sent) && Holds(data, base + |sent|, EncodeAnswer(a))
    ensures var at := base + |sent|;
            var rdataAt := at + |EncodeName(a.name)| + 10;
            && Holds(data, at, EncodeName(a.name)) && Holds(data, at + |EncodeName(a.name)|, EncodeFields(a))
            && Holds(data, rdataAt, EncodeRData(a.rdata))
            && Encodes(data, base, at, WireOf(a.name)) && LabelsOf(WireOf(a.name)) == Meaning(a.name)
            && (HoldsName(opcode, a.rtype) ==>
                  && Encodes(data, base, rdataAt, WireOf(a.rdata.name))
                  && LabelsOf(WireOf(a.rdata.name)) == Meaning(a.rdata.name))
  {
    hide Holds, Encodes, Resolves, LabelsOf, EncodeName, Meaning, EncodeFields, WireOf, HoldsName;
    var at := base + |sent|;
    HoldsParts(data, at, EncodeFront(a), EncodeRData(a.rdata));
    HoldsParts(data, at, EncodeName(a.name), EncodeFields(a));
    NameReads(data, base, a.name, sent);
    if HoldsName(opcode, a.rtype) {
      HoldsBoth(data, base, sent, EncodeFront(a));
      NameReads(data, base, a.rdata.name, sent + EncodeFront(a));
    }
  }

  /** An answer written behind what was sent before is decoded to what it means. */
  lemma {:induction false} RecordReads(data: Data, base: nat, a: Answer, sent: Data, opcode: nat)
    requires GoodAnswer(a) && ResolvesAnswer(a, sent, opcode)
    requires Holds(data, base, sent) && Holds(data, base + |sent|, EncodeAnswer(a))
    ensures RecordAt(data, base, base + |sent|, opcode) == Some(AnswerMeaning(a, opcode))
  {
    hide Encodes, Meaning, LabelsOf, EncodeName, EncodeFields, Holds, ToUInt16, ToUInt32, WireOf, Resolves, Readable,
         NameAt, SkipFrom;
    var start := base + |sent|;
    AnswerReads(data, base, a, sent, opcode);
    EncodedIsReadable(data, base, start, WireOf(a.name));
    SkipsEncoded(data, start, a.name);
    var at := start + |EncodeName(a.name)|;
    ReadsFields(data, at, a);
    if HoldsName(opcode, a.rtype) {
      EncodedIsReadable(data, base, at + 10, WireOf(a.rdata.name));
    } else {
      HeldBytes(data, at + 10, EncodeRData(a.rdata));
    }
  }

  lemma {:induction false} ReadsHeader(data: Data, base: nat, m: Message)
    requires GoodMessage(m) && Holds(data, base, EncodeHeader(m))
    ensures base + 12 <= |data|
    ensures ToUInt16(data, base) == m.id && ToUInt16(data, base + 2) == Flags(m)
    ensures ToUInt16(data, base + 4) == QuestionCount(m) && ToUInt16(data, base + 6) == |m.answers|
    ensures ToUInt16(data, base + 8) == m.nameServers && ToUInt16(data, base + 10) == m.additional
  {
    hide ToUInt16, FromUInt16, Holds, Flags;
    var f0, f1, f2 := FromUInt16(m.id), FromUInt16(Flags(m)), FromUInt16(QuestionCount(m));
    var f3, f4, f5 := FromUInt16(|m.answers|), FromUInt16(m.nameServers), FromUInt16(m.additional);
    ByteInside(data, base, EncodeHeader(m), 0);
    HoldsParts(data, base, f0 + f1 + f2 + f3 + f4, f5);
    HoldsParts(data, base, f0 + f1 + f2 + f3, f4);
    HoldsParts(data, base, f0 + f1 + f2, f3);
    HoldsParts(data, base, f0 + f1, f2);
    HoldsParts(data, base, f0, f1);
    ReadsUInt16(data, base, m.id);
    ReadsUInt16(data, base + 2, Flags(m));
    ReadsUInt16(data, base + 4, QuestionCount(m));
    ReadsUInt16(data, base + 6, |m.answers|);
    ReadsUInt16(data, base + 8, m.nameServers);
    ReadsUInt16(data, base + 10, m.additional);
  }

  lemma {:induction false} OpcodeRead(m: Message)
    requires GoodMessage(m)
    ensures OperationCode(Flags(m)) == m.opcode
  {}

  lemma {:induction false} LabelBytesEncoded(labels: seq<Data>)
    requires GoodLabels(labels)
    ensures LabelBytes(labels) == |EncodeLabels(labels)|
  {
    if labels != [] {
      LabelBytesEncoded(labels[1..]);
    }
  }

  /** Where the parts of a message lie. */
  lemma {:induction false} MessageParts(data: Data, base: nat, m: Message)
    requires GoodMessage(m) && Holds(data, base, Encode(m))
    ensures Holds(data, base, EncodeHeader(m)) && Holds(data, base + 12, EncodeQuestion(m))
    ensures Holds(data, base, EncodeStart(m)) && Holds(data, base + |EncodeStart(m)|, EncodeAnswers(m.answers))
    ensures base + |EncodeStart(m)| <= |data| && |EncodeStart(m)| == 12 + |EncodeQuestion(m)|
  {
    hide Holds, EncodeHeader, EncodeQuestion, EncodeAnswers, GoodAnswers, GoodLabels;
    HoldsParts(data, base, EncodeStart(m), EncodeAnswers(m.answers));
    HoldsParts(data, base, EncodeHeader(m), EncodeQuestion(m));
    ByteInside(data, base, EncodeStart(m), |EncodeStart(m)| - 1);
  }

  lemma {:induction false} AskedLength(q: Asked)
    requires GoodAsked(q)
    ensures |EncodeAsked(q)| == LabelBytes(q.name) + 5 == |EncodeName(Name(q.name, None))| + 4
  {
    LabelBytesEncoded(q.name);
  }

  /** What the first of any number of questions reads as; type and class only if they were captured. */
  lemma {:induction false} AskedReads(data: Data, base: nat, count: nat, q: Asked, sent: Data)
    requires GoodAsked(q) && Holds(data, base, sent) && |sent| == 12 && count > 0
    requires Holds(data, base + 12, EncodeName(Name(q.name, None)))
    ensures var n := |EncodeName(Name(q.name, None))|;
            && (Holds(data, base + 12, EncodeAsked(q)) ==>
                  QuestionAt(data, base, count) == Some(Question(q.name, Some(q.qtype), Some(q.qclass), n + 4)))
            && (|data| < base + 12 + n + 4 ==> QuestionAt(data, base, count) == Some(Question(q.name, None, None, n)))
  {
    hide EncodeName, FromUInt16, ToUInt16, Holds, Readable, NameAt, LabelBytes;
    var n := EncodeName(Name(q.name, None));
    var t, c := FromUInt16(q.qtype), FromUInt16(q.qclass);
    AskedName(data, base, q, sent);
    if Holds(data, base + 12, EncodeAsked(q)) {
      HeldBytes(data, base + 12, EncodeAsked(q));
      HoldsParts(data, base + 12, n, t + c);
      HoldsParts(data, base + 12 + |n|, t, c);
      ReadsUInt16(data, base + 12 + |n|, q.qtype);
      ReadsUInt16(data, base + 12 + |n| + 2, q.qclass);
    }
  }

  lemma {:induction false} AskedName(data: Data, base: nat, q: Asked, sent: Data)
    requires GoodAsked(q) && Holds(data, base, sent) && |sent| == 12
    requires Holds(data, base + 12, EncodeName(Name(q.name, None)))
    ensures Readable(data, base, base + 12) && NameAt(data, base, base + 12) == q.name
    ensures LabelBytes(q.name) + 1 == |EncodeName(Name(q.name, None))|
  {
    hide Encodes, LabelsOf, EncodeName, EncodeLabels, Holds, WireOf, Readable, NameAt, LabelBytes;
    var name := Name(q.name, None);
    AskedLength(q);
    NameReads(data, base, name, sent);
    assert Meaning(name) == q.name;
    EncodedIsReadable(data, base, base + 12, WireOf(name));
  }

  /** The first of the answers, and the rest. */
  lemma {:induction false} FirstAnswer(answers: seq<Answer>, sent: Data, opcode: nat)
    requires GoodAnswers(answers) && ResolvesAnswers(answers, sent, opcode) && answers != []
    ensures GoodAnswer(answers[0]) && GoodAnswers(answers[1..]) && ResolvesAnswer(answers[0], sent, opcode)
    ensures ResolvesAnswers(answers[1..], sent + EncodeAnswer(answers[0]), opcode)
    ensures AnswersMeaning(answers, sent, opcode)
            == [AnswerMeaning(answers[0], opcode)]
               + AnswersMeaning(answers[1..], sent + EncodeAnswer(answers[0]), opcode)
    ensures EncodeAnswers(answers) == EncodeAnswer(answers[0]) + EncodeAnswers(answers[1..])
    ensures AnswerMeaning(answers[0], opcode).byteCount == |EncodeAnswer(answers[0])| > 0
  {
    hide EncodeAnswer, ResolvesAnswer, Meaning, EncodeName, EncodeRData;
    assert answers[0] in answers;
  }

  lemma {:induction false} NoAnswers(sent: Data, opcode: nat)
    ensures AnswersMeaning([], sent, opcode) == [] && EncodeAnswers([]) == []
  {}

  lemma {:induction false} NextAnswer(data: Data, base: nat, sent: Data, first: Data, rest: Data)
    requires Holds(data, base, sent) && Holds(data, base + |sent|, first + rest) && first != []
    ensures Holds(data, base + |sent|, first) && base + |sent| < |data|
    ensures Holds(data, base, sent + first) && Holds(data, base + |sent + first|, rest)
  {
    HoldsParts(data, base + |sent|, first, rest);
    HoldsBoth(data, base, sent, first);
  }

  /** So are all answers, each where the one before ends. */
  lemma {:induction false} RecordsRead(data: Data, base: nat, answers: seq<Answer>, sent: Data, opcode: nat)
    requires GoodAnswers(answers) && ResolvesAnswers(answers, sent, opcode)
    requires Holds(data, base, sent) && Holds(data, base + |sent|, EncodeAnswers(answers))
    ensures RecordsAt(data, base, base + |sent|, |answers|, opcode) == Some(AnswersMeaning(answers, sent, opcode))
    decreases |answers|
  {
    hide AnswerMeaning, AnswersMeaning, EncodeAnswer, EncodeAnswers, Holds, ResolvesAnswer, ResolvesAnswers,
         GoodAnswer, GoodAnswers, RecordAt;
    if answers == [] {
      NoAnswers(sent, opcode);
    } else {
      FirstAnswer(answers, sent, opcode);
      var a := answers[0];
      NextAnswer(data, base, sent, EncodeAnswer(a), EncodeAnswers(answers[1..]));
      RecordReads(data, base, a, sent, opcode);
      RecordsRead(data, base, answers[1..], sent + EncodeAnswer(a), opcode);
    }
  }

  /** A message sent with compressed names is decoded to what it means, wherever it lies, with a question or without. */
  lemma {:induction false} RoundTrip(data: Data, base: nat, m: Message)
    requires WellFormed(m) && Holds(data, base, Encode(m))
    ensures MessageAt(data, base) == Some(Decoded(m))
  {
    hide Encodes, Holds, Encode, EncodeStart, EncodeHeader, EncodeAsked, EncodeAnswers, AnswersMeaning, OperationCode,
         Flags, ResolvesAnswers, ToUInt16, GoodAnswers, GoodAsked, RecordsAt, QuestionAt;
    MessageParts(data, base, m);
    ReadsHeader(data, base, m);
    OpcodeRead(m);
    match m.question {
      case None => NothingAsked(data, base);
      case Some(q) =>
        NameOfAsked(data, base + 12, q);
        AskedReads(data, base, 1, q, EncodeHeader(m));
    }
    RecordsRead(data, base, m.answers, EncodeStart(m), m.opcode);
  }

  lemma NameOfAsked(data: Data, at: nat, q: Asked)
    requires GoodAsked(q) && Holds(data, at, EncodeAsked(q))
    ensures Holds(data, at, EncodeName(Name(q.name, None))) && |EncodeAsked(q)| == |EncodeName(Name(q.name, None))| + 4
  {
    hide Holds, EncodeName;
    HoldsParts(data, at, EncodeName(Name(q.name, None)), FromUInt16(q.qtype) + FromUInt16(q.qclass));
  }

  lemma NothingAsked(data: Data, base: nat)
    ensures QuestionAt(data, base, 0) == Some(Question([], None, None, 0))
  {}

  /** Of a message with another operation only the first two fields are decoded, and of less than a header nothing. */
  lemma {:induction false} OthersNotDecoded(data: Data, base: nat, m: Message)
    requires GoodMessage(m) && m.opcode >= 5
    ensures Holds(data, base, EncodeHeader(m)) ==> MessageAt(data, base) == Some(HeaderOnly(m.id, Flags(m)))
    ensures |data| < base + 12 ==> MessageAt(data, base) == Some(CutOff)
  {
    hide Holds, EncodeHeader, OperationCode, Flags, ToUInt16, RecordsAt, QuestionAt;
    if Holds(data, base, EncodeHeader(m)) {
      ReadsHeader(data, base, m);
      OpcodeRead(m);
    }
  }

  function ByteCounts(records: seq<Record>): nat {
    if records == [] then 0 else records[0].byteCount + ByteCounts(records[1..])
  }

  /** The records lie end to end and fill the answer section. */
  lemma {:induction false} RecordsTile(answers: seq<Answer>, sent: Data, opcode: nat)
    requires GoodAnswers(answers) && ResolvesAnswers(answers, sent, opcode)
    ensures ByteCounts(AnswersMeaning(answers, sent, opcode)) == |EncodeAnswers(answers)|
    decreases |answers|
  {
    hide GoodAnswers, EncodeAnswer, EncodeAnswers, AnswerMeaning, AnswersMeaning, ResolvesAnswers;
    if answers == [] {
      NoAnswers(sent, opcode);
    } else {
      FirstAnswer(answers, sent, opcode);
      RecordsTile(answers[1..], sent + EncodeAnswer(answers[0]), opcode);
    }
  }

  // ----- Compression

  /** The names that can be pointed to, by their offsets. */
  type Table = map<nat, WireName>

  /** What every part of a name that starts at `at` reads as: from each of its labels on, and from its end. */
  function Suffixes(at: nat, labels: seq<Data>, end: WireName): Table
    decreases |labels|
  {
    if labels == [] then map[at := end]
    else Suffixes(at + 1 + |labels[0]|, labels[1..], end)[at := Wire(labels, end)]
  }

  function WithName(t: Table, at: nat, n: Name): Table {
    t + Suffixes(at, n.labels, if n.pointer.Some? then Pointer(n.pointer.value.target) else Root)
  }

  /** A pointer goes to the start of a label, or the end, of an earlier name. */
  predicate PointsInto(n: Name, t: Table) {
    n.pointer.Some? ==> n.pointer.value.offset in t && n.pointer.value.target == t[n.pointer.value.offset]
  }

  predicate CompressedAnswer(a: Answer, at: nat, t: Table, opcode: nat)
    requires GoodAnswer(a)
  {
    && PointsInto(a.name, t)
    && (a.rdata.Alias? ==> PointsInto(a.rdata.name, WithName(t, at, a.name)))
    && (HoldsName(opcode, a.rtype) ==> a.rdata.Alias?)
  }

  function WithAnswer(t: Table, at: nat, a: Answer): Table
    requires GoodAnswer(a)
  {
    var t1 := WithName(t, at, a.name);
    if a.rdata.Alias? then WithName(t1, at + |EncodeFront(a)|, a.rdata.name) else t1
  }

  predicate CompressedAnswers(answers: seq<Answer>, at: nat, t: Table, opcode: nat)
    requires GoodAnswers(answers)
    decreases |answers|
  {
    answers == []
    || (assert answers[0] in answers;
        && CompressedAnswer(answers[0], at, t, opcode)
        && CompressedAnswers(answers[1..], at + |EncodeAnswer(answers[0])|, WithAnswer(t, at, answers[0]), opcode))
  }

  /** A message compressed as section 4.1.4 of RFC 1035 has it: by pointers to prior occurrences of names. */
  predicate Compressed(m: Message) {
    && GoodMessage(m) && m.opcode < 5
    && CompressedAnswers(m.answers, |EncodeStart(m)|, StartTable(m), m.opcode)
  }

  function StartTable(m: Message): Table {
    if m.question.Some? then WithName(map[], 12, Name(m.question.value.name, None)) else map[]
  }

  /** What the table says of an offset is what is read there. */
  ghost predicate Sound(sent: Data, t: Table) {
    forall o | o in t :: Encodes(sent, 0, o, t[o])
  }

  lemma {:induction false} SuffixesSound(sent: Data, at: nat, labels: seq<Data>, end: WireName)
    requires Encodes(sent, 0, at, Wire(labels, end))
    ensures Sound(sent, Suffixes(at, labels, end))
    decreases |labels|
  {
    if labels != [] {
      SuffixesSound(sent, at + 1 + |labels[0]|, labels[1..], end);
    }
  }

  lemma {:induction false} SoundLonger(sent: Data, more: Data, t: Table)
    requires Sound(sent, t)
    ensures Sound(sent + more, t)
  {
    hide Encodes;
    assert Holds(sent + more, 0, sent);
    forall o | o in t ensures Encodes(sent + more, 0, o, t[o]) {
      EncodesInside(sent, o, t[o], sent + more, 0);
    }
  }

  /** A name that points into a sound table resolves, and what it adds to the table is sound. */
  lemma {:induction false} NameSound(n: Name, sent: Data, t: Table)
    requires GoodName(n) && PointsInto(n, t) && Sound(sent, t)
    ensures Resolves(n, sent) && Sound(sent + EncodeName(n), WithName(t, |sent|, n))
  {
    hide Encodes, EncodeName, Wire;
    var d := sent + EncodeName(n);
    assert Holds(d, 0, sent) && Holds(d, |sent|, EncodeName(n));
    NameReads(d, 0, n, sent);
    SuffixesSound(d, |sent|, n.labels, if n.pointer.Some? then Pointer(n.pointer.value.target) else Root);
    SoundLonger(sent, EncodeName(n), t);
  }

  lemma {:induction false} AnswerSound(a: Answer, sent: Data, t: Table, opcode: nat)
    requires GoodAnswer(a) && CompressedAnswer(a, |sent|, t, opcode) && Sound(sent, t)
    ensures ResolvesAnswer(a, sent, opcode) && Sound(sent + EncodeAnswer(a), WithAnswer(t, |sent|, a))
  {
    hide Sound, Resolves, PointsInto, WithName, EncodeName, EncodeFields;
    NameSound(a.name, sent, t);
    var t1 := WithName(t, |sent|, a.name);
    SoundLonger(sent + EncodeName(a.name), EncodeFields(a), t1);
    var front := sent + EncodeFront(a);
    assert (sent + EncodeName(a.name)) + EncodeFields(a) == front;
    assert front + EncodeRData(a.rdata) == sent + EncodeAnswer(a);
    if a.rdata.Alias? {
      NameSound(a.rdata.name, front, t1);
    } else {
      SoundLonger(front, EncodeRData(a.rdata), t1);
    }
  }

  lemma {:induction false} AnswersSound(answers: seq<Answer>, sent: Data, t: Table, opcode: nat)
    requires GoodAnswers(answers) && CompressedAnswers(answers, |sent|, t, opcode) && Sound(sent, t)
    ensures ResolvesAnswers(answers, sent, opcode)
    decreases |answers|
  {
    hide Sound, ResolvesAnswer, CompressedAnswer, WithAnswer, EncodeAnswer, GoodAnswer;
    if answers != [] {
      assert answers[0] in answers;
      AnswerSound(answers[0], sent, t, opcode);
      AnswersSound(answers[1..], sent + EncodeAnswer(answers[0]), WithAnswer(t, |sent|, answers[0]), opcode);
    }
  }

  /** A pointer to a label of an earlier name reads as the rest of that name: compressed messages are well-formed. */
  lemma {:induction false} CompressedIsWellFormed(m: Message)
    requires Compressed(m)
    ensures WellFormed(m)
  {
    hide Sound, StartTable, EncodeStart, ResolvesAnswers, CompressedAnswers, GoodAnswers;
    StartSound(m);
    AnswersSound(m.answers, EncodeStart(m), StartTable(m), m.opcode);
  }

  lemma {:induction false} StartSound(m: Message)
    requires GoodMessage(m)
    ensures Sound(EncodeStart(m), StartTable(m))
  {
    hide Sound, WithName, EncodeName, EncodeHeader, GoodAnswers;
    match m.question {
      case None => NothingSound(EncodeStart(m));
      case Some(q) =>
        var name := Name(q.name, None);
        NothingSound(EncodeHeader(m));
        NameSound(name, EncodeHeader(m), map[]);
        var after := FromUInt16(q.qtype) + FromUInt16(q.qclass);
        SoundLonger(EncodeHeader(m) + EncodeName(name), after, WithName(map[], 12, name));
        assert (EncodeHeader(m) + EncodeName(name)) + after == EncodeStart(m);
    }
  }

  lemma {:induction false} NothingSound(sent: Data)
    ensures Sound(sent, map[])
  {}
}
