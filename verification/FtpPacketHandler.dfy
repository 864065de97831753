/**
 Correlating FTP control connections with the data connections they announce. Sessions and pending
 transfers are shared objects in the source; here they are numbered in the order of their creation.
 */
module FtpPacketHandler {
  import opened Bytes
  import FileStreamAssembler
  import opened PopularityList
  import opened Sets
  import opened Wrappers

  type Host = string

  const UNKNOWN := -1
  const UNKNOWN_LENGTH := -1
  const PENDING_LIMIT := 20
  const SESSION_LIMIT := 100

  /** What the transfer key is made of; an unknown port leaves its place empty. */
  datatype Key = Key(client: Host, clientPort: Option<int>, server: Host, serverPort: Option<int>)

  function PortField(port: int): Option<int> {
    if port >= 0 then Some(port) else None
  }

  function GetKey(client: Host, clientPort: int, server: Host, serverPort: int): Key {
    Key(client, PortField(clientPort), server, PortField(serverPort))
  }

  datatype Transfer = Transfer(client: Host, clientPort: int, server: Host, serverPort: int, passive: bool,
                               direction: int, established: bool, session: nat, command: string, filename: string)
  {
    function Key(): Key {
      GetKey(client, clientPort, server, serverPort)
    }
  }

  /** A control connection, and the transfer it has announced last. */
  datatype Session = Session(ftpClient: Host, ftpServer: Host, pending: Option<nat>)

  /** A created file assembler, with the transfer it was created for. */
  datatype Assembler = Assembler(transfer: nat, source: Host, sourcePort: int, destination: Host, destinationPort: int,
                                 command: string, filename: string,
                                 contentLength: int, segmentRemainingBytes: int)

  datatype State = State(sessionList: Lru<nat, nat>, pendingList: Lru<Key, nat>,
                         sessions: seq<Session>, transfers: seq<Transfer>, assemblers: seq<Assembler>)

  // ----- What arrives

  datatype TcpSession = TcpSession(id: nat, client: Host, clientPort: nat, server: Host, serverPort: nat,
                                   synReceived: bool, synAckReceived: bool, established: bool)

  /** A request with its command and argument, or a reply with its code and argument. */
  datatype FtpPacket = Request(command: string, argument: string) | Reply(code: int, argument: string)

  datatype Event = Event(tcp: TcpSession, ftp: Option<FtpPacket>)

  // ----- Port numbers

  predicate IsDigit(c: char) {
    '0' <= c <= '9'
  }

  predicate IsSeparator(c: char) {
    c == ',' || c == ' ' || c == '\r' || c == '\n'
  }

  /** The number of leading characters that are no separators. */
  function TokenLength(s: string): (n: nat)
    ensures n <= |s|
  {
    if s == "" || IsSeparator(s[0]) then 0 else 1 + TokenLength(s[1..])
  }

  /** `split` at separators, empty parts skipped. */
  function Tokens(s: string): seq<string>
    decreases |s|
  {
    if s == "" then []
    else if IsSeparator(s[0]) then Tokens(s[1..])
    else
      var n := TokenLength(s);
      [s[..n]] + Tokens(s[n..])
  }

  function Digits(s: string): nat
    requires forall c | c in s :: IsDigit(c)
  {
    if s == "" then 0
    else
      assert forall c | c in s[..|s| - 1] :: c in s;
      assert s[|s| - 1] in s && IsDigit(s[|s| - 1]);
      10 * Digits(s[..|s| - 1]) + (s[|s| - 1] as int - '0' as int)
  }

  /** `toUShort`, for digits only. */
  function ToUShort(s: string): Option<nat> {
    if s != "" && (forall c | c in s :: IsDigit(c)) && Digits(s) < 0x1_0000 then Some(Digits(s)) else None
  }

  /** The fifth and sixth number, each cut to a byte, as the two bytes of a port. */
  function TryGetPort(s: string): (r: Option<nat>)
    ensures r.Some? ==> r.value < 0x1_0000
  {
    var data := Tokens(s);
    if |data| < 6 then None
    else
      match (ToUShort(data[4]), ToUShort(data[5]))
      case (Some(high), Some(low)) => Some((high % 256) * 256 + low % 256)
      case _ => None
  }

  function FirstDigit(s: string): (n: nat)
    ensures n <= |s|
  {
    if s == "" || IsDigit(s[0]) then 0 else 1 + FirstDigit(s[1..])
  }

  function LastDigit(s: string): (n: nat)
    ensures n <= |s|
  {
    if s == "" || IsDigit(s[|s| - 1]) then |s| else LastDigit(s[..|s| - 1])
  }

  /** The part of a 227 reply from its first digit to its last. */
  function AddressPart(s: string): string {
    var t := s[FirstDigit(s)..];
    t[..LastDigit(t)]
  }

  // ----- The operations

  const PENDING_CONFIG: Config<Key, nat> := Config(PENDING_LIMIT, PENDING_LIMIT, None, None, false)
  const SESSION_CONFIG: Config<nat, nat> := Config(SESSION_LIMIT, SESSION_LIMIT, None, None, false)

  function Initial(): State {
    State(Empty(SESSION_CONFIG), Empty(PENDING_CONFIG), [], [], [])
  }

  ghost predicate Sized(s: State) {
    && s.pendingList.pool == PENDING_LIMIT && |s.pendingList.entries| <= PENDING_LIMIT
    && s.sessionList.pool == SESSION_LIMIT && |s.sessionList.entries| <= SESSION_LIMIT
    && DistinctKeys(s.pendingList.entries) && DistinctKeys(s.sessionList.entries)
  }

  /** Every number refers to something that exists. */
  ghost predicate Closed(s: State) {
    && (forall e | e in s.pendingList.entries :: e.value < |s.transfers|)
    && (forall e | e in s.sessionList.entries :: e.value < |s.sessions|)
    && (forall i | 0 <= i < |s.transfers| :: s.transfers[i].session < |s.sessions|)
    && (forall i | 0 <= i < |s.sessions| :: s.sessions[i].pending.Some? ==> s.sessions[i].pending.value < |s.transfers|)
  }

  /** Three-way handshake under way: a data connection may be one that was announced. */
  function Handshake(s: State, tcp: TcpSession): (r: (State, Option<nat>))
    requires Sized(s) && Closed(s)
  {
    if !(tcp.synReceived && tcp.synAckReceived && !tcp.established) then (s, None)
    else
      var key1 := GetKey(tcp.client, tcp.clientPort, tcp.server, tcp.serverPort);
      var key2 := GetKey(tcp.client, UNKNOWN, tcp.server, tcp.serverPort);
      LookupFinds(s.pendingList.entries, key1);
      LookupFinds(s.pendingList.entries, key2);
      match Lookup(s.pendingList.entries, key1)
      case Some(t) =>
        assert Entry(key1, t) in s.pendingList.entries;
        (s.(transfers := s.transfers[t := s.transfers[t].(established := true)]), Some(s.transfers[t].session))
      case None =>
        match Lookup(s.pendingList.entries, key2)
        case None => (s, None)
        case Some(t) =>
          assert Entry(key2, t) in s.pendingList.entries;
          var removed := Removed(PENDING_CONFIG, s.pendingList, s.transfers[t].Key(), false);
          var transfer := s.transfers[t].(clientPort := tcp.clientPort, established := true);
          (s.(pendingList := Added(PENDING_CONFIG, removed, transfer.Key(), t),
              transfers := s.transfers[t := transfer]),
           Some(transfer.session))
  }

  /** The session of a control connection, created on its first FTP packet. */
  function OpenSession(s: State, tcp: TcpSession): (r: (State, nat))
    requires Sized(s) && Closed(s)
  {
    LookupFinds(s.sessionList.entries, tcp.id);
    match Lookup(s.sessionList.entries, tcp.id)
    case Some(i) => (s, i)
    case None =>
      (s.(sessions := s.sessions + [Session(tcp.client, tcp.server, None)],
          sessionList := Added(SESSION_CONFIG, s.sessionList, tcp.id, |s.sessions|)), |s.sessions|)
  }

  /** A PORT command or a 227 reply announces a data connection. */
  function Announce(s: State, i: nat, client: Host, server: Host, serverPort: nat, passive: bool): State
    requires Sized(s) && i < |s.sessions|
  {
    var t := Transfer(client, UNKNOWN, server, serverPort, passive, UNKNOWN, false, i, "", "");
    s.(transfers := s.transfers + [t],
       sessions := s.sessions[i := s.sessions[i].(pending := Some(|s.transfers|))],
       pendingList := Added(PENDING_CONFIG, Removed(PENDING_CONFIG, s.pendingList, t.Key(), false), t.Key(),
                            |s.transfers|))
  }

  /** STOR and RETR say in which direction the announced transfer goes. */
  function Direct(s: State, i: nat, command: string, argument: string): State
    requires Closed(s) && i < |s.sessions|
  {
    match s.sessions[i].pending
    case None => s
    case Some(t) =>
      var passive := s.transfers[t].passive;
      var toClient := if command == "STOR" then !passive else passive;
      s.(transfers := s.transfers[t := s.transfers[t].(direction := if toClient then 1 else 0,
                                                      command := command, filename := argument)])
  }

  function Control(s: State, i: nat, ftp: FtpPacket): State
    requires Sized(s) && Closed(s) && i < |s.sessions|
  {
    var session := s.sessions[i];
    match ftp
    case Request(command, argument) =>
      if command == "PORT" then
        match TryGetPort(argument)
        case Some(port) => Announce(s, i, session.ftpServer, session.ftpClient, port, false)
        case None => s
      else if command == "STOR" || command == "RETR" then Direct(s, i, command, argument)
      else s
    case Reply(code, argument) =>
      if code == 227 then
        match TryGetPort(AddressPart(argument))
        case Some(port) => Announce(s, i, session.ftpClient, session.ftpServer, port, true)
        case None => s
      else s
  }

  predicate Complete(t: Transfer) {
    t.established && t.direction != UNKNOWN && t.clientPort != UNKNOWN
  }

  /** The content length is set to unknown; the remaining bytes stay at the 0 of the constructor. */
  function AssemblerFor(t: Transfer, id: nat): Assembler {
    if t.direction == 1 then
      Assembler(id, t.server, t.serverPort, t.client, t.clientPort, t.command, t.filename, UNKNOWN_LENGTH, 0)
    else
      Assembler(id, t.client, t.clientPort, t.server, t.serverPort, t.command, t.filename, UNKNOWN_LENGTH, 0)
  }

  /** An established transfer with a known direction gets its assembler and is forgotten. */
  function Conclude(s: State, i: nat): State
    requires Closed(s) && i < |s.sessions|
  {
    match s.sessions[i].pending
    case None => s
    case Some(t) =>
      if Complete(s.transfers[t]) then
        s.(assemblers := s.assemblers + [AssemblerFor(s.transfers[t], t)],
           pendingList := Removed(PENDING_CONFIG, s.pendingList, s.transfers[t].Key(), false),
           sessions := s.sessions[i := s.sessions[i].(pending := None)])
      else s
  }

  // ----- What every operation keeps

  /** Every pending transfer is stored under its own current key. */
  ghost predicate OwnKeys(s: State) {
    forall e | e in s.pendingList.entries :: e.value < |s.transfers| && s.transfers[e.value].Key() == e.key
  }

  /** A transfer is established exactly when its client port is known. */
  ghost predicate KnownPorts(s: State) {
    forall i | 0 <= i < |s.transfers| :: var t := s.transfers[i];
      t.clientPort >= UNKNOWN && t.serverPort >= 0 && (t.established <==> t.clientPort >= 0)
  }

  /** In passive mode the FTP client opens the data connection, in active mode the FTP server does. */
  ghost predicate RightHosts(s: State) {
    forall i | 0 <= i < |s.transfers| :: var t := s.transfers[i];
      && t.session < |s.sessions|
      && var c := s.sessions[t.session];
         if t.passive then t.client == c.ftpClient && t.server == c.ftpServer
         else t.client == c.ftpServer && t.server == c.ftpClient
  }

  /** A known direction is the one that the last STOR or RETR asked for. */
  ghost predicate RightDirections(s: State) {
    forall i | 0 <= i < |s.transfers| :: var t := s.transfers[i];
      t.direction != UNKNOWN ==>
        && (t.command == "STOR" || t.command == "RETR")
        && t.direction == if (t.command == "STOR") != t.passive then 1 else 0
  }

  /** A session's transfer is its own, and no assembler has been created for it. */
  ghost predicate Unconsumed(s: State) {
    && (forall i | 0 <= i < |s.sessions| && s.sessions[i].pending.Some? :: var t := s.sessions[i].pending.value;
          && t < |s.transfers| && s.transfers[t].session == i
          && forall a | a in s.assemblers :: a.transfer != t)
    && (forall i, j | 0 <= i < j < |s.assemblers| :: s.assemblers[i].transfer != s.assemblers[j].transfer)
  }

  /** A file is sent by the FTP server for RETR and by the FTP client for STOR. */
  ghost predicate RightSources(s: State) {
    forall a | a in s.assemblers ::
      && a.transfer < |s.transfers| && s.transfers[a.transfer].session < |s.sessions|
      && s.transfers[a.transfer].established
      && a.sourcePort >= 0 && a.destinationPort >= 0
      && a.contentLength == UNKNOWN_LENGTH && a.segmentRemainingBytes == 0
      && var c := s.sessions[s.transfers[a.transfer].session];
         || (a.command == "RETR" && a.source == c.ftpServer && a.destination == c.ftpClient)
         || (a.command == "STOR" && a.source == c.ftpClient && a.destination == c.ftpServer)
  }

  /** No two control connections share a session. */
  ghost predicate OwnSessions(s: State) {
    forall a, b | a in s.sessionList.entries && b in s.sessionList.entries && a.value == b.value :: a.key == b.key
  }

  ghost predicate Inv(s: State) {
    && Sized(s) && Closed(s) && OwnKeys(s) && OwnSessions(s) && KnownPorts(s)
    && RightHosts(s) && RightDirections(s) && Unconsumed(s) && RightSources(s)
  }

  lemma {:induction false} AddedEntries<K, V>(c: Config<K, V>, l: Lru<K, V>, k: K, v: V)
    requires Fixed(c) && l.pool == c.minPoolSize && |l.entries| <= l.pool && DistinctKeys(l.entries)
    ensures var r := Added(c, l, k, v);
            && r.pool == l.pool && |r.entries| <= r.pool && DistinctKeys(r.entries)
            && forall e | e in r.entries :: e == Entry(k, v) || e in l.entries
  {
    hide Front, Added;
    FixedAdd(c, l, k, v);
    FrontWellFormed(l.entries, l.pool, k, v);
  }

  lemma {:induction false} RemovedEntries<K, V>(c: Config<K, V>, l: Lru<K, V>, k: K)
    requires DistinctKeys(l.entries)
    ensures var r := Removed(c, l, k, false);
            && r.pool == l.pool && |r.entries| <= |l.entries| && DistinctKeys(r.entries)
            && forall e | e in r.entries :: e in l.entries && e.key != k
  {
    WithoutDistinct(l.entries, k);
    LookupWithout(l.entries, k);
    forall e | e in Without(l.entries, k) ensures e in l.entries && e.key != k {
      WithoutMembers(l.entries, k, e);
    }
    LookupFinds(l.entries, k);
    if Lookup(l.entries, k).None? {
      forall e | e in l.entries ensures e.key != k {
        WithoutMembers(l.entries, k, e);
      }
    }
  }

  /** Putting a transfer into the pending list under its own key. */
  lemma {:induction false} MorePending(s: State, t: nat)
    requires Inv(s) && t < |s.transfers|
    ensures Inv(s.(pendingList := Added(PENDING_CONFIG, s.pendingList, s.transfers[t].Key(), t)))
  {
    hide Added;
    AddedEntries(PENDING_CONFIG, s.pendingList, s.transfers[t].Key(), t);
  }

  lemma {:induction false} HandshakeInv(s: State, tcp: TcpSession)
    requires Inv(s)
    ensures var r := Handshake(s, tcp);
            && Inv(r.0) && |r.0.transfers| == |s.transfers| && r.0.assemblers == s.assemblers
            && (r.1.Some? ==> r.1.value < |r.0.sessions|)
  {
    hide Added, Removed, Lookup, RightSources, Unconsumed, RightHosts, RightDirections;
    var key1 := GetKey(tcp.client, tcp.clientPort, tcp.server, tcp.serverPort);
    var key2 := GetKey(tcp.client, UNKNOWN, tcp.server, tcp.serverPort);
    LookupFinds(s.pendingList.entries, key1);
    LookupFinds(s.pendingList.entries, key2);
    if tcp.synReceived && tcp.synAckReceived && !tcp.established {
      match Lookup(s.pendingList.entries, key1) {
        case Some(t) =>
          assert Entry(key1, t) in s.pendingList.entries;
          EstablishKnown(s, t, key1);
        case None =>
          match Lookup(s.pendingList.entries, key2) {
            case None =>
            case Some(t) =>
              assert Entry(key2, t) in s.pendingList.entries;
              EstablishUnknown(s, t, tcp.clientPort);
          }
      }
    }
  }

  lemma {:induction false} EstablishKnown(s: State, t: nat, key: Key)
    requires Inv(s) && Entry(key, t) in s.pendingList.entries && key.clientPort.Some?
    ensures t < |s.transfers| && s.transfers[t].session < |s.sessions|
    ensures Inv(s.(transfers := s.transfers[t := s.transfers[t].(established := true)]))
  {
    assert s.transfers[t].Key() == key;
  }

  lemma {:induction false} EstablishUnknown(s: State, t: nat, port: nat)
    requires Inv(s) && exists key :: Entry(key, t) in s.pendingList.entries
    ensures t < |s.transfers| && s.transfers[t].session < |s.sessions|
    ensures var u := s.transfers[t].(clientPort := port, established := true);
            var removed := Removed(PENDING_CONFIG, s.pendingList, s.transfers[t].Key(), false);
            && 0 <= removed.pool
            && Inv(s.(pendingList := Added(PENDING_CONFIG, removed, u.Key(), t), transfers := s.transfers[t := u]))
  {
    var key :| Entry(key, t) in s.pendingList.entries;
    assert s.transfers[t].Key() == key;
    var u := s.transfers[t].(clientPort := port, established := true);
    hide RightSources, Unconsumed, RightHosts, RightDirections, Removed, Added;
    RemovedEntries(PENDING_CONFIG, s.pendingList, key);
    var removed := Removed(PENDING_CONFIG, s.pendingList, key, false);
    var s1 := s.(pendingList := removed);
    MorePending(s1.(transfers := s.transfers[t := u]), t);
  }

  lemma {:induction false} OpenSessionInv(s: State, tcp: TcpSession)
    requires Inv(s)
    ensures var r := OpenSession(s, tcp);
            Inv(r.0) && r.1 < |r.0.sessions| && r.0.transfers == s.transfers && r.0.assemblers == s.assemblers
  {
    LookupFinds(s.sessionList.entries, tcp.id);
    match Lookup(s.sessionList.entries, tcp.id) {
      case Some(i) => assert Entry(tcp.id, i) in s.sessionList.entries;
      case None =>
        NewSession(s, Session(tcp.client, tcp.server, None), tcp.id);
    }
  }

  lemma {:induction false} NewSession(s: State, c: Session, id: nat)
    requires Inv(s) && c.pending.None?
    ensures 0 <= s.sessionList.pool
    ensures Inv(s.(sessions := s.sessions + [c], sessionList := Added(SESSION_CONFIG, s.sessionList, id, |s.sessions|)))
  {
    hide Added;
    AddedEntries(SESSION_CONFIG, s.sessionList, id, |s.sessions|);
  }

  lemma {:induction false} AnnounceInv(s: State, i: nat, client: Host, server: Host, serverPort: nat, passive: bool)
    requires Inv(s) && i < |s.sessions|
    requires var c := s.sessions[i];
             if passive then client == c.ftpClient && server == c.ftpServer
             else client == c.ftpServer && server == c.ftpClient
    ensures Inv(Announce(s, i, client, server, serverPort, passive))
  {
    hide Added, Removed;
    var t := Transfer(client, UNKNOWN, server, serverPort, passive, UNKNOWN, false, i, "", "");
    RemovedEntries(PENDING_CONFIG, s.pendingList, t.Key());
    var removed := Removed(PENDING_CONFIG, s.pendingList, t.Key(), false);
    var s2 := s.(pendingList := removed, transfers := s.transfers + [t],
                 sessions := s.sessions[i := s.sessions[i].(pending := Some(|s.transfers|))]);
    MorePending(s2, |s.transfers|);
  }

  lemma {:induction false} DirectInv(s: State, i: nat, command: string, argument: string)
    requires Inv(s) && i < |s.sessions| && (command == "STOR" || command == "RETR")
    ensures Inv(Direct(s, i, command, argument))
  {}

  lemma {:induction false} ConcludeInv(s: State, i: nat)
    requires Inv(s) && i < |s.sessions|
    ensures Inv(Conclude(s, i)) && Conclude(s, i).transfers == s.transfers
  {
    hide Removed;
    if s.sessions[i].pending.Some? && Complete(s.transfers[s.sessions[i].pending.value]) {
      var t := s.sessions[i].pending.value;
      RemovedEntries(PENDING_CONFIG, s.pendingList, s.transfers[t].Key());
    }
  }

  // ----- Whole runs

  /** One packet: the handshake, the control connection, and what follows from both. */
  function Process(s: State, e: Event): (r: (State, bool))
    requires Inv(s)
  {
    HandshakeInv(s, e.tcp);
    var (s1, data) := Handshake(s, e.tcp);
    match e.ftp
    case None =>
      (match data
       case None => (s1, false)
       case Some(i) => (Conclude(s1, i), true))
    case Some(ftp) =>
      OpenSessionInv(s1, e.tcp);
      var (s2, i) := OpenSession(s1, e.tcp);
      ControlInv(s2, i, ftp);
      (Conclude(Control(s2, i, ftp), i), true)
  }

  lemma {:induction false} ControlInv(s: State, i: nat, ftp: FtpPacket)
    requires Inv(s) && i < |s.sessions|
    ensures Inv(Control(s, i, ftp)) && i < |Control(s, i, ftp).sessions|
    ensures Control(s, i, ftp).assemblers == s.assemblers
    ensures |Control(s, i, ftp).transfers| == |s.transfers| + (if Announces(ftp) then 1 else 0)
  {
    hide Inv, TryGetPort, AddressPart;
    InvMeans(s);
    var c := s.sessions[i];
    match ftp {
      case Request(command, argument) =>
        if command == "PORT" {
          if TryGetPort(argument).Some? {
            AnnounceInv(s, i, c.ftpServer, c.ftpClient, TryGetPort(argument).value, false);
          }
        } else if command == "STOR" || command == "RETR" {
          DirectInv(s, i, command, argument);
        }
      case Reply(code, argument) =>
        if code == 227 && TryGetPort(AddressPart(argument)).Some? {
          AnnounceInv(s, i, c.ftpClient, c.ftpServer, TryGetPort(AddressPart(argument)).value, true);
        }
    }
  }

  lemma InvMeans(s: State)
    requires Inv(s)
    ensures Sized(s) && Closed(s)
  {
  }

  /** A PORT command or a 227 reply with a readable port. */
  predicate Announces(ftp: FtpPacket) {
    match ftp
    case Request(command, argument) => command == "PORT" && TryGetPort(argument).Some?
    case Reply(code, argument) => code == 227 && TryGetPort(AddressPart(argument)).Some?
  }

  function Announcements(es: seq<Event>): nat {
    if es == [] then 0
    else (if es[0].ftp.Some? && Announces(es[0].ftp.value) then 1 else 0) + Announcements(es[1..])
  }

  lemma {:induction false} ProcessInv(s: State, e: Event)
    requires Inv(s)
    ensures Inv(Process(s, e).0)
    ensures |Process(s, e).0.transfers| == |s.transfers| + Announcements([e])
  {
    hide Inv, Handshake, OpenSession, Control, Conclude, Announces;
    InvMeans(s);
    HandshakeInv(s, e.tcp);
    var (s1, data) := Handshake(s, e.tcp);
    InvMeans(s1);
    assert Announcements([e]) == if e.ftp.Some? && Announces(e.ftp.value) then 1 else 0 by {
      assert [e][1..] == [];
    }
    match e.ftp {
      case None =>
        if data.Some? {
          ConcludeInv(s1, data.value);
        }
      case Some(ftp) =>
        OpenSessionInv(s1, e.tcp);
        var (s2, i) := OpenSession(s1, e.tcp);
        ControlInv(s2, i, ftp);
        ConcludeInv(Control(s2, i, ftp), i);
    }
  }

  function Run(s: State, es: seq<Event>): State
    requires Inv(s)
    decreases es
  {
    if es == [] then s
    else
      ProcessInv(s, es[0]);
      Run(Process(s, es[0]).0, es[1..])
  }

  lemma {:induction false} RunInv(s: State, es: seq<Event>)
    requires Inv(s)
    ensures Inv(Run(s, es)) && |Run(s, es).transfers| == |s.transfers| + Announcements(es)
    decreases es
  {
    hide Inv, Process;
    if es != [] {
      ProcessInv(s, es[0]);
      RunInv(Process(s, es[0]).0, es[1..]);
      assert [es[0]][1..] == [];
    }
  }

  lemma {:induction false} DistinctCount(made: seq<Assembler>, n: nat)
    requires forall i, j | 0 <= i < j < |made| :: made[i].transfer != made[j].transfer
    requires forall a | a in made :: a.transfer < n
    ensures |made| <= n
  {
    CountDistinct(made, Below(n));
  }

  lemma {:induction false} CountDistinct(made: seq<Assembler>, ids: set<nat>)
    requires forall i, j | 0 <= i < j < |made| :: made[i].transfer != made[j].transfer
    requires forall a | a in made :: a.transfer in ids
    ensures |made| <= |ids|
    decreases |made|
  {
    if made != [] {
      var x, rest := made[0], made[1..];
      assert x in made;
      forall a | a in rest ensures a.transfer in ids - {x.transfer} {
        assert a in made;
      }
      CountDistinct(rest, ids - {x.transfer});
    }
  }

  /**
   Over every order of control commands, replies and data handshakes: pending transfers are stored
   under their current keys, established transfers have a known client port, files have the right
   source, and there is at most one assembler per announcement.
   */
  lemma {:induction false} Safety(es: seq<Event>)
    ensures Inv(Initial())
    ensures var s := Run(Initial(), es);
            && OwnKeys(s) && KnownPorts(s) && RightDirections(s) && RightSources(s)
            && (forall i, j | 0 <= i < j < |s.assemblers| :: s.assemblers[i].transfer != s.assemblers[j].transfer)
            && |s.assemblers| <= |s.transfers| == Announcements(es)
  {
    hide Run;
    RunInv(Initial(), es);
    var s := Run(Initial(), es);
    DistinctCount(s.assemblers, |s.transfers|);
  }

  /** The file that an assembler created here has made of the segments given to it. */
  function FileOf(a: Assembler, gs: seq<FileStreamAssembler.Segment>): seq<byte> {
    var s := FileStreamAssembler.New(FileStreamAssembler.FTP, a.contentLength, a.segmentRemainingBytes);
    FileStreamAssembler.Finish(FileStreamAssembler.Run(s, gs)).file
  }

  /**
   Whatever happens on the control connections, the file of a transfer is its first segment that is not
   empty: neither length is set, so the assembler goes inactive with that segment.
   */
  lemma {:induction false} OnlyFirstSegmentKept(es: seq<Event>, a: Assembler, gs: seq<FileStreamAssembler.Segment>)
    requires a in Run(Initial(), es).assemblers
    ensures FileOf(a, gs) == FileStreamAssembler.FirstData(gs)
  {
    hide Run, FileStreamAssembler.Run, FileStreamAssembler.Finish;
    RunInv(Initial(), es);
    FileStreamAssembler.UnknownLengthKeepsFirst(FileStreamAssembler.FTP, gs);
  }

  /** A STOR or RETR for an established transfer creates its assembler, with the file's right source. */
  lemma {:induction false} CommandCompletes(s: State, e: Event, i: nat, t: nat, command: string, argument: string)
    requires Inv(s) && e.ftp == Some(Request(command, argument)) && (command == "STOR" || command == "RETR")
    requires !(e.tcp.synReceived && e.tcp.synAckReceived && !e.tcp.established)
    requires Lookup(s.sessionList.entries, e.tcp.id) == Some(i) && i < |s.sessions|
    requires s.sessions[i].pending == Some(t) && t < |s.transfers| && s.transfers[t].established
    ensures var s' := Process(s, e).0;
            var c := s.sessions[i];
            && |s'.assemblers| == |s.assemblers| + 1
            && s'.sessions[i].pending == None
            && var a := s'.assemblers[|s.assemblers|];
               && a.transfer == t && a.command == command && a.filename == argument
               && a.source == (if command == "RETR" then c.ftpServer else c.ftpClient)
               && a.destination == (if command == "RETR" then c.ftpClient else c.ftpServer)
  {
    hide Removed;
    OpenSessionInv(s, e.tcp);
    ControlInv(s, i, e.ftp.value);
    assert Handshake(s, e.tcp) == (s, None) && OpenSession(s, e.tcp) == (s, i);
    assert Control(s, i, e.ftp.value) == Direct(s, i, command, argument);
  }

  /** The handshake of an announced data connection creates the assembler if the direction is known. */
  lemma {:induction false} HandshakeCompletes(s: State, e: Event, t: nat)
    requires Inv(s) && e.ftp == None
    requires e.tcp.synReceived && e.tcp.synAckReceived && !e.tcp.established
    requires Lookup(s.pendingList.entries,
                    GetKey(e.tcp.client, e.tcp.clientPort, e.tcp.server, e.tcp.serverPort)) == None
    requires Lookup(s.pendingList.entries, GetKey(e.tcp.client, UNKNOWN, e.tcp.server, e.tcp.serverPort)) == Some(t)
    requires t < |s.transfers| && s.transfers[t].direction != UNKNOWN
    requires s.transfers[t].session < |s.sessions| && s.sessions[s.transfers[t].session].pending == Some(t)
    ensures var s' := Process(s, e).0;
            var u := s.transfers[t];
            && |s'.assemblers| == |s.assemblers| + 1
            && var a := s'.assemblers[|s.assemblers|];
               && a.transfer == t && a.command == u.command && a.filename == u.filename
               && (if u.direction == 1 then a.sourcePort == e.tcp.serverPort && a.destinationPort == e.tcp.clientPort
                   else a.sourcePort == e.tcp.clientPort && a.destinationPort == e.tcp.serverPort)
  {
    hide Removed, Added, Lookup;
    HandshakeInv(s, e.tcp);
    var key2 := GetKey(e.tcp.client, UNKNOWN, e.tcp.server, e.tcp.serverPort);
    LookupFinds(s.pendingList.entries, key2);
    assert Entry(key2, t) in s.pendingList.entries;
    assert s.transfers[t].Key() == key2;
    assert s.transfers[t].serverPort == e.tcp.serverPort;
  }

  // ----- Ports as they are written in PORT commands and 227 replies

  function Decimal(n: nat): (s: string)
    ensures s != ""
  {
    (if n < 10 then "" else Decimal(n / 10)) + [('0' as int + n % 10) as char]
  }

  predicate AllDigits(s: string) {
    s != "" && forall c | c in s :: IsDigit(c)
  }

  lemma {:induction false} DigitsDecimal(n: nat)
    ensures AllDigits(Decimal(n)) && Digits(Decimal(n)) == n
    decreases n
  {
    var s, c := Decimal(n), ('0' as int + n % 10) as char;
    var rest := if n < 10 then "" else Decimal(n / 10);
    assert s[..|s| - 1] == rest && s[|s| - 1] == c;
    if n >= 10 {
      DigitsDecimal(n / 10);
    }
  }

  lemma {:induction false} TokenLengthDigits(t: string, rest: string)
    requires (forall c | c in t :: IsDigit(c)) && (rest == "" || IsSeparator(rest[0]))
    ensures TokenLength(t + rest) == |t|
    decreases |t|
  {
    if t == "" {
      assert t + rest == rest;
    } else {
      assert (t + rest)[0] == t[0] && t[0] in t && IsDigit(t[0]);
      assert (t + rest)[1..] == t[1..] + rest;
      TokenLengthDigits(t[1..], rest);
    }
  }

  /** A number in front of a comma is the first token. */
  lemma {:induction false} FirstToken(t: string, rest: string)
    requires AllDigits(t)
    ensures Tokens(t + "," + rest) == [t] + Tokens(rest)
    ensures Tokens(t) == [t]
  {
    assert t[0] in t && IsDigit(t[0]);
    var s := t + "," + rest;
    assert s == t + ("," + rest);
    TokenLengthDigits(t, "," + rest);
    assert s[..|t|] == t && s[|t|..] == "," + rest;
    assert ("," + rest)[1..] == rest;
    assert s[0] == t[0];
    TokenLengthDigits(t, "");
    assert t + "" == t && t[..|t|] == t && t[|t|..] == "";
  }

  /** Commas, blanks and line ends separate numbers; several of them count as one. */
  lemma {:induction false} TokenSplits(t: string, separator: char, rest: string)
    requires AllDigits(t) && separator in {',', ' ', '\r', '\n'}
    ensures Tokens(t + [separator] + rest) == [t] + Tokens(rest)
    ensures Tokens([separator] + rest) == Tokens(rest)
  {
    assert t[0] in t && IsDigit(t[0]);
    var s, tail := t + [separator] + rest, [separator] + rest;
    assert tail[1..] == rest && s == t + tail;
    TokenLengthDigits(t, tail);
    assert s[..|t|] == t && s[|t|..] == tail && s[0] == t[0];
  }

  /** An address and a port as the six numbers of RFC 959. */
  function PortArgument(h1: string, h2: string, h3: string, h4: string, high: nat, low: nat): string {
    h1 + "," + (h2 + "," + (h3 + "," + (h4 + "," + (Decimal(high) + "," + Decimal(low)))))
  }

  /**
   What is read is the two numbers cut to bytes, so it is the port that was written exactly when both
   are bytes; numbers up to 65535 are accepted.
   */
  lemma {:induction false} PortRead(h1: string, h2: string, h3: string, h4: string, high: nat, low: nat)
    requires AllDigits(h1) && AllDigits(h2) && AllDigits(h3) && AllDigits(h4)
    ensures TryGetPort(PortArgument(h1, h2, h3, h4, high, low))
         == if high < 0x1_0000 && low < 0x1_0000 then Some((high % 256) * 256 + low % 256) else None
    ensures TryGetPort(PortArgument(h1, h2, h3, h4, high, low)) == Some(high * 256 + low) <==> high < 256 && low < 256
  {
    hide Tokens, Decimal;
    DigitsDecimal(high);
    DigitsDecimal(low);
    var s6 := Decimal(low);
    var s5 := Decimal(high) + "," + s6;
    var s4 := h4 + "," + s5;
    var s3 := h3 + "," + s4;
    var s2 := h2 + "," + s3;
    FirstToken(s6, "");
    FirstToken(Decimal(high), s6);
    FirstToken(h4, s5);
    FirstToken(h3, s4);
    FirstToken(h2, s3);
    FirstToken(h1, s2);
    assert Tokens(PortArgument(h1, h2, h3, h4, high, low)) == [h1, h2, h3, h4, Decimal(high), Decimal(low)];
  }

  lemma {:induction false} FirstDigitSkips(before: string, s: string)
    requires (forall c | c in before :: !IsDigit(c)) && s != "" && IsDigit(s[0])
    ensures FirstDigit(before + s) == |before|
    decreases |before|
  {
    if before == "" {
      assert before + s == s;
    } else {
      assert (before + s)[0] == before[0] && before[0] in before;
      assert (before + s)[1..] == before[1..] + s;
      FirstDigitSkips(before[1..], s);
    }
  }

  lemma {:induction false} LastDigitSkips(s: string, after: string)
    requires (forall c | c in after :: !IsDigit(c)) && s != "" && IsDigit(s[|s| - 1])
    ensures LastDigit(s + after) == |s|
    decreases |after|
  {
    if after == "" {
      assert s + after == s;
    } else {
      var n := |after| - 1;
      assert (s + after)[|s + after| - 1] == after[n] && after[n] in after;
      assert (s + after)[..|s + after| - 1] == s + after[..n];
      LastDigitSkips(s, after[..n]);
    }
  }

  /** A 227 reply is read as its address, whatever text without digits surrounds it. */
  lemma {:induction false} AddressFound(before: string, s: string, after: string)
    requires forall c | c in before :: !IsDigit(c)
    requires forall c | c in after :: !IsDigit(c)
    requires s != "" && IsDigit(s[0]) && IsDigit(s[|s| - 1])
    ensures AddressPart(before + s + after) == s
  {
    assert before + s + after == before + (s + after);
    FirstDigitSkips(before, s + after);
    assert (before + (s + after))[|before|..] == s + after;
    LastDigitSkips(s, after);
    assert (s + after)[..|s|] == s;
  }

  // ----- The handler

  class Handler {
    const ftpSessionList: List<nat, nat>
    const pendingFileTransferList: List<Key, nat>
    var sessions: seq<Session>
    var transfers: seq<Transfer>
    var assemblers: seq<Assembler>

    ghost function Snapshot(): State
      reads this, ftpSessionList, pendingFileTransferList
    {
      State(ftpSessionList.Contents(), pendingFileTransferList.Contents(), sessions, transfers, assemblers)
    }

    ghost predicate Valid()
      reads this, ftpSessionList, pendingFileTransferList
    {
      && ftpSessionList.Valid() && ftpSessionList.config == SESSION_CONFIG
      && pendingFileTransferList.Valid() && pendingFileTransferList.config == PENDING_CONFIG
      && Inv(Snapshot())
    }

    constructor ()
      ensures Valid() && Snapshot() == Initial()
      ensures fresh(ftpSessionList) && fresh(pendingFileTransferList)
    {
      ftpSessionList := new List(SESSION_CONFIG);
      pendingFileTransferList := new List(PENDING_CONFIG);
      sessions, transfers, assemblers := [], [], [];
      new;
    }

    method TryExtractData(e: Event) returns (r: bool)
      requires Valid()
      modifies this, ftpSessionList, pendingFileTransferList
      ensures Valid() && (Snapshot(), r) == Process(old(Snapshot()), e)
    {
      hide Linked, Entries, Inv, Handshake, OpenSession, Control, Conclude;
      InvMeans(Snapshot());
      ghost var s := Snapshot();
      ProcessInv(s, e);
      HandshakeInv(s, e.tcp);
      r := false;
      var i := DataHandshake(e.tcp);
      if e.ftp.Some? {
        OpenSessionInv(Snapshot(), e.tcp);
        var session := FindSession(e.tcp);
        ControlInv(Snapshot(), session, e.ftp.value);
        HandleControl(session, e.ftp.value);
        i := Some(session);
      }
      if i.Some? {
        ConcludeInv(Snapshot(), i.value);
        ConcludeTransfer(i.value);
        r := true;
      }
    }

    /** Looks for a pending transfer that the handshake of `tcp` belongs to. */
    method DataHandshake(tcp: TcpSession) returns (i: Option<nat>)
      requires Valid()
      modifies this`transfers, pendingFileTransferList
      ensures Valid() && Sized(old(Snapshot())) && Closed(old(Snapshot()))
      ensures (Snapshot(), i) == Handshake(old(Snapshot()), tcp)
    {
      hide Linked, Entries, Added, Removed, Lookup, Inv;
      ghost var s := Snapshot();
      HandshakeInv(s, tcp);
      InvMeans(s);
      i := None;
      if tcp.synReceived && tcp.synAckReceived && !tcp.established {
        var key1 := GetKey(tcp.client, tcp.clientPort, tcp.server, tcp.serverPort);
        var key2 := GetKey(tcp.client, UNKNOWN, tcp.server, tcp.serverPort);
        var pending := GetValue(pendingFileTransferList, key1);
        PendingExists(s, key1);
        PendingExists(s, key2);
        if pending.Some? {
          var t := pending.value;
          transfers := transfers[t := transfers[t].(established := true)];
          i := Some(transfers[t].session);
        } else {
          pending := GetValue(pendingFileTransferList, key2);
          if pending.Some? {
            var t := pending.value;
            pendingFileTransferList.Remove(transfers[t].Key(), false);
            transfers := transfers[t := transfers[t].(clientPort := tcp.clientPort, established := true)];
            pendingFileTransferList.Add(transfers[t].Key(), t);
            i := Some(transfers[t].session);
          }
        }
      }
    }

    method FindSession(tcp: TcpSession) returns (i: nat)
      requires Valid()
      modifies this`sessions, ftpSessionList
      ensures Valid() && Sized(old(Snapshot())) && Closed(old(Snapshot()))
      ensures (Snapshot(), i) == OpenSession(old(Snapshot()), tcp)
    {
      hide Linked, Entries, Added, Lookup, Inv;
      ghost var s := Snapshot();
      OpenSessionInv(s, tcp);
      InvMeans(s);
      var known := GetValue(ftpSessionList, tcp.id);
      if known.Some? {
        i := known.value;
        assert i == OpenSession(s, tcp).1;
      } else {
        i := |sessions|;
        sessions := sessions + [Session(tcp.client, tcp.server, None)];
        ftpSessionList.Add(tcp.id, i);
      }
    }

    /** PORT, STOR and RETR from the client, 227 from the server. */
    method HandleControl(i: nat, ftp: FtpPacket)
      requires Valid() && i < |sessions|
      modifies this`transfers, this`sessions, pendingFileTransferList
      ensures Valid() && Sized(old(Snapshot())) && Closed(old(Snapshot()))
      ensures Snapshot() == Control(old(Snapshot()), i, ftp)
    {
      hide Linked, Entries, Inv, Announce, Direct, TryGetPort, AddressPart;
      ghost var s := Snapshot();
      ControlInv(s, i, ftp);
      InvMeans(s);
      var session := sessions[i];
      match ftp {
        case Request(command, argument) =>
          if command == "PORT" {
            var port := TryGetPort(argument);
            if port.Some? {
              AddPending(i, session.ftpServer, session.ftpClient, port.value, false);
            }
          } else if command == "STOR" {
            SetDirection(i, command, argument);
          } else if command == "RETR" {
            SetDirection(i, command, argument);
          }
        case Reply(code, argument) =>
          if code == 227 {
            var port := TryGetPort(AddressPart(argument));
            if port.Some? {
              AddPending(i, session.ftpClient, session.ftpServer, port.value, true);
            }
          }
      }
    }

    method AddPending(i: nat, client: Host, server: Host, serverPort: nat, passive: bool)
      requires Valid() && i < |sessions|
      requires var c := sessions[i];
               if passive then client == c.ftpClient && server == c.ftpServer
               else client == c.ftpServer && server == c.ftpClient
      modifies this`transfers, this`sessions, pendingFileTransferList
      ensures Valid() && Sized(old(Snapshot()))
      ensures Snapshot() == Announce(old(Snapshot()), i, client, server, serverPort, passive)
    {
      hide Linked, Entries, Inv, Added, Removed;
      ghost var s := Snapshot();
      AnnounceInv(s, i, client, server, serverPort, passive);
      InvMeans(s);
      var t := |transfers|;
      transfers := transfers + [Transfer(client, UNKNOWN, server, serverPort, passive, UNKNOWN, false, i, "", "")];
      sessions := sessions[i := sessions[i].(pending := Some(t))];
      pendingFileTransferList.Remove(transfers[t].Key(), false);
      pendingFileTransferList.Add(transfers[t].Key(), t);
    }

    method SetDirection(i: nat, command: string, argument: string)
      requires Valid() && i < |sessions| && (command == "STOR" || command == "RETR")
      modifies this`transfers
      ensures Valid() && Closed(old(Snapshot()))
      ensures Snapshot() == Direct(old(Snapshot()), i, command, argument)
    {
      hide Linked, Entries, Inv;
      ghost var s := Snapshot();
      DirectInv(s, i, command, argument);
      InvMeans(s);
      if sessions[i].pending.Some? {
        var t := sessions[i].pending.value;
        var passive := transfers[t].passive;
        var toClient := if command == "STOR" then !passive else passive;
        transfers := transfers[t := transfers[t].(direction := if toClient then 1 else 0,
                                                  command := command, filename := argument)];
      }
    }

    /** Creates the assembler once everything is known; activating it is assumed to succeed. */
    method ConcludeTransfer(i: nat)
      requires Valid() && i < |sessions|
      modifies this`assemblers, this`sessions, pendingFileTransferList
      ensures Valid() && Closed(old(Snapshot())) && Snapshot() == Conclude(old(Snapshot()), i)
    {
      hide Linked, Entries, Inv, Removed;
      ghost var s := Snapshot();
      ConcludeInv(s, i);
      InvMeans(s);
      if sessions[i].pending.Some? {
        var t := sessions[i].pending.value;
        var pending := transfers[t];
        if pending.established && pending.direction != UNKNOWN && pending.clientPort != UNKNOWN {
          assemblers := assemblers + [AssemblerFor(pending, t)];
          pendingFileTransferList.Remove(pending.Key(), false);
          sessions := sessions[i := sessions[i].(pending := None)];
        }
      }
    }
  }

  /** A lookup that leaves the order of the list alone. */
  method GetValue<K(==), V>(l: List<K, V>, key: K) returns (v: Option<V>)
    requires l.Valid()
    ensures v == Lookup(l.Contents().entries, key)
  {
    LinkedLookup(l.linkedList, l.sortedList, key);
    v := if key in l.sortedList then Some(l.sortedList[key].value) else None;
  }

  lemma PendingExists(s: State, key: Key)
    requires Closed(s)
    ensures Lookup(s.pendingList.entries, key).Some? ==> Lookup(s.pendingList.entries, key).value < |s.transfers|
  {
    LookupFinds(s.pendingList.entries, key);
  }
}
