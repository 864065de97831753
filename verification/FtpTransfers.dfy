/**
 Announced FTP transfers come about: a port announced on a control connection, a command and the
 handshake of the data connection, in either order and among any other traffic, give one assembler.
 */
module FtpTransfers {
  import opened FtpPacketHandler
  import opened PopularityList
  import opened Sets
  import opened Wrappers

  // ----- What is awaited

  /**
   A transfer announced on the control connection `id`: `client` is to connect to `server` at `port`,
   and will do so from `clientPort`.
   */
  datatype Awaited = Awaited(id: nat, session: nat, client: Host, server: Host, port: nat, passive: bool,
                             transfer: nat, clientPort: nat)

  /** The key of a transfer whose client port is unknown, and of one from `clientPort`. */
  function OpenKey(w: Awaited): Key {
    Key(w.client, None, w.server, Some(w.port))
  }

  function ExactKey(w: Awaited): Key {
    Key(w.client, Some(w.clientPort), w.server, Some(w.port))
  }

  /** A command that gives the direction of a transfer. */
  datatype Wish = Store(file: string) | Retrieve(file: string)

  function CommandOf(wish: Wish): FtpPacket {
    match wish
    case Store(file) => Request("STOR", file)
    case Retrieve(file) => Request("RETR", file)
  }

  /** The transfer as it is recorded, before or after its command and its handshake. */
  function Recorded(w: Awaited, wish: Option<Wish>, connected: bool): Transfer {
    var port := if connected then w.clientPort else -1;
    match wish
    case None => Transfer(w.client, port, w.server, w.port, w.passive, -1, connected, w.session, "", "")
    case Some(Store(file)) =>
      Transfer(w.client, port, w.server, w.port, w.passive, if w.passive then 0 else 1, connected, w.session,
               "STOR", file)
    case Some(Retrieve(file)) =>
      Transfer(w.client, port, w.server, w.port, w.passive, if w.passive then 1 else 0, connected, w.session,
               "RETR", file)
  }

  /** The control connection still has its session, and that has the transfer. */
  ghost predicate Known(s: State, w: Awaited, wish: Option<Wish>, connected: bool) {
    && Inv(s)
    && Lookup(s.sessionList.entries, w.id) == Some(w.session) && w.session < |s.sessions|
    && s.sessions[w.session].pending == Some(w.transfer) && w.transfer < |s.transfers|
    && s.transfers[w.transfer] == Recorded(w, wish, connected)
  }

  /** The transfer waits for its data connection. */
  ghost predicate Waiting(s: State, w: Awaited, wish: Option<Wish>) {
    && Known(s, w, wish, false)
    && Lookup(s.pendingList.entries, OpenKey(w)) == Some(w.transfer)
    && Lookup(s.pendingList.entries, ExactKey(w)) == None
  }

  // ----- Events that leave it alone

  predicate Shakes(tcp: TcpSession) {
    tcp.synReceived && tcp.synAckReceived && !tcp.established
  }

  /** The handshake of a connection to the awaited host and port. */
  predicate Reaches(tcp: TcpSession, w: Awaited) {
    Shakes(tcp) && tcp.client == w.client && tcp.server == w.server && tcp.serverPort == w.port
  }

  /** The hosts of a control connection, as its session has them: FTP client, then FTP server. */
  function Ends(s: State, tcp: TcpSession): (Host, Host) {
    match Lookup(s.sessionList.entries, tcp.id)
    case None => (tcp.client, tcp.server)
    case Some(i) => if i < |s.sessions| then (s.sessions[i].ftpClient, s.sessions[i].ftpServer) else ("", "")
  }

  /** The session of a control connection, or the one that will be opened for it. */
  function SessionOf(s: State, tcp: TcpSession): nat {
    match Lookup<nat, nat>(s.sessionList.entries, tcp.id)
    case Some(i) => i
    case None => |s.sessions|
  }

  function EndsOf(c: Session): (Host, Host) {
    (c.ftpClient, c.ftpServer)
  }

  // ----- Entries stay while others come and go

  lemma {:induction false} RemovedOther<K, V>(c: Config<K, V>, l: Lru<K, V>, other: K, k: K)
    requires DistinctKeys(l.entries) && k != other
    ensures var r := Removed(c, l, other, false);
            && r.pool == l.pool && |r.entries| <= |l.entries| && DistinctKeys(r.entries)
            && Lookup(r.entries, k) == Lookup(l.entries, k) && |Before(r.entries, k)| <= |Before(l.entries, k)|
  {
    hide Before, Lookup;
    RemovedEntries(c, l, other);
    LookupOther(l.entries, k, other);
    SubsetSize(Before(Without(l.entries, other), k), Before(l.entries, k));
  }

  /** Another key that is added pushes an entry back by at most one. */
  lemma {:induction false} AddedOther<K, V>(c: Config<K, V>, l: Lru<K, V>, other: K, v: V, k: K)
    requires Fixed(c) && l.pool == c.minPoolSize && |l.entries| <= l.pool && DistinctKeys(l.entries) && k != other
    ensures Lookup(l.entries, k) == None ==> Lookup(Added(c, l, other, v).entries, k) == None
    ensures Lookup(l.entries, k).Some? && |Before(l.entries, k)| + 1 < l.pool ==>
              var r := Added(c, l, other, v);
              && Lookup(r.entries, k) == Lookup(l.entries, k)
              && |Before(r.entries, k)| <= |Before(l.entries, k)| + 1
  {
    hide Front, Before, Lookup, Added;
    FixedAdd(c, l, other, v);
    var es := l.entries;
    if Lookup(es, k) == None {
      FrontAbsent(es, l.pool, other, v, k);
    } else if |Before(es, k)| + 1 < l.pool {
      FrontKeeps(es, l.pool, other, v, k);
      SubsetSize(Before(Front(es, l.pool, other, v), k), Before(es, k) + {other});
    }
  }

  // ----- The parts of an event

  /** The handshake takes a transfer that is pending without a client port. */
  predicate Takes(s: State, tcp: TcpSession) {
    && Shakes(tcp)
    && Lookup(s.pendingList.entries, Key(tcp.client, Some(tcp.clientPort), tcp.server, Some(tcp.serverPort))) == None
    && Lookup(s.pendingList.entries, Key(tcp.client, None, tcp.server, Some(tcp.serverPort))) != None
  }

  ghost function InFront(s: State, w: Awaited): nat {
    |Before(s.pendingList.entries, OpenKey(w))|
  }

  ghost function OpenedSince(s: State, w: Awaited): nat {
    |Before(s.sessionList.entries, w.id)|
  }

  /** What a handshake changes: at most one transfer, found under one of the two keys. */
  lemma {:induction false} HandshakeChanges(s: State, tcp: TcpSession)
    requires Inv(s)
    ensures var r := Handshake(s, tcp).0;
            && r.sessionList == s.sessionList && r.sessions == s.sessions && r.assemblers == s.assemblers
            && |r.transfers| == |s.transfers|
            && forall t | 0 <= t < |s.transfers| && r.transfers[t] != s.transfers[t] ::
                 var u := s.transfers[t];
                 && Shakes(tcp) && u.client == tcp.client && u.server == tcp.server && u.serverPort == tcp.serverPort
                 && (u.clientPort == -1 || u.clientPort == tcp.clientPort)
                 && r.transfers[t] == u.(clientPort := tcp.clientPort, established := true)
  {
    hide Added, Removed, Lookup;
    var key1 := GetKey(tcp.client, tcp.clientPort, tcp.server, tcp.serverPort);
    var key2 := GetKey(tcp.client, UNKNOWN, tcp.server, tcp.serverPort);
    LookupFinds(s.pendingList.entries, key1);
    LookupFinds(s.pendingList.entries, key2);
    if Shakes(tcp) {
      match Lookup(s.pendingList.entries, key1) {
        case Some(t) => assert Entry(key1, t) in s.pendingList.entries && s.transfers[t].Key() == key1;
        case None =>
          match Lookup(s.pendingList.entries, key2) {
            case None =>
            case Some(t) => assert Entry(key2, t) in s.pendingList.entries && s.transfers[t].Key() == key2;
          }
      }
    }
  }

  lemma {:induction false} HandshakeKnown(s: State, w: Awaited, wish: Option<Wish>, connected: bool, tcp: TcpSession)
    requires Known(s, w, wish, connected) && (connected || !Reaches(tcp, w))
    ensures Known(Handshake(s, tcp).0, w, wish, connected)
  {
    hide Inv, Handshake;
    HandshakeInv(s, tcp);
    HandshakeChanges(s, tcp);
  }

  lemma {:induction false} HandshakeLists(s: State, tcp: TcpSession)
    requires Inv(s)
    ensures Sized(s)
    ensures var r, exact, open := Handshake(s, tcp).0.pendingList,
                                  Key(tcp.client, Some(tcp.clientPort), tcp.server, Some(tcp.serverPort)),
                                  Key(tcp.client, None, tcp.server, Some(tcp.serverPort));
            if Takes(s, tcp) then
              && Lookup(s.pendingList.entries, open).Some?
              && 0 <= Removed(PENDING_CONFIG, s.pendingList, open, false).pool
              && r == Added(PENDING_CONFIG, Removed(PENDING_CONFIG, s.pendingList, open, false), exact,
                            Lookup(s.pendingList.entries, open).value)
            else r == s.pendingList
  {
    hide Added, Lookup;
    var open := GetKey(tcp.client, UNKNOWN, tcp.server, tcp.serverPort);
    LookupFinds(s.pendingList.entries, open);
    if Takes(s, tcp) {
      var t := Lookup(s.pendingList.entries, open).value;
      assert Entry(open, t) in s.pendingList.entries && s.transfers[t].Key() == open;
    }
  }

  lemma KnownMeans(s: State, w: Awaited, wish: Option<Wish>, connected: bool)
    requires Known(s, w, wish, connected)
    ensures Inv(s) && Sized(s) && Closed(s) && w.session < |s.sessions| && w.transfer < |s.transfers|
    ensures s.sessions[w.session].pending == Some(w.transfer)
    ensures s.transfers[w.transfer] == Recorded(w, wish, connected) && s.transfers[w.transfer].session == w.session
    ensures Lookup(s.sessionList.entries, w.id) == Some(w.session)
  {}

  /** A handshake with another host or port pushes the transfer back by at most one. */
  lemma {:induction false} HandshakeElsewhere(s: State, w: Awaited, wish: Option<Wish>, tcp: TcpSession)
    requires Waiting(s, w, wish) && !Reaches(tcp, w) && InFront(s, w) + (if Takes(s, tcp) then 1 else 0) < 20
    ensures var r := Handshake(s, tcp).0;
            Waiting(r, w, wish) && InFront(r, w) <= InFront(s, w) + if Takes(s, tcp) then 1 else 0
  {
    hide Handshake, Added, Removed, Lookup, Before, Known, Inv;
    KnownMeans(s, w, wish, false);
    HandshakeKnown(s, w, wish, false, tcp);
    HandshakeLists(s, tcp);
    if Takes(s, tcp) {
      var exact := Key(tcp.client, Some(tcp.clientPort), tcp.server, Some(tcp.serverPort));
      var open := Key(tcp.client, None, tcp.server, Some(tcp.serverPort));
      var removed := Removed(PENDING_CONFIG, s.pendingList, open, false);
      var v := Lookup(s.pendingList.entries, open).value;
      RemovedOther(PENDING_CONFIG, s.pendingList, open, OpenKey(w));
      RemovedOther(PENDING_CONFIG, s.pendingList, open, ExactKey(w));
      AddedOther(PENDING_CONFIG, removed, exact, v, OpenKey(w));
      AddedOther(PENDING_CONFIG, removed, exact, v, ExactKey(w));
    }
  }

  lemma {:induction false} BehindStays<K, V>(es: seq<Entry<K, V>>, other: K, k: K)
    requires DistinctKeys(es) && k != other && other !in Before(es, k)
    ensures Before(Without(es, other), k) == Before(es, k)
    decreases es
  {
    if es != [] && es[0].key != k {
      BehindStays(es[1..], other, k);
    }
  }

  /** The handshake of a transfer that waits behind puts it in front, just as an announcement does. */
  lemma {:induction false} HandshakePushes(s: State, w: Awaited, tcp: TcpSession)
    requires Waiting(s, w, None) && !Reaches(tcp, w) && Takes(s, tcp) && InFront(s, w) < 19
    requires Key(tcp.client, None, tcp.server, Some(tcp.serverPort)) !in Before(s.pendingList.entries, OpenKey(w))
    ensures var exact := Key(tcp.client, Some(tcp.clientPort), tcp.server, Some(tcp.serverPort));
            Before(Handshake(s, tcp).0.pendingList.entries, OpenKey(w))
            == Before(s.pendingList.entries, OpenKey(w)) + {exact}
  {
    hide Handshake, Added, Lookup, Known, Inv;
    KnownMeans(s, w, None, false);
    HandshakeLists(s, tcp);
    var exact := Key(tcp.client, Some(tcp.clientPort), tcp.server, Some(tcp.serverPort));
    var open := Key(tcp.client, None, tcp.server, Some(tcp.serverPort));
    var es := s.pendingList.entries;
    var v := Lookup(es, open).value;
    BehindStays(es, open, OpenKey(w));
    RemovedOther(PENDING_CONFIG, s.pendingList, open, OpenKey(w));
    RemovedOther(PENDING_CONFIG, s.pendingList, open, exact);
    var removed := Removed(PENDING_CONFIG, s.pendingList, open, false);
    FixedAdd(PENDING_CONFIG, removed, exact, v);
    PushedInFront(removed.entries, exact, v, OpenKey(w));
  }

  /** A key that is new goes in front of all others. */
  lemma {:induction false} PushedInFront<K, V>(es: seq<Entry<K, V>>, other: K, v: V, k: K)
    requires DistinctKeys(es) && k != other && Lookup(es, k).Some? && Lookup(es, other) == None
    requires |es| <= 20 && |Before(es, k)| < 19
    ensures Before(Front(es, 20, other, v), k) == Before(es, k) + {other}
  {
    hide Lookup;
    var es' := [Entry(other, v)] + es;
    LookupWithout(es, other);
    assert es'[1..] == es;
    FrontDistinct(es, other, v);
    assert Lookup(es', k).Some? by { LookupTail(es', k); }
    if |es'| > 20 {
      LookupPrefix(es', 20, k);
    }
  }

  lemma LookupTail<K, V>(es: seq<Entry<K, V>>, k: K)
    requires es != [] && es[0].key != k && Lookup(es[1..], k).Some?
    ensures Lookup(es, k).Some?
  {}

  /** A session that is opened pushes the others back by one. */
  lemma {:induction false} OpenElsewhere(s: State, w: Awaited, wish: Option<Wish>, connected: bool, tcp: TcpSession)
    requires Known(s, w, wish, connected)
    requires OpenedSince(s, w) + (if Lookup(s.sessionList.entries, tcp.id) == None then 1 else 0) < 100
    ensures var (r, j) := OpenSession(s, tcp);
            && Known(r, w, wish, connected) && j < |r.sessions| && (j == w.session <==> tcp.id == w.id)
            && OpenedSince(r, w) <= OpenedSince(s, w) + (if Lookup(s.sessionList.entries, tcp.id) == None then 1 else 0)
            && r.pendingList == s.pendingList && r.assemblers == s.assemblers
            && EndsOf(r.sessions[j]) == Ends(s, tcp)
  {
    hide Added, Lookup, Before;
    OpenSessionInv(s, tcp);
    LookupFinds(s.sessionList.entries, tcp.id);
    LookupFinds(s.sessionList.entries, w.id);
    match Lookup(s.sessionList.entries, tcp.id) {
      case Some(j) =>
        assert Entry(tcp.id, j) in s.sessionList.entries && Entry(w.id, w.session) in s.sessionList.entries;
      case None =>
        AddedOther(SESSION_CONFIG, s.sessionList, tcp.id, |s.sessions|, w.id);
    }
  }

  /** Commands and replies on another control connection, or without effect on this one. */
  predicate Silent(ftp: FtpPacket) {
    && !Announces(ftp)
    && (ftp.Request? ==> ftp.command != "STOR" && ftp.command != "RETR")
  }

  lemma {:induction false} ControlKnown(s: State, w: Awaited, wish: Option<Wish>, connected: bool, j: nat,
                                        ftp: FtpPacket)
    requires Known(s, w, wish, connected) && j < |s.sessions| && (j == w.session ==> Silent(ftp))
    ensures Known(Control(s, j, ftp), w, wish, connected)
    ensures Control(s, j, ftp).sessionList == s.sessionList
    ensures Silent(ftp) ==> Control(s, j, ftp) == s
  {
    hide TryGetPort, AddressPart, Added, Removed, Lookup;
    ControlInv(s, j, ftp);
  }

  /** What a control event announces, under the key it is pending with. */
  function AnnouncedKey(ends: (Host, Host), ftp: FtpPacket): Option<Key> {
    var (ftpClient, ftpServer) := ends;
    match ftp
    case Request(command, argument) =>
      if command == "PORT" && TryGetPort(argument).Some? then
        Some(Key(ftpServer, None, ftpClient, Some(TryGetPort(argument).value)))
      else None
    case Reply(code, argument) =>
      if code == 227 && TryGetPort(AddressPart(argument)).Some? then
        Some(Key(ftpClient, None, ftpServer, Some(TryGetPort(AddressPart(argument)).value)))
      else None
  }

  lemma {:induction false} ControlLists(s: State, j: nat, ftp: FtpPacket)
    requires Inv(s) && j < |s.sessions|
    ensures Sized(s)
    ensures var r, k := Control(s, j, ftp), AnnouncedKey(EndsOf(s.sessions[j]), ftp);
            if k.None? then r.pendingList == s.pendingList
            else
              && 0 <= Removed(PENDING_CONFIG, s.pendingList, k.value, false).pool
              && r.pendingList == Added(PENDING_CONFIG, Removed(PENDING_CONFIG, s.pendingList, k.value, false), k.value,
                                        |s.transfers|)
  {
    hide TryGetPort, AddressPart, Added;
  }

  lemma {:induction false} ControlElsewhere(s: State, w: Awaited, wish: Option<Wish>, j: nat, ftp: FtpPacket)
    requires Waiting(s, w, wish) && j < |s.sessions| && (j == w.session ==> Silent(ftp))
    requires AnnouncedKey(EndsOf(s.sessions[j]), ftp) != Some(OpenKey(w))
    requires InFront(s, w) + (if AnnouncedKey(EndsOf(s.sessions[j]), ftp).Some? then 1 else 0) < 20
    ensures var r := Control(s, j, ftp);
            && Waiting(r, w, wish)
            && InFront(r, w) <= InFront(s, w) + if AnnouncedKey(EndsOf(s.sessions[j]), ftp).Some? then 1 else 0
  {
    hide Control, Added, Removed, Lookup, Before, Known, Inv, AnnouncedKey, Silent;
    KnownMeans(s, w, wish, false);
    ControlKnown(s, w, wish, false, j, ftp);
    ControlLists(s, j, ftp);
    var k := AnnouncedKey(EndsOf(s.sessions[j]), ftp);
    if k.Some? {
      KeyIsOpen(EndsOf(s.sessions[j]), ftp);
      var removed := Removed(PENDING_CONFIG, s.pendingList, k.value, false);
      RemovedOther(PENDING_CONFIG, s.pendingList, k.value, OpenKey(w));
      RemovedOther(PENDING_CONFIG, s.pendingList, k.value, ExactKey(w));
      AddedOther(PENDING_CONFIG, removed, k.value, |s.transfers|, OpenKey(w));
      AddedOther(PENDING_CONFIG, removed, k.value, |s.transfers|, ExactKey(w));
    }
  }

  lemma KeyIsOpen(ends: (Host, Host), ftp: FtpPacket)
    ensures AnnouncedKey(ends, ftp).Some? ==> AnnouncedKey(ends, ftp).value.clientPort == None
  {
    hide TryGetPort, AddressPart;
  }

  /** Concluding leaves a transfer alone that lacks its command or its handshake. */
  lemma {:induction false} ConcludeKnown(s: State, w: Awaited, wish: Option<Wish>, connected: bool, j: nat)
    requires Known(s, w, wish, connected) && (wish == None || !connected) && j < |s.sessions|
    ensures Known(Conclude(s, j), w, wish, connected) && Conclude(s, j).sessionList == s.sessionList
  {
    hide Removed, Lookup;
    ConcludeInv(s, j);
  }

  lemma {:induction false} ConcludeWaiting(s: State, w: Awaited, wish: Option<Wish>, j: nat)
    requires Waiting(s, w, wish) && j < |s.sessions|
    ensures Waiting(Conclude(s, j), w, wish) && InFront(Conclude(s, j), w) <= InFront(s, w)
  {
    hide Removed, Lookup, Before;
    ConcludeKnown(s, w, wish, false, j);
    var p := s.sessions[j].pending;
    if p.Some? && Complete(s.transfers[p.value]) {
      var k := s.transfers[p.value].Key();
      RemovedOther(PENDING_CONFIG, s.pendingList, k, OpenKey(w));
      if k == ExactKey(w) {
        RemovedEntries(PENDING_CONFIG, s.pendingList, k);
        LookupFinds(Removed(PENDING_CONFIG, s.pendingList, k, false).entries, k);
      } else {
        RemovedOther(PENDING_CONFIG, s.pendingList, k, ExactKey(w));
      }
    }
  }

  // ----- Whole events

  /** The state after an event. */
  function Next(s: State, e: Event): (r: State)
    requires Inv(s)
    ensures Inv(r)
  {
    ProcessInv(s, e);
    Process(s, e).0
  }

  lemma {:induction false} NextParts(s: State, e: Event)
    requires Inv(s)
    ensures var (s1, data) := Handshake(s, e.tcp);
            && Inv(s1) && s1.sessionList == s.sessionList && s1.sessions == s.sessions
            && (data.Some? ==> data.value < |s1.sessions|)
            && (e.ftp == None && data == None ==> Next(s, e) == s1)
            && (e.ftp == None && data.Some? ==> Next(s, e) == Conclude(s1, data.value))
            && (e.ftp.Some? ==>
                  var (s2, i) := OpenSession(s1, e.tcp);
                  && Inv(s2) && i < |s2.sessions|
                  && Inv(Control(s2, i, e.ftp.value)) && i < |Control(s2, i, e.ftp.value).sessions|
                  && Next(s, e) == Conclude(Control(s2, i, e.ftp.value), i))
  {
    hide Handshake, OpenSession, Control, Conclude, Inv;
    InvMeans(s);
    HandshakeInv(s, e.tcp);
    HandshakeChanges(s, e.tcp);
    var s1 := Handshake(s, e.tcp).0;
    InvMeans(s1);
    if e.ftp.Some? {
      OpenSessionInv(s1, e.tcp);
      var (s2, i) := OpenSession(s1, e.tcp);
      InvMeans(s2);
      ControlInv(s2, i, e.ftp.value);
      InvMeans(Control(s2, i, e.ftp.value));
    }
  }

  /** Nothing is announced or asked for on the control connection of the transfer. */
  predicate Silence(w: Awaited, e: Event) {
    e.ftp.Some? && e.tcp.id == w.id ==> Silent(e.ftp.value)
  }

  /** Nothing reaches the awaited port, and it is not announced again for the same hosts. */
  predicate Elsewhere(s: State, w: Awaited, e: Event) {
    && !Reaches(e.tcp, w)
    && (e.ftp.Some? ==> AnnouncedKey(Ends(s, e.tcp), e.ftp.value) != Some(OpenKey(w)))
  }

  /** How many transfers the event puts to the front of the pending list. */
  function Pushes(s: State, e: Event): nat {
    (if Takes(s, e.tcp) then 1 else 0)
    + (if e.ftp.Some? && AnnouncedKey(Ends(s, e.tcp), e.ftp.value).Some? then 1 else 0)
  }

  /** How many sessions the event opens. */
  function Opens(s: State, e: Event): nat {
    if e.ftp.Some? && Lookup(s.sessionList.entries, e.tcp.id) == None then 1 else 0
  }

  lemma {:induction false} WaitingStep(s: State, w: Awaited, wish: Option<Wish>, e: Event)
    requires Waiting(s, w, wish) && Silence(w, e) && Elsewhere(s, w, e)
    requires InFront(s, w) + Pushes(s, e) < 20 && OpenedSince(s, w) + Opens(s, e) < 100
    ensures Waiting(Next(s, e), w, wish)
    ensures InFront(Next(s, e), w) <= InFront(s, w) + Pushes(s, e)
    ensures OpenedSince(Next(s, e), w) <= OpenedSince(s, w) + Opens(s, e)
  {
    hide Handshake, OpenSession, Control, Conclude, Inv, Known, AnnouncedKey, Takes, Reaches, Silent, Next, Lookup,
         Before;
    KnownMeans(s, w, wish, false);
    NextParts(s, e);
    HandshakeElsewhere(s, w, wish, e.tcp);
    var (s1, data) := Handshake(s, e.tcp);
    InvMeans(s1);
    if e.ftp.Some? {
      OpenElsewhere(s1, w, wish, false, e.tcp);
      var (s2, i) := OpenSession(s1, e.tcp);
      InvMeans(s2);
      ControlElsewhere(s2, w, wish, i, e.ftp.value);
      ControlKnown(s2, w, wish, false, i, e.ftp.value);
      var s3 := Control(s2, i, e.ftp.value);
      ConcludeWaiting(s3, w, wish, i);
      ConcludeKnown(s3, w, wish, false, i);
    } else if data.Some? {
      ConcludeWaiting(s1, w, wish, data.value);
      ConcludeKnown(s1, w, wish, false, data.value);
    }
  }

  /** Once it is connected, only its own control connection matters. */
  lemma {:induction false} ConnectedStep(s: State, w: Awaited, e: Event)
    requires Known(s, w, None, true) && Silence(w, e) && OpenedSince(s, w) + Opens(s, e) < 100
    ensures Known(Next(s, e), w, None, true)
    ensures OpenedSince(Next(s, e), w) <= OpenedSince(s, w) + Opens(s, e)
  {
    hide Handshake, OpenSession, Control, Conclude, Inv, Known, Silent, Next, Lookup, Before;
    KnownMeans(s, w, None, true);
    NextParts(s, e);
    HandshakeKnown(s, w, None, true, e.tcp);
    var (s1, data) := Handshake(s, e.tcp);
    InvMeans(s1);
    if e.ftp.Some? {
      OpenElsewhere(s1, w, None, true, e.tcp);
      var (s2, i) := OpenSession(s1, e.tcp);
      InvMeans(s2);
      ControlKnown(s2, w, None, true, i, e.ftp.value);
      ConcludeKnown(Control(s2, i, e.ftp.value), w, None, true, i);
    } else if data.Some? {
      ConcludeKnown(s1, w, None, true, data.value);
    }
  }

  // ----- The announcement

  /** A PORT command, or a 227 reply with any text without digits around the address. */
  datatype Offer =
    | Active(h1: string, h2: string, h3: string, h4: string, high: nat, low: nat)
    | Passive(before: string, h1: string, h2: string, h3: string, h4: string, high: nat, low: nat, after: string)

  predicate NoDigits(s: string) {
    forall c | c in s :: !IsDigit(c)
  }

  predicate GoodOffer(o: Offer) {
    && AllDigits(o.h1) && AllDigits(o.h2) && AllDigits(o.h3) && AllDigits(o.h4) && o.high < 256 && o.low < 256
    && (o.Passive? ==> NoDigits(o.before) && NoDigits(o.after))
  }

  function OfferPacket(o: Offer): FtpPacket {
    match o
    case Active(h1, h2, h3, h4, high, low) => Request("PORT", PortArgument(h1, h2, h3, h4, high, low))
    case Passive(before, h1, h2, h3, h4, high, low, after) =>
      Reply(227, before + PortArgument(h1, h2, h3, h4, high, low) + after)
  }

  /**
   What an announcement makes await: after PORT the FTP server connects to the FTP client, after a 227
   reply the FTP client to the FTP server.
   */
  function AwaitedFor(s: State, a: Event, o: Offer, clientPort: nat): (w: Awaited)
    ensures w.id == a.tcp.id && w.transfer == |s.transfers| && w.clientPort == clientPort
  {
    var (ftpClient, ftpServer) := Ends(s, a.tcp);
    var session := SessionOf(s, a.tcp);
    if o.Active? then
      Awaited(a.tcp.id, session, ftpServer, ftpClient, o.high * 256 + o.low, false, |s.transfers|, clientPort)
    else
      Awaited(a.tcp.id, session, ftpClient, ftpServer, o.high * 256 + o.low, true, |s.transfers|, clientPort)
  }

  lemma {:induction false} PortArgumentEnds(h1: string, h2: string, h3: string, h4: string, high: nat, low: nat)
    requires AllDigits(h1)
    ensures var s := PortArgument(h1, h2, h3, h4, high, low); s != "" && IsDigit(s[0]) && IsDigit(s[|s| - 1])
  {
    hide Decimal;
    DigitsDecimal(low);
    var s, d := PortArgument(h1, h2, h3, h4, high, low), Decimal(low);
    assert s[0] == h1[0] && h1[0] in h1;
    assert s[|s| - 1] == d[|d| - 1] && d[|d| - 1] in d;
  }

  lemma {:induction false} OfferRead(o: Offer)
    requires GoodOffer(o)
    ensures match OfferPacket(o)
            case Request(command, argument) => TryGetPort(argument) == Some(o.high * 256 + o.low)
            case Reply(code, argument) => TryGetPort(AddressPart(argument)) == Some(o.high * 256 + o.low)
  {
    hide TryGetPort, AddressPart, PortArgument, IsDigit, AllDigits;
    PortRead(o.h1, o.h2, o.h3, o.h4, o.high, o.low);
    if o.Passive? {
      PortArgumentEnds(o.h1, o.h2, o.h3, o.h4, o.high, o.low);
      AddressFound(o.before, PortArgument(o.h1, o.h2, o.h3, o.h4, o.high, o.low), o.after);
    }
  }

  /** The session of a control connection is found or opened, with its hosts. */
  lemma {:induction false} OpenOwn(s: State, tcp: TcpSession)
    requires Inv(s)
    ensures Sized(s) && Closed(s)
    ensures var (r, i) := OpenSession(s, tcp);
            && Inv(r) && i < |r.sessions| && Lookup(r.sessionList.entries, tcp.id) == Some(i)
            && EndsOf(r.sessions[i]) == Ends(s, tcp)
            && i == SessionOf(s, tcp)
            && r.transfers == s.transfers && r.pendingList == s.pendingList && r.assemblers == s.assemblers
            && (Lookup(s.sessionList.entries, tcp.id) == None ==> Before(r.sessionList.entries, tcp.id) == {})
            && (Lookup(s.sessionList.entries, tcp.id) != None ==> r.sessionList == s.sessionList)
  {
    hide Added;
    OpenSessionInv(s, tcp);
    LookupFinds(s.sessionList.entries, tcp.id);
    match Lookup(s.sessionList.entries, tcp.id) {
      case Some(i) => assert Entry(tcp.id, i) in s.sessionList.entries;
      case None =>
        FixedAdd(SESSION_CONFIG, s.sessionList, tcp.id, |s.sessions|);
        FrontFirst(s.sessionList.entries, 100, tcp.id, |s.sessions|);
    }
  }

  /** The exact key only appears with a handshake from the very port. */
  lemma {:induction false} HandshakeOtherPort(s: State, w: Awaited, tcp: TcpSession)
    requires Inv(s) && Lookup(s.pendingList.entries, ExactKey(w)) == None
    requires Reaches(tcp, w) ==> tcp.clientPort != w.clientPort
    ensures Lookup(Handshake(s, tcp).0.pendingList.entries, ExactKey(w)) == None
  {
    hide Handshake, Added, Removed, Lookup;
    HandshakeLists(s, tcp);
    if Takes(s, tcp) {
      var exact := Key(tcp.client, Some(tcp.clientPort), tcp.server, Some(tcp.serverPort));
      var open := Key(tcp.client, None, tcp.server, Some(tcp.serverPort));
      RemovedOther(PENDING_CONFIG, s.pendingList, open, ExactKey(w));
      AddedOther(PENDING_CONFIG, Removed(PENDING_CONFIG, s.pendingList, open, false), exact,
                 Lookup(s.pendingList.entries, open).value, ExactKey(w));
    }
  }

  /** What an announcement records and puts to the front of the pending list. */
  lemma {:induction false} ControlAnnounces(s: State, w: Awaited, i: nat, o: Offer)
    requires Inv(s) && GoodOffer(o) && i < |s.sessions| && w.session == i && w.transfer == |s.transfers|
    requires Lookup(s.sessionList.entries, w.id) == Some(i) && Lookup(s.pendingList.entries, ExactKey(w)) == None
    requires w.port == o.high * 256 + o.low && w.passive == o.Passive?
    requires EndsOf(s.sessions[i]) == if w.passive then (w.client, w.server) else (w.server, w.client)
    ensures Waiting(Control(s, i, OfferPacket(o)), w, None) && InFront(Control(s, i, OfferPacket(o)), w) == 0
    ensures Control(s, i, OfferPacket(o)).sessionList == s.sessionList
  {
    hide TryGetPort, AddressPart, PortArgument, Added, Removed, Lookup, Before, OfferPacket, GoodOffer;
    var ftp := OfferPacket(o);
    OfferRead(o);
    OfferKind(o);
    ControlInv(s, i, ftp);
    var r := Control(s, i, ftp);
    var k := OpenKey(w);
    assert r.transfers[|s.transfers|] == Recorded(w, None, false);
    var removed := Removed(PENDING_CONFIG, s.pendingList, k, false);
    RemovedOther(PENDING_CONFIG, s.pendingList, k, ExactKey(w));
    assert r.pendingList == Added(PENDING_CONFIG, removed, k, |s.transfers|);
    AddedOther(PENDING_CONFIG, removed, k, |s.transfers|, ExactKey(w));
    FixedAdd(PENDING_CONFIG, removed, k, |s.transfers|);
    FrontFirst(removed.entries, 20, k, |s.transfers|);
  }

  lemma OfferKind(o: Offer)
    ensures match o
            case Active(_, _, _, _, _, _) => OfferPacket(o).Request? && OfferPacket(o).command == "PORT"
            case Passive(_, _, _, _, _, _, _, _) => OfferPacket(o).Reply? && OfferPacket(o).code == 227
  {}

  /** An announcement makes its transfer wait, first in the pending list. */
  lemma {:induction false} AnnounceStep(s: State, a: Event, o: Offer, clientPort: nat)
    requires Inv(s) && GoodOffer(o) && a.ftp == Some(OfferPacket(o))
    requires var w := AwaitedFor(s, a, o, clientPort);
             && Lookup(s.pendingList.entries, ExactKey(w)) == None
             && (Reaches(a.tcp, w) ==> a.tcp.clientPort != clientPort)
    ensures var w := AwaitedFor(s, a, o, clientPort);
            && Waiting(Next(s, a), w, None) && InFront(Next(s, a), w) == 0
            && (Lookup(s.sessionList.entries, a.tcp.id) == None ==> OpenedSince(Next(s, a), w) == 0)
            && (Lookup(s.sessionList.entries, a.tcp.id) != None ==> OpenedSince(Next(s, a), w) == OpenedSince(s, w))
  {
    hide Handshake, OpenSession, Control, Inv, Lookup, Before, Next, Known, GoodOffer, OfferPacket, Reaches, Ends;
    var w := AwaitedFor(s, a, o, clientPort);
    InvMeans(s);
    NextParts(s, a);
    HandshakeOtherPort(s, w, a.tcp);
    HandshakeChanges(s, a.tcp);
    var (s1, data) := Handshake(s, a.tcp);
    SameEnds(s, s1, a.tcp);
    OpenOwn(s1, a.tcp);
    var (s2, i) := OpenSession(s1, a.tcp);
    InvMeans(s2);
    ControlAnnounces(s2, w, i, o);
    var s3 := Control(s2, i, OfferPacket(o));
    KnownMeans(s3, w, None, false);
    assert Conclude(s3, i) == s3;
  }

  lemma SameEnds(s: State, r: State, tcp: TcpSession)
    requires r.sessionList == s.sessionList && r.sessions == s.sessions
    ensures Ends(r, tcp) == Ends(s, tcp)
  {}

  // ----- The command and the handshake

  /** A command that is the first gives the direction; the transfer goes on waiting. */
  lemma {:induction false} CommandStep(s: State, w: Awaited, wish: Wish, e: Event)
    requires Waiting(s, w, None) && e.ftp == Some(CommandOf(wish)) && e.tcp.id == w.id && !Reaches(e.tcp, w)
    requires InFront(s, w) + Pushes(s, e) < 20 && OpenedSince(s, w) < 100
    ensures Waiting(Next(s, e), w, Some(wish))
    ensures InFront(Next(s, e), w) <= InFront(s, w) + Pushes(s, e)
    ensures OpenedSince(Next(s, e), w) <= OpenedSince(s, w)
  {
    hide Handshake, OpenSession, Control, Conclude, Inv, Known, Reaches, Next, Lookup, Before, Recorded;
    KnownMeans(s, w, None, false);
    NextParts(s, e);
    HandshakeElsewhere(s, w, None, e.tcp);
    var (s1, data) := Handshake(s, e.tcp);
    InvMeans(s1);
    OpenElsewhere(s1, w, None, false, e.tcp);
    var (s2, i) := OpenSession(s1, e.tcp);
    ControlDirects(s2, w, None, wish, false);
    var s3 := Control(s2, i, e.ftp.value);
    ConcludeWaiting(s3, w, Some(wish), i);
    ConcludeKnown(s3, w, Some(wish), false, i);
  }

  lemma {:induction false} ControlDirects(s: State, w: Awaited, before: Option<Wish>, wish: Wish, connected: bool)
    requires Known(s, w, before, connected)
    ensures Sized(s) && Closed(s) && w.session < |s.sessions|
    ensures var r := Control(s, w.session, CommandOf(wish));
            && Known(r, w, Some(wish), connected)
            && r.pendingList == s.pendingList && r.sessionList == s.sessionList && r.assemblers == s.assemblers
  {
    hide Lookup;
    ControlInv(s, w.session, CommandOf(wish));
  }

  /** A handshake that comes first connects the transfer. */
  lemma {:induction false} ConnectStep(s: State, w: Awaited, wish: Option<Wish>, tcp: TcpSession)
    requires Waiting(s, w, wish) && Reaches(tcp, w) && tcp.clientPort == w.clientPort
    ensures var (r, data) := Handshake(s, tcp);
            && Known(r, w, wish, true) && data == Some(w.session)
            && r.assemblers == s.assemblers && OpenedSince(r, w) == OpenedSince(s, w)
  {
    hide Added, Removed, Lookup, Before;
    HandshakeInv(s, tcp);
  }

  /** The assembler made for a transfer that was connected and asked for. */
  function Made(w: Awaited, wish: Wish): Assembler {
    if wish.Retrieve? == w.passive then
      Assembler(w.transfer, w.server, w.port, w.client, w.clientPort, CommandOf(wish).command, wish.file, -1, 0)
    else
      Assembler(w.transfer, w.client, w.clientPort, w.server, w.port, CommandOf(wish).command, wish.file, -1, 0)
  }

  lemma {:induction false} ConcludeMakes(s: State, w: Awaited, wish: Wish)
    requires Known(s, w, Some(wish), true)
    ensures Closed(s) && Conclude(s, w.session).assemblers == s.assemblers + [Made(w, wish)]
    ensures Forgotten(Conclude(s, w.session), w)
  {
    hide Lookup;
    assert s.transfers[w.transfer].Key() == ExactKey(w);
    WithoutHasNot(s.pendingList.entries, ExactKey(w));
  }

  /** Neither the session nor the pending list has the transfer any more. */
  ghost predicate Forgotten(s: State, w: Awaited) {
    && w.session < |s.sessions| && s.sessions[w.session].pending == None
    && Lookup(s.pendingList.entries, ExactKey(w)) == None
  }

  /** The handshake of a transfer that was asked for makes its assembler. */
  lemma {:induction false} HandshakeMakes(s: State, w: Awaited, wish: Wish, e: Event)
    requires Waiting(s, w, Some(wish)) && e.ftp == None && Reaches(e.tcp, w) && e.tcp.clientPort == w.clientPort
    ensures Next(s, e).assemblers == s.assemblers + [Made(w, wish)] && Forgotten(Next(s, e), w)
  {
    hide Handshake, Conclude, Inv, Known, Reaches, Next, Lookup, Before;
    KnownMeans(s, w, Some(wish), false);
    NextParts(s, e);
    ConnectStep(s, w, Some(wish), e.tcp);
    ConcludeMakes(Handshake(s, e.tcp).0, w, wish);
  }

  lemma {:induction false} HandshakeConnects(s: State, w: Awaited, e: Event)
    requires Waiting(s, w, None) && e.ftp == None && Reaches(e.tcp, w) && e.tcp.clientPort == w.clientPort
    ensures Known(Next(s, e), w, None, true) && OpenedSince(Next(s, e), w) <= OpenedSince(s, w)
  {
    hide Handshake, Conclude, Inv, Known, Reaches, Next, Lookup, Before;
    KnownMeans(s, w, None, false);
    NextParts(s, e);
    ConnectStep(s, w, None, e.tcp);
    ConcludeKnown(Handshake(s, e.tcp).0, w, None, true, w.session);
  }

  /** The command for a transfer that is connected makes its assembler. */
  lemma {:induction false} CommandMakes(s: State, w: Awaited, wish: Wish, e: Event)
    requires Known(s, w, None, true) && e.ftp == Some(CommandOf(wish)) && e.tcp.id == w.id && OpenedSince(s, w) < 100
    ensures Next(s, e).assemblers == s.assemblers + [Made(w, wish)] && Forgotten(Next(s, e), w)
  {
    hide Handshake, OpenSession, Control, Conclude, Inv, Known, Next, Lookup, Before, CommandOf;
    KnownMeans(s, w, None, true);
    NextParts(s, e);
    HandshakeKnown(s, w, None, true, e.tcp);
    HandshakeChanges(s, e.tcp);
    var s1 := Handshake(s, e.tcp).0;
    InvMeans(s1);
    OpenElsewhere(s1, w, None, true, e.tcp);
    var (s2, i) := OpenSession(s1, e.tcp);
    ControlDirects(s2, w, None, wish, true);
    ConcludeMakes(Control(s2, i, e.ftp.value), w, wish);
  }

  // ----- Whole runs

  function After(s: State, es: seq<Event>): (r: State)
    requires Inv(s)
    ensures Inv(r)
  {
    RunInv(s, es);
    FtpPacketHandler.Run(s, es)
  }

  ghost predicate Undisturbed(s: State, w: Awaited, es: seq<Event>)
    requires Inv(s)
    decreases es
  {
    es == [] || (Silence(w, es[0]) && Elsewhere(s, w, es[0]) && Undisturbed(Next(s, es[0]), w, es[1..]))
  }

  function PushesIn(s: State, es: seq<Event>): nat
    requires Inv(s)
    decreases es
  {
    if es == [] then 0 else Pushes(s, es[0]) + PushesIn(Next(s, es[0]), es[1..])
  }

  function OpensIn(s: State, es: seq<Event>): nat
    requires Inv(s)
    decreases es
  {
    if es == [] then 0 else Opens(s, es[0]) + OpensIn(Next(s, es[0]), es[1..])
  }

  lemma {:induction false} WaitingRun(s: State, w: Awaited, wish: Option<Wish>, es: seq<Event>)
    requires Waiting(s, w, wish) && Undisturbed(s, w, es)
    requires InFront(s, w) + PushesIn(s, es) < 20 && OpenedSince(s, w) + OpensIn(s, es) < 100
    ensures Waiting(After(s, es), w, wish)
    ensures InFront(After(s, es), w) <= InFront(s, w) + PushesIn(s, es)
    ensures OpenedSince(After(s, es), w) <= OpenedSince(s, w) + OpensIn(s, es)
    decreases es
  {
    hide Known, Inv, Process, Silence, Elsewhere, Pushes, Opens, Lookup, Before;
    KnownMeans(s, w, wish, false);
    if es != [] {
      WaitingStep(s, w, wish, es[0]);
      WaitingRun(Next(s, es[0]), w, wish, es[1..]);
    }
  }

  lemma {:induction false} ConnectedRun(s: State, w: Awaited, es: seq<Event>)
    requires Known(s, w, None, true) && forall e | e in es :: Silence(w, e)
    requires OpenedSince(s, w) + OpensIn(s, es) < 100
    ensures Known(After(s, es), w, None, true)
    ensures OpenedSince(After(s, es), w) <= OpenedSince(s, w) + OpensIn(s, es)
    decreases es
  {
    hide Known, Inv, Process, Silence, Opens, Lookup, Before;
    KnownMeans(s, w, None, true);
    if es != [] {
      assert es[0] in es;
      ConnectedStep(s, w, es[0]);
      ConnectedRun(Next(s, es[0]), w, es[1..]);
    }
  }

  /** What lies between the announcement and the last event, in the two orders. */
  datatype Course = Course(announcement: Event, es: seq<Event>, middle: Event, fs: seq<Event>, last: Event)

  function Earlier(c: Course): seq<Event> {
    [c.announcement] + c.es + [c.middle] + c.fs
  }

  /** Neither an entry from the very port nor a handshake from it was there before. */
  ghost predicate FreshPort(s: State, a: Event, w: Awaited) {
    && Lookup(s.pendingList.entries, ExactKey(w)) == None
    && (Reaches(a.tcp, w) ==> a.tcp.clientPort != w.clientPort)
  }

  ghost predicate IsCommand(e: Event, w: Awaited, wish: Wish) {
    e.ftp == Some(CommandOf(wish)) && e.tcp.id == w.id
  }

  ghost predicate IsHandshake(e: Event, w: Awaited) {
    e.ftp == None && Reaches(e.tcp, w) && e.tcp.clientPort == w.clientPort
  }

  /** The announcement, the command, then the handshake, with fewer than 20 other transfers put in front. */
  ghost predicate CommandFirst(s: State, c: Course, w: Awaited, wish: Wish)
    requires Inv(s)
  {
    var s1 := Next(s, c.announcement);
    var s2 := After(s1, c.es);
    var s3 := Next(s2, c.middle);
    && FreshPort(s, c.announcement, w) && IsCommand(c.middle, w, wish) && IsHandshake(c.last, w)
    && Undisturbed(s1, w, c.es) && !Reaches(c.middle.tcp, w) && Undisturbed(s3, w, c.fs)
    && PushesIn(s1, c.es) + Pushes(s2, c.middle) + PushesIn(s3, c.fs) < 20
    && OpenedSince(s1, w) + OpensIn(s1, c.es) + OpensIn(s3, c.fs) < 100
  }

  /** The announcement, the handshake, then the command; only the control connection matters in between. */
  ghost predicate HandshakeFirst(s: State, c: Course, w: Awaited, wish: Wish)
    requires Inv(s)
  {
    var s1 := Next(s, c.announcement);
    var s2 := After(s1, c.es);
    var s3 := Next(s2, c.middle);
    && FreshPort(s, c.announcement, w) && IsHandshake(c.middle, w) && IsCommand(c.last, w, wish)
    && Undisturbed(s1, w, c.es) && (forall e | e in c.fs :: Silence(w, e))
    && PushesIn(s1, c.es) < 20
    && OpenedSince(s1, w) + OpensIn(s1, c.es) + OpensIn(s3, c.fs) < 100
  }

  lemma {:induction false} RunAppend(s: State, es: seq<Event>, fs: seq<Event>)
    requires Inv(s)
    ensures After(s, es + fs) == After(After(s, es), fs)
    decreases es
  {
    hide Inv, Process;
    if es == [] {
      assert es + fs == fs;
    } else {
      assert (es + fs)[1..] == es[1..] + fs;
      RunAppend(Next(s, es[0]), es[1..], fs);
    }
  }

  lemma {:induction false} RunOne(s: State, e: Event)
    requires Inv(s)
    ensures After(s, [e]) == Next(s, e)
  {
    hide Inv, Process;
    assert [e][1..] == [];
    assert After(Next(s, e), []) == Next(s, e);
  }

  lemma {:induction false} CourseStates(s: State, c: Course)
    requires Inv(s)
    ensures var s4 := After(Next(After(Next(s, c.announcement), c.es), c.middle), c.fs);
            After(s, Earlier(c)) == s4 && After(s, Earlier(c) + [c.last]) == Next(s4, c.last)
  {
    hide Inv, Process, After;
    RunAppend(s, Earlier(c), [c.last]);
    RunAppend(s, [c.announcement] + c.es + [c.middle], c.fs);
    RunAppend(s, [c.announcement] + c.es, [c.middle]);
    RunAppend(s, [c.announcement], c.es);
    RunOne(s, c.announcement);
    RunOne(After(Next(s, c.announcement), c.es), c.middle);
    RunOne(After(s, Earlier(c)), c.last);
  }

  lemma {:induction false} CourseMakes(s: State, c: Course, o: Offer, wish: Wish, clientPort: nat)
    requires Inv(s) && GoodOffer(o) && c.announcement.ftp == Some(OfferPacket(o))
    requires var w := AwaitedFor(s, c.announcement, o, clientPort);
             CommandFirst(s, c, w, wish) || HandshakeFirst(s, c, w, wish)
    ensures var w := AwaitedFor(s, c.announcement, o, clientPort);
            && After(s, Earlier(c) + [c.last]).assemblers == After(s, Earlier(c)).assemblers + [Made(w, wish)]
            && Forgotten(After(s, Earlier(c) + [c.last]), w)
            && forall a | a in After(s, Earlier(c)).assemblers :: a.transfer != w.transfer
  {
    hide Inv, Process, After, Known, Next, AwaitedFor, GoodOffer, OfferPacket, Lookup, Before, Reaches, Silence,
         Undisturbed, Pushes, PushesIn, OpensIn, CommandOf, Made;
    var w := AwaitedFor(s, c.announcement, o, clientPort);
    AnnounceStep(s, c.announcement, o, clientPort);
    var s1 := Next(s, c.announcement);
    var s2 := After(s1, c.es);
    var s3 := Next(s2, c.middle);
    WaitingRun(s1, w, None, c.es);
    if CommandFirst(s, c, w, wish) {
      CommandStep(s2, w, wish, c.middle);
      WaitingRun(s3, w, Some(wish), c.fs);
      NoneYet(After(s3, c.fs), w, Some(wish), false);
      HandshakeMakes(After(s3, c.fs), w, wish, c.last);
    } else {
      HandshakeConnects(s2, w, c.middle);
      ConnectedRun(s3, w, c.fs);
      NoneYet(After(s3, c.fs), w, None, true);
      CommandMakes(After(s3, c.fs), w, wish, c.last);
    }
    CourseStates(s, c);
  }

  lemma NoneYet(s: State, w: Awaited, wish: Option<Wish>, connected: bool)
    requires Known(s, w, wish, connected)
    ensures forall a | a in s.assemblers :: a.transfer != w.transfer
  {}

  /**
   A transfer that is announced, asked for and connected, in either order and among any other traffic,
   gives one assembler: from the FTP server for RETR and from the FTP client for STOR, with the announced
   port on the side that listened, and the port of the handshake on the other.
   */
  lemma {:induction false} TransferMade(s: State, c: Course, o: Offer, wish: Wish, clientPort: nat)
    requires Inv(s) && GoodOffer(o) && c.announcement.ftp == Some(OfferPacket(o))
    requires var w := AwaitedFor(s, c.announcement, o, clientPort);
             CommandFirst(s, c, w, wish) || HandshakeFirst(s, c, w, wish)
    ensures var (ftpClient, ftpServer) := Ends(s, c.announcement.tcp);
            var port, t := o.high * 256 + o.low, |s.transfers|;
            && (forall a | a in After(s, Earlier(c)).assemblers :: a.transfer != t)
            && Forgotten(After(s, Earlier(c) + [c.last]), AwaitedFor(s, c.announcement, o, clientPort))
            && After(s, Earlier(c) + [c.last]).assemblers
               == After(s, Earlier(c)).assemblers
                  + [match (wish, o)
                     case (Retrieve(f), Passive(_, _, _, _, _, _, _, _)) =>
                       Assembler(t, ftpServer, port, ftpClient, clientPort, "RETR", f, -1, 0)
                     case (Retrieve(f), Active(_, _, _, _, _, _)) =>
                       Assembler(t, ftpServer, clientPort, ftpClient, port, "RETR", f, -1, 0)
                     case (Store(f), Passive(_, _, _, _, _, _, _, _)) =>
                       Assembler(t, ftpClient, clientPort, ftpServer, port, "STOR", f, -1, 0)
                     case (Store(f), Active(_, _, _, _, _, _)) =>
                       Assembler(t, ftpClient, port, ftpServer, clientPort, "STOR", f, -1, 0)]
  {
    hide Inv, After, CommandFirst, HandshakeFirst, GoodOffer, OfferPacket, Ends;
    CourseMakes(s, c, o, wish, clientPort);
  }

  /** With nothing in between. */
  lemma {:induction false} CourseAlone(s: State, w: Awaited, wish: Wish, a: Event, c: Event, h: Event)
    requires Inv(s) && FreshPort(s, a, w) && OpenedSince(Next(s, a), w) == 0
    requires IsCommand(c, w, wish) && IsHandshake(h, w) && !Shakes(c.tcp)
    ensures CommandFirst(s, Course(a, [], c, [], h), w, wish) && HandshakeFirst(s, Course(a, [], h, [], c), w, wish)
  {
    hide Inv, Process, Lookup, Before, FreshPort, AnnouncedKey, Ends;
    assert forall r: State | Inv(r) :: After(r, []) == r;
    AsksNothing(wish);
    assert Pushes(Next(s, a), c) == 0;
  }

  lemma AsksNothing(wish: Wish)
    ensures forall ends :: AnnouncedKey(ends, CommandOf(wish)) == None
  {}

  lemma {:induction false} OneAnnounced(o: Offer, wish: Wish, a: Event, c: Event, h: Event)
    requires GoodOffer(o) && a.ftp == Some(OfferPacket(o)) && c.ftp == Some(CommandOf(wish)) && h.ftp == None
    ensures Announcements([a, c, h]) == 1 == Announcements([a, h, c])
  {
    hide GoodOffer, OfferPacket, TryGetPort, AddressPart;
    OfferRead(o);
    OfferKind(o);
    assert Announcements([c]) == 0 by { assert [c][1..] == []; }
    assert Announcements([h]) == 0 by { assert [h][1..] == []; }
    assert Announcements([c, h]) == 0 by { assert [c, h][1..] == [h]; }
    assert Announcements([h, c]) == 0 by { assert [h, c][1..] == [c]; }
    assert [a, c, h][1..] == [c, h] && [a, h, c][1..] == [h, c];
  }

  /** The first three events of all: on a new control connection, one assembler is made in either order. */
  lemma {:induction false} FirstTransfer(o: Offer, wish: Wish, a: Event, c: Event, h: Event)
    requires GoodOffer(o) && a.ftp == Some(OfferPacket(o)) && !Shakes(a.tcp)
    requires c.ftp == Some(CommandOf(wish)) && c.tcp.id == a.tcp.id && !Shakes(c.tcp)
    requires h.ftp == None && Shakes(h.tcp) && h.tcp.serverPort == o.high * 256 + o.low
    requires (h.tcp.client, h.tcp.server)
             == if o.Passive? then (a.tcp.client, a.tcp.server) else (a.tcp.server, a.tcp.client)
    ensures |After(Initial(), [a, c, h]).assemblers| == |After(Initial(), [a, h, c]).assemblers| == 1
  {
    hide *;
    var es, fs := [a, c, h], [a, h, c];
    AtLeastOne(o, wish, a, c, h);
    OneAnnounced(o, wish, a, c, h);
    AtMostAnnounced(es);
    AtMostAnnounced(fs);
  }

  lemma {:induction false} InitialAwaits(o: Offer, a: Event, h: Event)
    requires GoodOffer(o) && a.ftp == Some(OfferPacket(o)) && !Shakes(a.tcp)
    requires h.ftp == None && Shakes(h.tcp) && h.tcp.serverPort == o.high * 256 + o.low
    requires (h.tcp.client, h.tcp.server)
             == if o.Passive? then (a.tcp.client, a.tcp.server) else (a.tcp.server, a.tcp.client)
    ensures Inv(Initial())
    ensures var w := AwaitedFor(Initial(), a, o, h.tcp.clientPort);
            FreshPort(Initial(), a, w) && OpenedSince(Next(Initial(), a), w) == 0 && IsHandshake(h, w)
  {
    hide GoodOffer, OfferPacket, Next;
    AnnounceStep(Initial(), a, o, h.tcp.clientPort);
  }

  lemma {:induction false} AtLeastOne(o: Offer, wish: Wish, a: Event, c: Event, h: Event)
    requires GoodOffer(o) && a.ftp == Some(OfferPacket(o)) && !Shakes(a.tcp)
    requires c.ftp == Some(CommandOf(wish)) && c.tcp.id == a.tcp.id && !Shakes(c.tcp)
    requires h.ftp == None && Shakes(h.tcp) && h.tcp.serverPort == o.high * 256 + o.low
    requires (h.tcp.client, h.tcp.server)
             == if o.Passive? then (a.tcp.client, a.tcp.server) else (a.tcp.server, a.tcp.client)
    ensures Inv(Initial())
    ensures |After(Initial(), [a, c, h]).assemblers| >= 1 && |After(Initial(), [a, h, c]).assemblers| >= 1
  {
    hide Inv, Initial, After, Next, GoodOffer, OfferPacket, CommandFirst, HandshakeFirst, AwaitedFor, FreshPort,
         OpenedSince, IsHandshake, Forgotten, Ends, CommandOf, Shakes;
    InitialAwaits(o, a, h);
    var s := Initial();
    var w := AwaitedFor(s, a, o, h.tcp.clientPort);
    CourseAlone(s, w, wish, a, c, h);
    var first, second := Course(a, [], c, [], h), Course(a, [], h, [], c);
    CourseMakes(s, first, o, wish, h.tcp.clientPort);
    CourseMakes(s, second, o, wish, h.tcp.clientPort);
    assert Earlier(first) + [first.last] == [a, c, h];
    assert Earlier(second) + [second.last] == [a, h, c];
  }

  lemma {:induction false} AtMostAnnounced(es: seq<Event>)
    ensures Inv(Initial()) && |After(Initial(), es).assemblers| <= Announcements(es)
  {
    Safety(es);
  }

  // ----- Nothing that is complete is left waiting

  /** The transfer of no session but `except` has its command and its handshake. */
  ghost predicate NoneComplete(s: State, except: Option<nat>) {
    forall i: nat | i < |s.sessions| && s.sessions[i].pending.Some? && except != Some(i) ::
      s.sessions[i].pending.value < |s.transfers| && !Complete(s.transfers[s.sessions[i].pending.value])
  }

  lemma {:induction false} HandshakeCompletesOne(s: State, tcp: TcpSession)
    requires Inv(s) && NoneComplete(s, None)
    ensures NoneComplete(Handshake(s, tcp).0, Handshake(s, tcp).1)
  {
    hide Added, Removed, Lookup, RightDirections, RightHosts, RightSources;
    HandshakeInv(s, tcp);
  }

  lemma {:induction false} OpenCompletesNone(s: State, tcp: TcpSession)
    requires Inv(s) && NoneComplete(s, None)
    ensures NoneComplete(OpenSession(s, tcp).0, None)
  {
    hide Added;
  }

  lemma {:induction false} ControlCompletesOne(s: State, i: nat, ftp: FtpPacket)
    requires Inv(s) && i < |s.sessions| && NoneComplete(s, None)
    ensures NoneComplete(Control(s, i, ftp), Some(i))
  {
    hide Added, Removed, TryGetPort, AddressPart, RightDirections, RightHosts, RightSources;
  }

  lemma {:induction false} ConcludeLeavesNone(s: State, i: nat)
    requires Inv(s) && i < |s.sessions| && NoneComplete(s, Some(i))
    ensures NoneComplete(Conclude(s, i), None)
  {
    hide Removed;
  }

  /** No packet of a control connection comes in the middle of its handshake. */
  predicate Orderly(e: Event) {
    e.ftp.Some? ==> !Shakes(e.tcp)
  }

  lemma {:induction false} NextLeavesNone(s: State, e: Event)
    requires Inv(s) && NoneComplete(s, None) && Orderly(e)
    ensures NoneComplete(Next(s, e), None)
  {
    hide NoneComplete, OpenSession, Control, Conclude, Inv, Next;
    NextParts(s, e);
    InvMeans(s);
    var (s1, data) := Handshake(s, e.tcp);
    InvMeans(s1);
    HandshakeCompletesOne(s, e.tcp);
    if e.ftp.Some? {
      var (s2, i) := OpenSession(s1, e.tcp);
      InvMeans(s2);
      OpenCompletesNone(s1, e.tcp);
      ControlCompletesOne(s2, i, e.ftp.value);
      InvMeans(Control(s2, i, e.ftp.value));
      ConcludeLeavesNone(Control(s2, i, e.ftp.value), i);
    } else if data.Some? {
      ConcludeLeavesNone(s1, data.value);
    }
  }

  /** Over every run, a transfer that has its command and its handshake has got its assembler. */
  lemma {:induction false} NothingCompleteWaits(s: State, es: seq<Event>)
    requires Inv(s) && NoneComplete(s, None) && forall e | e in es :: Orderly(e)
    ensures NoneComplete(After(s, es), None)
    decreases es
  {
    hide NoneComplete, Inv, Process, Orderly;
    if es != [] {
      assert es[0] in es;
      NextLeavesNone(s, es[0]);
      NothingCompleteWaits(Next(s, es[0]), es[1..]);
    }
  }

  /** A handshake that is seen again, for a transfer that still waits for its command, changes nothing. */
  lemma {:induction false} RepeatedHandshake(s: State, e: Event)
    requires Inv(s) && NoneComplete(s, None) && e.ftp == None && Shakes(e.tcp)
    requires Lookup(s.pendingList.entries,
                    Key(e.tcp.client, Some(e.tcp.clientPort), e.tcp.server, Some(e.tcp.serverPort))).Some?
    ensures Process(s, e) == (s, true)
  {
    hide Lookup;
    var key := GetKey(e.tcp.client, e.tcp.clientPort, e.tcp.server, e.tcp.serverPort);
    LookupFinds(s.pendingList.entries, key);
    var t := Lookup(s.pendingList.entries, key).value;
    assert Entry(key, t) in s.pendingList.entries && s.transfers[t].Key() == key;
    assert s.transfers[t := s.transfers[t].(established := true)] == s.transfers;
  }

  /** An event is claimed when it is an FTP packet or the handshake of an announced connection. */
  lemma {:induction false} HandledIff(s: State, e: Event)
    requires Inv(s)
    ensures Process(s, e).1
            <==> e.ftp.Some?
                 || (Shakes(e.tcp)
                     && (Lookup(s.pendingList.entries, Key(e.tcp.client, Some(e.tcp.clientPort), e.tcp.server,
                                                           Some(e.tcp.serverPort))).Some?
                         || Lookup(s.pendingList.entries, Key(e.tcp.client, None, e.tcp.server,
                                                              Some(e.tcp.serverPort))).Some?))
  {
    hide Added, Removed, Lookup, Conclude, Control, OpenSession;
  }
}
