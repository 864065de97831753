/**
 A reordering window of 64 segments in front of an output file. `order` records the sequence numbers
 in the order in which their segments were written.
 */
module FileStreamAssembler {
  import opened Bytes
  import opened OrderedMaps
  import opened Sets

  type Data = seq<byte>

  const WINDOW_SIZE := 64
  const UNKNOWN_LENGTH := -1
  const CHUNK_TRAILER: Data := [0x30, 0x0d, 0x0a, 0x0d, 0x0a]

  datatype Kind =
    | BackConnect | FTP | HttpGetChunked | HttpGetNormal | HttpPost | HttpPostMimeMultipartFormData
    | HttpPostMimeFileData | HttpPostUpload | HTTP2 | IEC104 | IMAP | LPD | MC_NMF | Meterpreter | NjRAT
    | OscarFileTransfer | POP3 | Remcos | RTP | SMB | SMB2 | SMTP | TFTP | TlsCertificate | VNC
  {
    predicate Counted() {
      this != HttpGetChunked && this != TFTP
    }

    predicate EndsByLength() {
      this in {HttpGetNormal, SMB, TlsCertificate, FTP, HttpPostMimeMultipartFormData, HttpPostMimeFileData}
    }
  }

  datatype Segment = Segment(seqNo: int, data: Data)

  datatype State = State(kind: Kind, active: bool, contentLength: int, remaining: int,
                         window: map<int, Data>, assembled: int, file: Data, order: seq<int>)

  // ----- The operations

  function SortedKeys<V>(m: map<int, V>): (ks: seq<int>)
    ensures |ks| == |m|
    decreases |m|
  {
    if |m| == 0 then [] else [FirstKey(m)] + SortedKeys(Rest(m))
  }

  /** Writes out the smallest entries until at most 64 are left. */
  function Evict(s: State): (r: State)
    ensures |r.window| <= WINDOW_SIZE
    decreases |s.window|
  {
    if |s.window| <= WINDOW_SIZE then s
    else
      var k := FirstKey(s.window);
      Evict(s.(window := Rest(s.window), file := s.file + s.window[k], order := s.order + [k]))
  }

  function Finish(s: State): State {
    s.(active := false, window := map[], file := s.file + Concat(s.window), order := s.order + SortedKeys(s.window))
  }

  predicate Accepts(s: State, g: Segment) {
    && s.active && g.data != [] && g.seqNo !in s.window
    && (s.kind.Counted() && s.contentLength != UNKNOWN_LENGTH ==> |g.data| <= s.remaining)
  }

  predicate EndsWith(d: Data, tail: Data) {
    |d| >= |tail| && d[|d| - |tail|..] == tail
  }

  /** The segment goes into the window. */
  function Put(s: State, g: Segment): State {
    s.(window := s.window[g.seqNo := g.data], assembled := s.assembled + |g.data|,
       remaining := if s.kind.Counted() && s.contentLength != UNKNOWN_LENGTH then s.remaining - |g.data|
                    else s.remaining)
  }

  /** The segment goes into the window and the window is cut back to size. */
  function Take(s: State, g: Segment): (r: State)
    ensures |r.window| <= WINDOW_SIZE
  {
    Evict(Put(s, g))
  }

  /** What happens once the segment is in: the file is complete, the segment is, or neither. */
  function Settle(s: State, d: Data): State {
    if s.kind.EndsByLength() && s.assembled >= s.contentLength && s.contentLength != UNKNOWN_LENGTH then Finish(s)
    else if s.kind.Counted() && s.remaining == 0 then s.(active := false)
    else if s.kind == HttpGetChunked && EndsWith(d, CHUNK_TRAILER) then Finish(s)
    else s
  }

  function Adding(s: State, g: Segment): State {
    if Accepts(s, g) then Settle(Take(s, g), g.data) else s
  }

  function Run(s: State, gs: seq<Segment>): State
    decreases gs
  {
    if gs == [] then s else Run(Adding(s, gs[0]), gs[1..])
  }

  /** The segments of a run that were not turned away, in order of arrival. */
  function Accepted(s: State, gs: seq<Segment>): seq<Segment>
    decreases gs
  {
    if gs == [] then []
    else (if Accepts(s, gs[0]) then [gs[0]] else []) + Accepted(Adding(s, gs[0]), gs[1..])
  }

  // ----- Every run: the window is bounded and no byte is lost

  ghost function WindowBytes(m: map<int, Data>): int {
    |Concat(m)|
  }

  ghost predicate Consistent(s: State) {
    |s.window| <= 64 && s.assembled == |s.file| + WindowBytes(s.window)
  }

  lemma {:induction false} ConcatInsertLength(m: map<int, Data>, k: int, d: Data)
    requires k !in m
    ensures |Concat(m[k := d])| == |Concat(m)| + |d|
    decreases |m|
  {
    var n := m[k := d];
    assert k in n && |n| > 0;
    if |m| == 0 || k < FirstKey(m) {
      assert |m| == 0 ==> m.Keys == {};
      assert FirstKey(n) == k;
      assert Rest(n) == m;
    } else {
      InsertBehindFirst(m, k, d);
      ConcatInsertLength(Rest(m), k, d);
    }
  }

  lemma InsertBehindFirst<V>(m: map<int, V>, k: int, d: V)
    requires k !in m && |m| > 0 && FirstKey(m) < k
    ensures |m[k := d]| > 0 && FirstKey(m[k := d]) == FirstKey(m) && Rest(m[k := d]) == Rest(m)[k := d]
    ensures m[k := d][FirstKey(m)] == m[FirstKey(m)]
  {
    var f, n := FirstKey(m), m[k := d];
    assert f in n && n[f] == m[f];
    assert |n.Keys| > 0;
  }

  lemma {:induction false} EvictKeepsBytes(s: State)
    requires s.assembled == |s.file| + WindowBytes(s.window)
    ensures Consistent(Evict(s))
    decreases |s.window|
  {
    if |s.window| > WINDOW_SIZE {
      var k := FirstKey(s.window);
      EvictKeepsBytes(s.(window := Rest(s.window), file := s.file + s.window[k], order := s.order + [k]));
    }
  }

  lemma {:induction false} TakeConsistent(s: State, g: Segment)
    requires Consistent(s) && g.seqNo !in s.window
    ensures Consistent(Take(s, g))
  {
    hide Concat, Evict;
    ConcatInsertLength(s.window, g.seqNo, g.data);
    EvictKeepsBytes(Put(s, g));
  }

  lemma {:induction false} AddDataConsistent(s: State, g: Segment)
    requires Consistent(s)
    ensures Consistent(Adding(s, g))
  {
    hide Take, Finish, WindowBytes;
    if Accepts(s, g) {
      TakeConsistent(s, g);
      FinishConsistent(Take(s, g));
    }
  }

  lemma FinishConsistent(s: State)
    requires Consistent(s)
    ensures Consistent(Finish(s))
  {
    assert Concat<byte>(map[]) == [];
  }

  /** After any run the window holds at most 64 segments and every accepted byte is in it or in the file. */
  lemma {:induction false} RunConsistent(s: State, gs: seq<Segment>)
    requires Consistent(s)
    ensures Consistent(Run(s, gs))
    decreases gs
  {
    hide Consistent;
    if gs != [] {
      AddDataConsistent(s, gs[0]);
      RunConsistent(Adding(s, gs[0]), gs[1..]);
    }
  }

  // ----- The order in which segments reach the file

  /** The window and what has been written, without the bookkeeping. */
  datatype Buf = Buf(window: map<int, Data>, order: seq<int>)

  function Push(b: Buf, g: Segment): (r: Buf) {
    var window := b.window[g.seqNo := g.data];
    if |window| <= WINDOW_SIZE then Buf(window, b.order)
    else Buf(Rest(window), b.order + [FirstKey(window)])
  }

  function Feed(b: Buf, gs: seq<Segment>): Buf
    decreases gs
  {
    if gs == [] then b else Feed(Push(b, gs[0]), gs[1..])
  }

  /** The order of the file once the window has been written out as well. */
  function FinalOrder(b: Buf): seq<int> {
    b.order + SortedKeys(b.window)
  }

  function BufOf(s: State): Buf {
    Buf(s.window, s.order)
  }

  lemma EvictOne(s: State)
    requires |s.window| <= WINDOW_SIZE + 1
    ensures BufOf(Evict(s)) == if |s.window| <= WINDOW_SIZE then BufOf(s)
                               else Buf(Rest(s.window), s.order + [FirstKey(s.window)])
  {
    if |s.window| > WINDOW_SIZE {
      var k := FirstKey(s.window);
      var s' := s.(window := Rest(s.window), file := s.file + s.window[k], order := s.order + [k]);
      assert Evict(s) == Evict(s') && |s'.window| == WINDOW_SIZE;
    }
  }

  lemma EvictIsPush(s: State, g: Segment)
    requires |s.window| <= WINDOW_SIZE
    ensures BufOf(Take(s, g)) == Push(BufOf(s), g)
  {
    hide Evict, FirstKey, Rest;
    var n := s.window[g.seqNo := g.data];
    assert n.Keys == s.window.Keys + {g.seqNo};
    assert |n| == |n.Keys| <= |s.window.Keys| + 1;
    EvictOne(Put(s, g));
  }

  lemma {:induction false} InactiveRun(s: State, gs: seq<Segment>)
    requires !s.active
    ensures Run(s, gs) == s && Accepted(s, gs) == []
    decreases gs
  {
    if gs != [] {
      InactiveRun(s, gs[1..]);
    }
  }

  lemma FinishKeepsOrder(s: State)
    ensures FinalOrder(BufOf(Finish(s))) == FinalOrder(BufOf(s))
  {
    assert SortedKeys<Data>(map[]) == [];
  }

  /** Whatever follows the segment, the assembler is left active with it in the window, or inactive. */
  lemma SettleCases(s: State, d: Data)
    ensures Settle(s, d) == s || (!Settle(s, d).active && FinalOrder(BufOf(Settle(s, d))) == FinalOrder(BufOf(s)))
  {
    FinishKeepsOrder(s);
  }

  lemma RunStep(s: State, gs: seq<Segment>)
    requires gs != []
    ensures Run(s, gs) == Run(Adding(s, gs[0]), gs[1..])
    ensures Accepted(s, gs) == if Accepts(s, gs[0]) then [gs[0]] + Accepted(Adding(s, gs[0]), gs[1..])
                               else Accepted(s, gs[1..])
    ensures Adding(s, gs[0]) == if Accepts(s, gs[0]) then Settle(Take(s, gs[0]), gs[0].data) else s
  {
  }

  lemma FeedFirst(b: Buf, g: Segment, gs: seq<Segment>)
    ensures Feed(b, [g] + gs) == Feed(Push(b, g), gs)
    ensures Feed(b, []) == b
  {
    assert ([g] + gs)[1..] == gs;
  }

  lemma {:induction false} RunFeeds(s: State, gs: seq<Segment>)
    requires |s.window| <= WINDOW_SIZE
    ensures FinalOrder(BufOf(Run(s, gs))) == FinalOrder(Feed(BufOf(s), Accepted(s, gs)))
    decreases gs
  {
    hide Accepts, Push, FinalOrder, Run, Accepted, Feed, Settle, Adding, Take;
    if gs == [] {
      assert Run(s, gs) == s && Accepted(s, gs) == [] && Feed(BufOf(s), []) == BufOf(s) by {
        RunNothing(s, gs);
      }
    } else {
      var g, rest, s' := gs[0], gs[1..], Adding(s, gs[0]);
      RunStep(s, gs);
      if Accepts(s, g) {
        EvictIsPush(s, g);
        FeedFirst(BufOf(s), g, Accepted(s', rest));
        FeedFirst(Push(BufOf(s), g), g, []);
        SettleCases(Take(s, g), g.data);
        if s' == Take(s, g) {
          RunFeeds(s', rest);
        } else {
          InactiveRun(s', rest);
        }
      } else {
        RunFeeds(s, rest);
      }
    }
  }

  lemma RunNothing(s: State, gs: seq<Segment>)
    requires gs == []
    ensures Run(s, gs) == s && Accepted(s, gs) == [] && Feed(BufOf(s), []) == BufOf(s)
  {
  }

  ghost predicate Ascending(ks: seq<int>) {
    forall i, j | 0 <= i < j < |ks| :: ks[i] < ks[j]
  }

  ghost function Keys(gs: seq<Segment>): set<int> {
    set g | g in gs :: g.seqNo
  }

  ghost predicate Distinct(gs: seq<Segment>) {
    forall i, j | 0 <= i < j < |gs| :: gs[i].seqNo != gs[j].seqNo
  }

  ghost function LargerBefore(gs: seq<Segment>, i: nat): set<int>
    requires i < |gs|
  {
    set k | k in Keys(gs[..i]) && k > gs[i].seqNo
  }

  /** What holds of the buffer after any distinct segments `gs`. */
  ghost predicate Holds(b: Buf, gs: seq<Segment>) {
    && |b.window| <= WINDOW_SIZE
    && (b.order != [] ==> |b.window| == WINDOW_SIZE)
    && (forall k :: k in Keys(gs) <==> k in b.order || k in b.window)
    && (forall k | k in b.order :: k !in b.window)
  }

  ghost predicate Behind(b: Buf) {
    Ascending(b.order) && forall o, w | o in b.order && w in b.window :: o < w
  }

  lemma KeysExtend(gs: seq<Segment>, i: nat)
    requires i < |gs|
    ensures Keys(gs[..i + 1]) == Keys(gs[..i]) + {gs[i].seqNo}
    ensures Distinct(gs) ==> gs[i].seqNo !in Keys(gs[..i])
  {
    assert gs[..i + 1] == gs[..i] + [gs[i]];
    assert gs[i] in gs[..i + 1];
    forall g | g in gs[..i] ensures g in gs[..i + 1] {
    }
  }

  lemma {:induction false} PushHolds(b: Buf, gs: seq<Segment>, i: nat)
    requires Distinct(gs) && i < |gs| && Holds(b, gs[..i])
    ensures Holds(Push(b, gs[i]), gs[..i + 1])
  {
    KeysExtend(gs, i);
    hide Keys, Distinct;
  }

  /** A new segment that is smaller than a written one comes behind 65 larger ones. */
  lemma {:induction false} WrittenMeansLarger(b: Buf, gs: seq<Segment>, i: nat, o: int)
    requires i < |gs| && Holds(b, gs[..i]) && Behind(b)
    requires o in b.order && gs[i].seqNo < o
    ensures |LargerBefore(gs, i)| > WINDOW_SIZE
  {
    var larger := b.window.Keys + {o};
    forall x | x in larger ensures x in LargerBefore(gs, i) {
      assert x in Keys(gs[..i]);
    }
    SubsetSize(larger, LargerBefore(gs, i));
    assert |larger| == |b.window.Keys| + 1;
  }

  lemma {:induction false} PushBehind(b: Buf, gs: seq<Segment>, i: nat)
    requires Distinct(gs) && i < |gs| && Holds(b, gs[..i]) && Behind(b)
    requires |LargerBefore(gs, i)| <= WINDOW_SIZE
    ensures Behind(Push(b, gs[i]))
  {
    KeysExtend(gs, i);
    hide Keys, Distinct, LargerBefore;
    forall o | o in b.order ensures o < gs[i].seqNo {
      if gs[i].seqNo < o {
        WrittenMeansLarger(b, gs, i, o);
      }
    }
    hide Holds;
    PushedBehind(b, gs[i]);
  }

  lemma {:induction false} PushedBehind(b: Buf, g: Segment)
    requires Behind(b) && forall o | o in b.order :: o < g.seqNo
    ensures Behind(Push(b, g))
  {
    hide Ascending;
    var window := b.window[g.seqNo := g.data];
    assert forall o, w | o in b.order && w in window :: o < w;
    if |window| > WINDOW_SIZE {
      var k := FirstKey(window);
      AscendingAppend(b.order, [k]);
    }
  }

  lemma AscendingNone()
    ensures Ascending([])
  {
  }

  lemma {:induction false} AscendingAppend(a: seq<int>, b: seq<int>)
    requires Ascending(a) && Ascending(b)
    requires forall x, y | x in a && y in b :: x < y
    ensures Ascending(a + b)
  {
    var c := a + b;
    forall i, j | 0 <= i < j < |c| ensures c[i] < c[j] {
      if i < |a| <= j {
        assert a[i] in a && b[j - |a|] in b;
      }
    }
  }

  lemma {:induction false} SortedKeysAscend<V>(m: map<int, V>)
    ensures Ascending(SortedKeys(m))
    ensures forall k :: k in SortedKeys(m) <==> k in m
    decreases |m|
  {
    hide Ascending, FirstKey, Rest, SortedKeys;
    SortedKeysStep(m);
    if |m| > 0 {
      SortedKeysAscend(Rest(m));
      AscendingSingle(FirstKey(m));
      AscendingAppend([FirstKey(m)], SortedKeys(Rest(m)));
    } else {
      assert m.Keys == {};
      AscendingNone();
    }
  }

  lemma AscendingSingle(k: int)
    ensures Ascending([k])
  {
  }

  lemma SortedKeysStep<V>(m: map<int, V>)
    ensures SortedKeys(m) == if |m| == 0 then [] else [FirstKey(m)] + SortedKeys(Rest(m))
  {
  }

  lemma FinalAscends(b: Buf)
    requires Behind(b)
    ensures Ascending(FinalOrder(b))
  {
    hide Ascending;
    SortedKeysAscend(b.window);
    AscendingAppend(b.order, SortedKeys(b.window));
  }

  lemma {:induction false} FeedSorted(b: Buf, gs: seq<Segment>, i: nat)
    requires Distinct(gs) && i <= |gs| && Holds(b, gs[..i]) && Behind(b)
    requires forall l | i <= l < |gs| :: |LargerBefore(gs, l)| <= WINDOW_SIZE
    ensures Ascending(FinalOrder(Feed(b, gs[i..])))
    decreases |gs| - i
  {
    hide Holds, Behind, Distinct, LargerBefore, Push, FinalOrder;
    if i < |gs| {
      PushHolds(b, gs, i);
      PushBehind(b, gs, i);
      FeedSorted(Push(b, gs[i]), gs, i + 1);
      assert gs[i..][0] == gs[i] && gs[i..][1..] == gs[i + 1..];
    } else {
      FinalAscends(b);
    }
  }

  /** What has been written stays in front, and what is in the window comes behind it. */
  lemma {:induction false} FeedExtends(b: Buf, gs: seq<Segment>)
    ensures b.order <= FinalOrder(Feed(b, gs))
    ensures forall g | g in gs :: g.seqNo in FinalOrder(Feed(b, gs))[|b.order|..]
    ensures forall k | k in b.window :: k in FinalOrder(Feed(b, gs))[|b.order|..]
    decreases gs
  {
    if gs == [] {
      SortedKeysAscend(b.window);
      assert FinalOrder(b)[|b.order|..] == SortedKeys(b.window);
    } else {
      var b' := Push(b, gs[0]);
      FeedExtends(b', gs[1..]);
      hide Feed, SortedKeys, FinalOrder;
      ExtendsThrough(b, gs[0], FinalOrder(Feed(b', gs[1..])));
    }
  }

  lemma ExtendsThrough(b: Buf, g: Segment, final: seq<int>)
    requires Push(b, g).order <= final
    requires forall k | k in Push(b, g).window :: k in final[|Push(b, g).order|..]
    ensures b.order <= final
    ensures forall k | k in b.window || k == g.seqNo :: k in final[|b.order|..]
    ensures forall k | k in final[|Push(b, g).order|..] :: k in final[|b.order|..]
  {
    var b', n := Push(b, g), |b.order|;
    assert forall k | k in final[|b'.order|..] :: k in final[n..] by {
      assert final[|b'.order|..] == final[n..][|b'.order| - n..];
    }
    forall k | k in b.window || k == g.seqNo ensures k in final[n..] {
      if k !in b'.window {
        assert b'.order == b.order + [k];
        assert final[n] == b'.order[n] == k;
      }
    }
  }

  lemma {:induction false} FeedUnsorted(b: Buf, gs: seq<Segment>, i: nat, l: nat)
    requires Distinct(gs) && i <= l < |gs| && Holds(b, gs[..i])
    requires |LargerBefore(gs, l)| > WINDOW_SIZE
    ensures !Ascending(FinalOrder(Feed(b, gs[i..])))
    decreases |gs| - i
  {
    hide Distinct, Push, FinalOrder, Feed;
    FeedStep(b, gs, i);
    if i < l {
      PushHolds(b, gs, i);
      FeedUnsorted(Push(b, gs[i]), gs, i + 1, l);
    } else {
      var larger := LargerBefore(gs, l);
      assert exists o :: o in larger && o in b.order by {
        if larger <= b.window.Keys {
          SubsetSize(larger, b.window.Keys);
        }
      }
      var o :| o in larger && o in b.order;
      FeedExtends(b, gs[i..]);
      var final := FinalOrder(Feed(b, gs[i..]));
      assert gs[l] in gs[i..];
      OutOfOrder(final, |b.order|, o, gs[l].seqNo);
    }
  }

  lemma OutOfOrder(final: seq<int>, n: nat, o: int, k: int)
    requires n <= |final| && o in final[..n] && k in final[n..] && k < o
    ensures !Ascending(final)
  {
    var x :| 0 <= x < n && final[..n][x] == o;
    var y :| 0 <= y < |final| - n && final[n..][y] == k;
    assert final[x] == o && final[n + y] == k;
  }

  lemma FeedStep(b: Buf, gs: seq<Segment>, i: nat)
    requires i < |gs|
    ensures Feed(b, gs[i..]) == Feed(Push(b, gs[i]), gs[i + 1..])
  {
    assert gs[i..][0] == gs[i] && gs[i..][1..] == gs[i + 1..];
  }

  // ----- The bytes of the file

  /** The segments of `m` laid out in the order `ks`. */
  function Laid(ks: seq<int>, m: map<int, Data>): Data {
    if ks == [] then [] else (if ks[0] in m then m[ks[0]] else []) + Laid(ks[1..], m)
  }

  lemma {:induction false} LaidAppend(a: seq<int>, b: seq<int>, m: map<int, Data>)
    ensures Laid(a + b, m) == Laid(a, m) + Laid(b, m)
    decreases a
  {
    if a == [] {
      assert a + b == b;
    } else {
      LaidAppend(a[1..], b, m);
      var first := if a[0] in m then m[a[0]] else [];
      assert (a + b)[0] == a[0] && (a + b)[1..] == a[1..] + b;
      Associative(first, Laid(a[1..], m), Laid(b, m));
    }
  }

  ghost predicate Within(window: map<int, Data>, m: map<int, Data>) {
    forall k | k in window :: k in m && m[k] == window[k]
  }

  lemma {:induction false} LaidWindow(window: map<int, Data>, m: map<int, Data>)
    requires Within(window, m)
    ensures Laid(SortedKeys(window), m) == Concat(window)
    decreases |window|
  {
    if |window| > 0 {
      LaidWindow(Rest(window), m);
    }
  }

  ghost predicate Matches(s: State, m: map<int, Data>) {
    s.file == Laid(s.order, m) && Within(s.window, m)
  }

  lemma {:induction false} EvictMatches(s: State, m: map<int, Data>)
    requires Matches(s, m)
    ensures Matches(Evict(s), m)
    decreases |s.window|
  {
    if |s.window| > WINDOW_SIZE {
      var k := FirstKey(s.window);
      LaidAppend(s.order, [k], m);
      LaidOne(k, m);
      EvictMatches(s.(window := Rest(s.window), file := s.file + s.window[k], order := s.order + [k]), m);
    }
  }

  lemma LaidOne(k: int, m: map<int, Data>)
    requires k in m
    ensures Laid([k], m) == m[k]
  {
    assert [k][1..] == [];
  }

  lemma FinishMatches(s: State, m: map<int, Data>)
    requires Matches(s, m)
    ensures Matches(Finish(s), m)
  {
    LaidAppend(s.order, SortedKeys(s.window), m);
    LaidWindow(s.window, m);
  }

  lemma PutMatches(s: State, g: Segment, m: map<int, Data>)
    requires Matches(s, m) && g.seqNo in m && m[g.seqNo] == g.data
    ensures Matches(Put(s, g), m)
  {
  }

  lemma {:induction false} AddingMatches(s: State, g: Segment, m: map<int, Data>)
    requires Matches(s, m)
    requires Accepts(s, g) ==> g.seqNo in m && m[g.seqNo] == g.data
    ensures Matches(Adding(s, g), m)
  {
    hide Laid, Evict, Put, Finish, Accepts;
    if Accepts(s, g) {
      PutMatches(s, g, m);
      EvictMatches(Put(s, g), m);
      FinishMatches(Take(s, g), m);
    }
  }

  lemma {:induction false} RunMatches(s: State, gs: seq<Segment>, m: map<int, Data>)
    requires Matches(s, m)
    requires forall g | g in Accepted(s, gs) :: g.seqNo in m && m[g.seqNo] == g.data
    ensures Matches(Run(s, gs), m)
    decreases gs
  {
    hide Matches, Accepted, Run, Adding, Accepts;
    if gs == [] {
      RunNothing(s, gs);
    } else {
      RunStep(s, gs);
      AddingMatches(s, gs[0], m);
      RunMatches(Adding(s, gs[0]), gs[1..], m);
    }
  }

  /** The segments by sequence number. */
  function ByNumber(gs: seq<Segment>): (m: map<int, Data>)
    decreases gs
  {
    if gs == [] then map[] else ByNumber(gs[1..])[gs[0].seqNo := gs[0].data]
  }

  lemma {:induction false} ByNumberHolds(gs: seq<Segment>)
    requires Distinct(gs)
    ensures ByNumber(gs).Keys == Keys(gs)
    ensures forall g | g in gs :: g.seqNo in ByNumber(gs) && ByNumber(gs)[g.seqNo] == g.data
    decreases gs
  {
    if gs != [] {
      hide Distinct, Keys;
      ByNumberHolds(gs[1..]);
    }
  }

  lemma AscendingTail(ks: seq<int>)
    requires Ascending(ks) && ks != []
    ensures Ascending(ks[1..])
    ensures forall k | k in ks[1..] :: ks[0] < k
    ensures forall k | k in ks && k != ks[0] :: k in ks[1..]
    ensures forall k | k in ks[1..] :: k in ks
  {
    var rest := ks[1..];
    assert forall i | 0 <= i < |rest| :: rest[i] == ks[i + 1];
    assert ks == [ks[0]] + rest;
  }

  lemma MemberSize<V>(k: int, m: map<int, V>)
    requires k in m
    ensures |m| > 0
  {
    assert m.Keys != {};
  }

  lemma NoMembers<V>(m: map<int, V>)
    requires forall k :: k !in m
    ensures |m| == 0
  {
    if |m| > 0 {
      var k := Pick(m.Keys);
    }
  }

  lemma TailKeys(ks: seq<int>, m: map<int, Data>)
    requires Ascending(ks) && ks != [] && forall k :: k in ks <==> k in m
    ensures |m| > 0 && ks[0] == FirstKey(m) && Ascending(ks[1..])
    ensures forall k :: k in ks[1..] <==> k in Rest(m)
  {
    hide Ascending;
    MemberSize(ks[0], m);
    assert FirstKey(m) in ks;
    AscendingTail(ks);
    assert ks[0] == FirstKey(m);
  }

  /** Two ascending sequences with the same elements are the same. */
  lemma {:induction false} AscendingUnique(ks: seq<int>, m: map<int, Data>)
    requires Ascending(ks) && forall k :: k in ks <==> k in m
    ensures ks == SortedKeys(m)
    decreases |ks|
  {
    hide Ascending, SortedKeys, FirstKey, Rest;
    if ks == [] {
      NoMembers(m);
      NothingSorted(m);
    } else {
      TailKeys(ks, m);
      AscendingUnique(ks[1..], Rest(m));
      FirstWritten(m);
    }
  }

  lemma NothingSorted(m: map<int, Data>)
    requires |m| == 0
    ensures SortedKeys(m) == []
  {
  }

  lemma FirstWritten(m: map<int, Data>)
    requires |m| > 0
    ensures Concat(m) == m[FirstKey(m)] + Concat(Rest(m)) && SortedKeys(m) == [FirstKey(m)] + SortedKeys(Rest(m))
  {
  }

  function New(kind: Kind, contentLength: int, remaining: int): State {
    State(kind, true, contentLength, remaining, map[], 0, [], [])
  }

  /** The order of the file is that of the sequence numbers exactly when no segment comes too late. */
  lemma {:induction false} SortedIff(kind: Kind, contentLength: int, remaining: int, gs: seq<Segment>)
    requires Distinct(Accepted(New(kind, contentLength, remaining), gs))
    ensures var s := New(kind, contentLength, remaining);
            var acc := Accepted(s, gs);
            Ascending(Finish(Run(s, gs)).order) <==> forall i | 0 <= i < |acc| :: |LargerBefore(acc, i)| <= 64
  {
    hide Accepted, Run, Feed, LargerBefore, SortedKeys, Distinct;
    var s := New(kind, contentLength, remaining);
    var acc := Accepted(s, gs);
    RunFeeds(s, gs);
    assert acc[0..] == acc;
    EmptyHolds(acc);
    if forall i | 0 <= i < |acc| :: |LargerBefore(acc, i)| <= 64 {
      FeedSorted(BufOf(s), acc, 0);
    } else {
      var l :| 0 <= l < |acc| && |LargerBefore(acc, l)| > 64;
      FeedUnsorted(BufOf(s), acc, 0, l);
    }
  }

  lemma EmptyHolds(gs: seq<Segment>)
    ensures Holds(Buf(map[], []), gs[..0]) && Behind(Buf(map[], []))
  {
    assert gs[..0] == [];
  }

  /**
   If every accepted segment is preceded by at most 64 larger-numbered ones, the finished file is
   the accepted segments in ascending order of their sequence numbers.
   */
  lemma {:induction false} WindowSorts(kind: Kind, contentLength: int, remaining: int, gs: seq<Segment>)
    requires Distinct(Accepted(New(kind, contentLength, remaining), gs))
    requires var acc := Accepted(New(kind, contentLength, remaining), gs);
             forall i | 0 <= i < |acc| :: |LargerBefore(acc, i)| <= 64
    ensures var s := New(kind, contentLength, remaining);
            var m := ByNumber(Accepted(s, gs));
            Finish(Run(s, gs)).file == Concat(m) && Finish(Run(s, gs)).order == SortedKeys(m)
  {
    hide Accepted, Run, LargerBefore, Ascending, ByNumber, Concat, Laid, SortedKeys, Distinct;
    var s := New(kind, contentLength, remaining);
    var acc := Accepted(s, gs);
    var m := ByNumber(acc);
    SortedIff(kind, contentLength, remaining, gs);
    ByNumberHolds(acc);
    LaidNothing(m);
    RunMatches(s, gs, m);
    FinishMatches(Run(s, gs), m);
    FinalKeys(s, gs);
    AscendingUnique(Finish(Run(s, gs)).order, m);
    LaidWindow(m, m);
  }

  lemma LaidNothing(m: map<int, Data>)
    ensures Laid([], m) == []
  {
  }

  lemma {:induction false} FeedKeys(b: Buf, gs: seq<Segment>, i: nat)
    requires Distinct(gs) && i <= |gs| && Holds(b, gs[..i])
    ensures forall k :: k in FinalOrder(Feed(b, gs[i..])) <==> k in Keys(gs)
    decreases |gs| - i
  {
    if i < |gs| {
      hide Distinct, Push, FinalOrder, Feed, Holds, Keys;
      FeedStep(b, gs, i);
      PushHolds(b, gs, i);
      FeedKeys(Push(b, gs[i]), gs, i + 1);
    } else {
      assert gs[..i] == gs;
      SortedKeysAscend(b.window);
    }
  }

  /** Every accepted segment is written in the end, and nothing else is. */
  lemma {:induction false} FinalKeys(s: State, gs: seq<Segment>)
    requires s.window == map[] && s.order == [] && Distinct(Accepted(s, gs))
    ensures forall k :: k in Finish(Run(s, gs)).order <==> k in Keys(Accepted(s, gs))
  {
    hide Accepted, Run, Feed, Keys, SortedKeys, Holds, Distinct;
    var acc := Accepted(s, gs);
    RunFeeds(s, gs);
    assert acc[0..] == acc;
    EmptyHolds(acc);
    FeedKeys(BufOf(s), acc, 0);
  }

  /**
   With an unknown length and no segment length set, which is how FTP transfers are set up, the
   assembler goes inactive with its first segment and turns all others away.
   */
  lemma {:induction false} UnknownLengthTakesOne(kind: Kind, g: Segment, gs: seq<Segment>)
    requires kind != HttpGetChunked && kind != TFTP && g.data != []
    ensures Accepted(New(kind, -1, 0), [g] + gs) == [g]
    ensures Finish(Run(New(kind, -1, 0), [g] + gs)).file == g.data
  {
    var s := New(kind, -1, 0);
    var s' := Adding(s, g);
    assert ([g] + gs)[0] == g && ([g] + gs)[1..] == gs;
    var window := map[g.seqNo := g.data];
    assert s.window[g.seqNo := g.data] == window;
    assert |window| == 1 && FirstKey(window) == g.seqNo && |Rest(window)| == 0;
    assert Concat(window) == g.data + Concat(Rest(window)) == g.data;
    assert !s'.active && s'.window == window && s'.file == [];
    InactiveRun(s', gs);
  }

  /** The data of the first segment that has any. */
  function FirstData(gs: seq<Segment>): Data {
    if gs == [] then [] else if gs[0].data != [] then gs[0].data else FirstData(gs[1..])
  }

  /** Empty segments in front change nothing. */
  lemma {:induction false} UnknownLengthKeepsFirst(kind: Kind, gs: seq<Segment>)
    requires kind != HttpGetChunked && kind != TFTP
    ensures Finish(Run(New(kind, -1, 0), gs)).file == FirstData(gs)
    decreases |gs|
  {
    var s := New(kind, -1, 0);
    if gs == [] {
      assert Run(s, gs) == s && Concat<byte>(map[]) == [];
    } else if gs[0].data == [] {
      assert Adding(s, gs[0]) == s;
      UnknownLengthKeepsFirst(kind, gs[1..]);
    } else {
      assert gs == [gs[0]] + gs[1..];
      UnknownLengthTakesOne(kind, gs[0], gs[1..]);
    }
  }

  /** Evicting takes segments out of the window and touches nothing that decides about new ones. */
  lemma {:induction false} EvictShrinks(s: State)
    ensures var r := Evict(s);
            && r.window.Keys <= s.window.Keys
            && r.active == s.active && r.kind == s.kind
            && r.contentLength == s.contentLength && r.remaining == s.remaining && r.assembled == s.assembled
    decreases |s.window|
  {
    hide FirstKey;
    if |s.window| > WINDOW_SIZE {
      var k := FirstKey(s.window);
      EvictShrinks(s.(window := Rest(s.window), file := s.file + s.window[k], order := s.order + [k]));
    }
  }

  /** The assembler takes whatever comes: its length is unknown and its segment never runs out. */
  predicate Unlimited(s: State) {
    s.active && s.kind.Counted() && s.contentLength == UNKNOWN_LENGTH && s.remaining != 0
  }

  lemma {:induction false} UnlimitedTakes(s: State, g: Segment)
    requires Unlimited(s) && g.data != [] && g.seqNo !in s.window
    ensures Accepts(s, g) && Unlimited(Adding(s, g))
    ensures Adding(s, g).window.Keys <= s.window.Keys + {g.seqNo}
  {
    hide Evict;
    EvictShrinks(Put(s, g));
  }

  lemma {:induction false} UnlimitedKeepsAll(s: State, gs: seq<Segment>)
    requires Unlimited(s) && Distinct(gs)
    requires forall g | g in gs :: g.data != [] && g.seqNo !in s.window
    ensures Accepted(s, gs) == gs
    decreases gs
  {
    hide Accepts, Adding, Unlimited;
    if gs != [] {
      var g, rest := gs[0], gs[1..];
      assert g in gs && gs == [g] + rest;
      UnlimitedTakes(s, g);
      forall h | h in rest ensures h.data != [] && h.seqNo !in Adding(s, g).window {
        var i :| 0 <= i < |rest| && rest[i] == h;
        assert gs[i + 1] == h;
        assert h.seqNo != g.seqNo;
      }
      UnlimitedKeepsAll(Adding(s, g), rest);
    }
  }

  /** With an unknown length, every segment is kept if and only if a segment length was set, or there is only one. */
  lemma {:induction false} UnknownLengthIff(kind: Kind, remaining: int, gs: seq<Segment>)
    requires kind != HttpGetChunked && kind != TFTP && Distinct(gs) && forall g | g in gs :: g.data != []
    ensures Accepted(New(kind, -1, remaining), gs) == gs <==> remaining != 0 || |gs| <= 1
  {
    hide Distinct;
    if remaining != 0 {
      UnlimitedKeepsAll(New(kind, -1, remaining), gs);
    } else if gs != [] {
      assert gs[0] in gs && gs == [gs[0]] + gs[1..];
      UnknownLengthTakesOne(kind, gs[0], gs[1..]);
    }
  }

  /** The finished file is then all of the segments in ascending order, unless one comes too late for the window. */
  lemma {:induction false} UnknownLengthFile(kind: Kind, remaining: int, gs: seq<Segment>)
    requires kind != HttpGetChunked && kind != TFTP && remaining != 0
    requires Distinct(gs) && forall g | g in gs :: g.data != []
    requires forall i | 0 <= i < |gs| :: |LargerBefore(gs, i)| <= 64
    ensures Finish(Run(New(kind, -1, remaining), gs)).file == Concat(ByNumber(gs))
  {
    hide Accepted, Run, LargerBefore, ByNumber, Concat, Distinct, Finish;
    UnknownLengthIff(kind, remaining, gs);
    WindowSorts(kind, -1, remaining, gs);
  }

  // ----- With a known length, and with chunks

  /** The kinds of file that are finished once their length has been reached. */
  const BY_LENGTH := {HttpGetNormal, SMB, TlsCertificate, FTP, HttpPostMimeMultipartFormData, HttpPostMimeFileData}

  const LAST_CHUNK: Data := [0x30, 0x0d, 0x0a, 0x0d, 0x0a]

  predicate EndsInLastChunk(g: Segment) {
    |g.data| >= 5 && g.data[|g.data| - 5..] == LAST_CHUNK
  }

  /** The bytes of the segments. */
  function Total(gs: seq<Segment>): nat {
    if gs == [] then 0 else |gs[0].data| + Total(gs[1..])
  }

  /** How many bytes may still come until nothing more is taken. */
  function Left(s: State): int {
    if s.kind in BY_LENGTH && s.contentLength - s.assembled < s.remaining then s.contentLength - s.assembled
    else s.remaining
  }

  /** Segments with data, none of whose numbers is in the window or comes twice. */
  ghost predicate Fresh(s: State, gs: seq<Segment>) {
    Distinct(gs) && forall g | g in gs :: g.data != [] && g.seqNo !in s.window
  }

  lemma {:induction false} FreshRest(s: State, gs: seq<Segment>, s': State)
    requires Fresh(s, gs) && gs != [] && s'.window.Keys <= s.window.Keys + {gs[0].seqNo}
    ensures Fresh(s', gs[1..]) && gs[0].data != [] && gs[0].seqNo !in s.window
  {
    var g, rest := gs[0], gs[1..];
    assert g in gs;
    forall h | h in rest ensures h.data != [] && h.seqNo !in s'.window {
      var i :| 0 <= i < |rest| && rest[i] == h;
      assert gs[i + 1] == h && h in gs;
    }
    forall i, j | 0 <= i < j < |rest| ensures rest[i].seqNo != rest[j].seqNo {
      assert rest[i] == gs[i + 1] && rest[j] == gs[j + 1];
    }
  }

  /** One segment changes nothing if and only if it is turned away, and that is when it is turned away. */
  lemma {:induction false} TurnedAwayIff(s: State, g: Segment)
    ensures Run(s, [g]) == s
            <==> !s.active || g.data == [] || g.seqNo in s.window
                 || (s.kind != HttpGetChunked && s.kind != TFTP && s.contentLength != -1 && |g.data| > s.remaining)
  {
    hide Evict;
    assert [g][1..] == [];
    assert Run(s, [g]) == Run(Adding(s, g), []) == Adding(s, g);
    EvictShrinks(Put(s, g));
  }

  /** A segment that does not exceed what is left is taken, and is the last one exactly when nothing is left. */
  lemma {:induction false} KnownStep(s: State, g: Segment)
    requires s.active && s.kind != HttpGetChunked && s.kind != TFTP && s.contentLength != -1
    requires g.data != [] && g.seqNo !in s.window && |g.data| <= s.remaining
    ensures Accepts(s, g)
    ensures var r := Adding(s, g);
            && r.window.Keys <= s.window.Keys + {g.seqNo}
            && r.kind == s.kind && r.contentLength == s.contentLength
            && r.remaining == s.remaining - |g.data| && r.assembled == s.assembled + |g.data|
            && (|g.data| < Left(s) ==> r.active && Left(r) == Left(s) - |g.data|)
            && (|g.data| >= Left(s) ==> !r.active)
            && (s.kind in BY_LENGTH && |g.data| >= s.contentLength - s.assembled ==> r.window == map[])
  {
    hide Evict;
    EvictShrinks(Put(s, g));
  }

  /** As long as something is left, all segments are taken; they end the file exactly when they reach what is left. */
  lemma {:induction false} KnownRun(s: State, gs: seq<Segment>)
    requires s.active && s.kind != HttpGetChunked && s.kind != TFTP && s.contentLength != -1
    requires Fresh(s, gs) && Total(gs) <= s.remaining
    requires gs != [] ==> Total(gs[..|gs| - 1]) < Left(s)
    ensures Accepted(s, gs) == gs
    ensures gs != [] ==> (Run(s, gs).active <==> Total(gs) < Left(s))
    ensures gs != [] && s.kind in BY_LENGTH && Total(gs) >= s.contentLength - s.assembled ==>
              Run(s, gs).window == map[]
    decreases gs
  {
    hide Accepts, Adding, Fresh, Left, BY_LENGTH;
    if gs != [] {
      var g, rest := gs[0], gs[1..];
      assert gs == [g] + rest;
      FreshFirst(s, gs);
      KnownStep(s, g);
      FreshRest(s, gs, Adding(s, g));
      if rest != [] {
        assert gs[..|gs| - 1] == [g] + rest[..|rest| - 1];
        KnownRun(Adding(s, g), rest);
      } else {
        assert gs[..0] == [];
        RunNothing(Adding(s, g), rest);
      }
    }
  }

  lemma FreshFirst(s: State, gs: seq<Segment>)
    requires Fresh(s, gs) && gs != []
    ensures gs[0].data != [] && gs[0].seqNo !in s.window
  {
    assert gs[0] in gs;
  }

  /** The parts of a sequence of segments are no longer than the whole. */
  lemma {:induction false} TotalPrefix(gs: seq<Segment>, k: nat)
    requires k <= |gs| && forall g | g in gs :: g.data != []
    ensures Total(gs[..k]) <= Total(gs) && (k < |gs| ==> Total(gs[..k]) < Total(gs))
    decreases gs
  {
    if gs != [] {
      assert gs[0] in gs;
      if k > 0 {
        assert gs[..k][1..] == gs[1..][..k - 1];
        TotalPrefix(gs[1..], k - 1);
      }
    }
  }

  lemma FreshPrefix(s: State, gs: seq<Segment>, k: nat)
    requires Fresh(s, gs) && k <= |gs|
    ensures Fresh(s, gs[..k])
  {
    forall g | g in gs[..k] ensures g in gs {
    }
  }

  /**
   With a known length: the segments of a file are all taken, the assembler stays active until the last
   of them and goes inactive with it, and the file is all of them in ascending order, unless one comes
   too late for the window.
   */
  lemma {:induction false} KnownLengthFile(kind: Kind, n: nat, gs: seq<Segment>)
    requires kind in BY_LENGTH && n > 0 && Distinct(gs) && (forall g | g in gs :: g.data != []) && Total(gs) == n
    requires forall i | 0 <= i < |gs| :: |LargerBefore(gs, i)| <= 64
    ensures forall k | 0 <= k < |gs| ::
              Accepted(New(kind, n, n), gs[..k]) == gs[..k] && Run(New(kind, n, n), gs[..k]).active
    ensures Accepted(New(kind, n, n), gs) == gs && !Run(New(kind, n, n), gs).active
    ensures Run(New(kind, n, n), gs).file == Concat(ByNumber(gs))
  {
    hide Accepted, Run, LargerBefore, ByNumber, Concat, Distinct;
    var s := New(kind, n, n);
    assert Fresh(s, gs);
    forall k | 0 <= k <= |gs|
      ensures Accepted(s, gs[..k]) == gs[..k]
      ensures k < |gs| ==> Run(s, gs[..k]).active
      ensures k == |gs| ==> !Run(s, gs).active && Run(s, gs).window == map[]
    {
      FreshPrefix(s, gs, k);
      TotalPrefix(gs, k);
      if k > 0 {
        TotalPrefix(gs, k - 1);
        assert gs[..k][..k - 1] == gs[..k - 1];
      } else {
        assert gs[..k] == [];
        RunNothing(s, gs[..k]);
      }
      KnownRun(s, gs[..k]);
      assert k == |gs| ==> gs[..k] == gs;
    }
    assert gs[..|gs|] == gs;
    WindowSorts(kind, n, n, gs);
    NothingToFinish(Run(s, gs));
  }

  lemma NothingToFinish(s: State)
    requires s.window == map[]
    ensures Finish(s).file == s.file
  {
    assert Concat<byte>(map[]) == [];
  }

  /** The length is set to what has been assembled and what remains. */
  function Extended(s: State, remainingBytes: int): State {
    s.(contentLength := s.assembled + remainingBytes)
  }

  /** When the remaining bytes are set in the middle of a file, that many more complete it. */
  lemma {:induction false} ExtendedEnds(s: State, n: nat, gs: seq<Segment>)
    requires s.active && s.kind in BY_LENGTH && 0 < n <= s.remaining && s.assembled >= 0
    requires Fresh(s, gs) && gs != [] && Total(gs) == n
    ensures Accepted(Extended(s, n), gs) == gs && !Run(Extended(s, n), gs).active
    ensures Run(Extended(s, n), gs[..|gs| - 1]).active
  {
    hide Accepted, Run, Distinct;
    var k := |gs| - 1;
    TotalPrefix(gs, k);
    KnownRun(Extended(s, n), gs);
    FreshPrefix(s, gs, k);
    if k > 0 {
      TotalPrefix(gs, k - 1);
      assert gs[..k][..k - 1] == gs[..k - 1];
      KnownRun(Extended(s, n), gs[..k]);
    } else {
      RunNothing(Extended(s, n), gs[..k]);
    }
  }

  /** Other kinds that count go inactive exactly when what remained has been taken, whatever their length. */
  lemma {:induction false} RemainingRunsOut(kind: Kind, contentLength: int, remaining: nat, gs: seq<Segment>)
    requires kind != HttpGetChunked && kind != TFTP && kind !in BY_LENGTH && contentLength != -1
    requires Distinct(gs) && (forall g | g in gs :: g.data != []) && 0 < Total(gs) <= remaining
    ensures Accepted(New(kind, contentLength, remaining), gs) == gs
    ensures Run(New(kind, contentLength, remaining), gs).active <==> Total(gs) < remaining
  {
    hide Accepted, Run, Distinct;
    TotalPrefix(gs, |gs| - 1);
    KnownRun(New(kind, contentLength, remaining), gs);
  }

  lemma {:induction false} ChunkStep(s: State, g: Segment)
    requires s.active && s.kind == HttpGetChunked && g.data != [] && g.seqNo !in s.window
    ensures Accepts(s, g)
    ensures var r := Adding(s, g);
            && r.kind == s.kind && r.window.Keys <= s.window.Keys + {g.seqNo}
            && (r.active <==> !EndsInLastChunk(g)) && (EndsInLastChunk(g) ==> r.window == map[])
  {
    hide Evict;
    EvictShrinks(Put(s, g));
  }

  /** Chunked files take everything, and are finished exactly when a segment ends in the last chunk. */
  lemma {:induction false} ChunkedIff(s: State, gs: seq<Segment>)
    requires s.active && s.kind == HttpGetChunked && Fresh(s, gs)
    requires forall g | g in gs[..if |gs| > 0 then |gs| - 1 else 0] :: !EndsInLastChunk(g)
    ensures Accepted(s, gs) == gs
    ensures Run(s, gs).active <==> forall g | g in gs :: !EndsInLastChunk(g)
    ensures !Run(s, gs).active ==> Run(s, gs).window == map[]
    decreases gs
  {
    hide Accepts, Adding, Fresh, EndsInLastChunk;
    if gs != [] {
      var g, rest := gs[0], gs[1..];
      assert gs == [g] + rest;
      FreshFirst(s, gs);
      ChunkStep(s, g);
      FreshRest(s, gs, Adding(s, g));
      if rest != [] {
        assert g in gs[..|gs| - 1];
        forall h | h in rest[..|rest| - 1] ensures !EndsInLastChunk(h) {
          assert gs[..|gs| - 1] == [g] + rest[..|rest| - 1];
        }
        ChunkedIff(Adding(s, g), rest);
      } else {
        RunNothing(Adding(s, g), rest);
      }
    }
  }

  /** The file is then what came up to the last chunk, in ascending order; what follows is turned away. */
  lemma {:induction false} ChunkedFile(contentLength: int, remaining: int, gs: seq<Segment>, more: seq<Segment>)
    requires Distinct(gs) && (forall g | g in gs :: g.data != []) && gs != []
    requires EndsInLastChunk(gs[|gs| - 1]) && forall g | g in gs[..|gs| - 1] :: !EndsInLastChunk(g)
    requires forall i | 0 <= i < |gs| :: |LargerBefore(gs, i)| <= 64
    ensures Run(New(HttpGetChunked, contentLength, remaining), gs + more).file == Concat(ByNumber(gs))
  {
    hide Accepted, Run, LargerBefore, ByNumber, Concat, Distinct, EndsInLastChunk;
    var s := New(HttpGetChunked, contentLength, remaining);
    ChunkedIff(s, gs);
    WindowSorts(HttpGetChunked, contentLength, remaining, gs);
    NothingToFinish(Run(s, gs));
    RunAppend(s, gs, more);
    InactiveRun(Run(s, gs), more);
  }

  lemma {:induction false} RunAppend(s: State, gs: seq<Segment>, more: seq<Segment>)
    ensures Run(s, gs + more) == Run(Run(s, gs), more)
    decreases gs
  {
    hide Adding;
    if gs == [] {
      assert gs + more == more;
    } else {
      assert (gs + more)[1..] == gs[1..] + more;
      RunAppend(Adding(s, gs[0]), gs[1..], more);
    }
  }

  /** Files sent by TFTP take everything and end only when they are told to. */
  lemma {:induction false} TftpTakesAll(s: State, gs: seq<Segment>)
    requires s.active && s.kind == TFTP && Fresh(s, gs)
    ensures Accepted(s, gs) == gs && Run(s, gs).active
    decreases gs
  {
    hide Evict, Fresh;
    if gs != [] {
      FreshFirst(s, gs);
      EvictShrinks(Put(s, gs[0]));
      FreshRest(s, gs, Adding(s, gs[0]));
      TftpTakesAll(Adding(s, gs[0]), gs[1..]);
    }
  }

  // ----- The assembler

  class Assembler {
    const fileStreamType: Kind
    var isActive: bool
    var fileContentLength: int
    var fileSegmentRemainingBytes: int
    var tcpPacketBufferWindow: map<int, Data>
    var assembledByteCount: int
    var fileStream: Data
    ghost var order: seq<int>

    ghost function Snapshot(): State
      reads this
    {
      State(fileStreamType, isActive, fileContentLength, fileSegmentRemainingBytes,
            tcpPacketBufferWindow, assembledByteCount, fileStream, order)
    }

    constructor (kind: Kind, contentLength: int, segmentRemainingBytes: int)
      ensures Snapshot() == New(kind, contentLength, segmentRemainingBytes).(active := false)
    {
      fileStreamType, isActive := kind, false;
      fileContentLength, fileSegmentRemainingBytes := contentLength, segmentRemainingBytes;
      tcpPacketBufferWindow, assembledByteCount, fileStream, order := map[], 0, [], [];
    }

    /** Opening the file is assumed to succeed. */
    method TryActivate() returns (r: bool)
      modifies this
      ensures r && Snapshot() == old(Snapshot()).(active := true)
    {
      isActive, r := true, true;
    }

    method SetRemainingBytesInFile(remainingByteCount: int)
      modifies this
      ensures Snapshot() == Extended(old(Snapshot()), remainingByteCount)
    {
      fileContentLength := assembledByteCount + remainingByteCount;
    }

    method AddData(packetData: Data, seqNo: int)
      modifies this
      ensures Snapshot() == Adding(old(Snapshot()), Segment(seqNo, packetData))
    {
      hide Settle, Evict;
      if !isActive || packetData == [] || seqNo in tcpPacketBufferWindow {
        return;
      }
      if fileStreamType != HttpGetChunked && fileStreamType != TFTP && fileContentLength != UNKNOWN_LENGTH {
        if fileSegmentRemainingBytes < |packetData| {
          return;
        }
        fileSegmentRemainingBytes := fileSegmentRemainingBytes - |packetData|;
      }
      tcpPacketBufferWindow := tcpPacketBufferWindow[seqNo := packetData];
      assembledByteCount := assembledByteCount + |packetData|;
      assert Take(old(Snapshot()), Segment(seqNo, packetData)) == Evict(Snapshot());
      WriteOverflow();
      FinishIfComplete(packetData);
    }

    /** The end of addData: what happens once the segment is in. */
    method FinishIfComplete(packetData: Data)
      modifies this
      ensures Snapshot() == Settle(old(Snapshot()), packetData)
    {
      if (fileStreamType == HttpGetNormal || fileStreamType == SMB || fileStreamType == TlsCertificate
          || fileStreamType == FTP || fileStreamType == HttpPostMimeMultipartFormData
          || fileStreamType == HttpPostMimeFileData)
         && assembledByteCount >= fileContentLength && fileContentLength != UNKNOWN_LENGTH {
        FinishAssembling();
      } else if fileStreamType != HttpGetChunked && fileStreamType != TFTP && fileSegmentRemainingBytes == 0 {
        isActive := false;
      } else if fileStreamType == HttpGetChunked {
        if |packetData| >= |CHUNK_TRAILER| {
          if packetData[|packetData| - |CHUNK_TRAILER|..] == CHUNK_TRAILER {
            FinishAssembling();
          }
        }
      }
    }

    /** The loop of addData that writes the smallest entries until 64 are left. */
    method WriteOverflow()
      modifies this
      ensures Snapshot() == Evict(old(Snapshot()))
    {
      hide Evict;
      while |tcpPacketBufferWindow| > 64
        invariant Evict(Snapshot()) == Evict(old(Snapshot()))
        decreases |tcpPacketBufferWindow|
      {
        EvictStep(Snapshot());
        var key := FirstKey(tcpPacketBufferWindow);
        fileStream, order := fileStream + tcpPacketBufferWindow[key], order + [key];
        tcpPacketBufferWindow := Rest(tcpPacketBufferWindow);
      }
      EvictStep(Snapshot());
    }

    method FinishAssembling()
      modifies this
      ensures Snapshot() == Finish(old(Snapshot()))
    {
      isActive := false;
      var rest := tcpPacketBufferWindow;
      while |rest| > 0
        invariant Snapshot() == old(Snapshot()).(active := false, file := fileStream, order := order)
        invariant fileStream + Concat(rest) == old(fileStream) + Concat(old(tcpPacketBufferWindow))
        invariant order + SortedKeys(rest) == old(order) + SortedKeys(old(tcpPacketBufferWindow))
        decreases |rest|
      {
        hide Concat, SortedKeys;
        var key := FirstKey(rest);
        FirstWritten(rest);
        Associative(fileStream, rest[key], Concat(Rest(rest)));
        Associative(order, [key], SortedKeys(Rest(rest)));
        fileStream, order := fileStream + rest[key], order + [key];
        rest := Rest(rest);
      }
      assert Concat(rest) == [] && SortedKeys(rest) == [];
      tcpPacketBufferWindow := map[];
    }
  }

  lemma EvictStep(s: State)
    ensures Evict(s) == if |s.window| <= WINDOW_SIZE then s
                        else Evict(s.(window := Rest(s.window), file := s.file + s.window[FirstKey(s.window)],
                                      order := s.order + [FirstKey(s.window)]))
  {
  }
}
