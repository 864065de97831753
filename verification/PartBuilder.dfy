/** Cutting a multipart body into its parts, line by line. */
module PartBuilder {
  import opened Bytes
  import opened UnbufferedReader

  const LINE_LIMIT := 200
  const DASHES: Data := [0x2d, 0x2d]

  /** A part, as a range of the input. */
  datatype Span = Span(start: nat, end: nat)

  function Inter(b: Data): Data {
    DASHES + b
  }

  function Final(b: Data): Data {
    DASHES + b + DASHES
  }

  predicate IsBoundary(line: QString, b: Data) {
    line == Chars(Inter(b)) || line == Chars(Final(b))
  }

  /** The parts found from `pos` on, where a part starts at `pos`. */
  function PartsFrom(t: Data, pos: nat, b: Data): (r: seq<Span>)
    requires pos <= |t|
    ensures forall s | s in r :: pos <= s.start < s.end <= |t|
    decreases |t| - pos, 0
  {
    if pos >= |t| then []
    else
      var (line, cur) := LineAt(t, pos, LINE_LIMIT);
      WithinPart(t, cur, pos, 0, line, b)
  }

  /** The same, with the part that starts at `start` read up to `line`, which ends at `cur`. */
  function WithinPart(t: Data, cur: nat, start: nat, length: int, line: QString, b: Data): (r: seq<Span>)
    requires start <= cur <= |t| && start + length <= |t|
    ensures forall s | s in r :: start <= s.start < s.end <= |t|
    decreases |t| - cur, 1
  {
    if IsBoundary(line, b) then
      (if length > 0 then [Span(start, start + length)] else [])
      + (if line == Chars(Final(b)) then [] else PartsFrom(t, cur, b))
    else
      var (next, cur') := LineAt(t, cur, LINE_LIMIT);
      if next == Null then [] else WithinPart(t, cur', start, cur - 2 - start, next, b)
  }

  function Slices(t: Data, spans: seq<Span>): (r: seq<Data>)
    requires forall s | s in spans :: s.start <= s.end <= |t|
    ensures |r| == |spans| && forall i | 0 <= i < |r| :: r[i] == t[spans[i].start..spans[i].end]
  {
    seq(|spans|, i requires 0 <= i < |spans| => assert spans[i] in spans; t[spans[i].start..spans[i].end])
  }

  lemma PartsStep(t: Data, pos: nat, b: Data)
    requires pos <= |t|
    ensures pos == |t| ==> PartsFrom(t, pos, b) == []
    ensures pos < |t| ==> var (line, cur) := LineAt(t, pos, LINE_LIMIT);
                          pos < cur && PartsFrom(t, pos, b) == WithinPart(t, cur, pos, 0, line, b)
  {
  }

  lemma WithinStep(t: Data, cur: nat, start: nat, length: int, line: QString, b: Data)
    requires start <= cur <= |t| && start + length <= |t|
    ensures IsBoundary(line, b) ==>
              WithinPart(t, cur, start, length, line, b)
              == (if length > 0 then [Span(start, start + length)] else [])
                 + (if line == Chars(Final(b)) then [] else PartsFrom(t, cur, b))
    ensures !IsBoundary(line, b) ==>
              var (next, cur') := LineAt(t, cur, LINE_LIMIT);
              && (next != Null ==> cur < cur')
              && next != Chars([])
              && WithinPart(t, cur, start, length, line, b)
                 == (if next == Null then [] else WithinPart(t, cur', start, cur - 2 - start, next, b))
  {
  }

  /** Reads lines up to the one that ends the part that starts at `start`, or to the end of the parts. */
  method ReadToBoundary(streamReader: Reader, start: nat, first: QString, b: Data)
    returns (line: QString, partLength: int, ended: bool)
    requires streamReader.stream != null && streamReader.stream.Valid() && start < streamReader.stream.pos
    modifies streamReader.stream
    ensures streamReader.stream.Valid() && old(streamReader.stream.pos) <= streamReader.stream.pos
    ensures start + partLength <= |streamReader.stream.data|
    ensures var t := streamReader.stream.data;
            WithinPart(t, old(streamReader.stream.pos), start, 0, first, b)
            == if ended then [] else WithinPart(t, streamReader.stream.pos, start, partLength, line, b)
    ensures !ended ==> IsBoundary(line, b)
  {
    hide LineAt, PartsFrom, WithinPart, Inter, Final;
    var stream := streamReader.stream;
    ghost var t, from := stream.data, stream.pos;
    line, partLength, ended := first, 0, false;
    while line != Chars(Inter(b)) && line != Chars(Final(b))
      invariant stream.Valid() && from <= stream.pos && start < stream.pos && start + partLength <= |t|
      invariant WithinPart(t, from, start, 0, first, b) == WithinPart(t, stream.pos, start, partLength, line, b)
      decreases |t| - stream.pos
    {
      WithinStep(t, stream.pos, start, partLength, line, b);
      partLength := stream.pos - 2 - start;
      line := streamReader.ReadLine(LINE_LIMIT);
      var atEnd := stream.pos == |stream.data|;
      if line.Null? || (line == Chars([]) && atEnd) {
        ended := true;
        return;
      }
    }
  }

  method GetParts(streamReader: Reader?, b: Data) returns (parts: seq<Data>)
    requires streamReader != null && streamReader.stream != null ==> streamReader.stream.Valid()
    modifies if streamReader == null then null else streamReader.stream
    ensures streamReader == null || streamReader.stream == null ==> parts == []
    ensures streamReader != null && streamReader.stream != null ==>
              var t := streamReader.stream.data;
              parts == Slices(t, PartsFrom(t, old(streamReader.stream.pos), b))
  {
    hide LineAt, PartsFrom, WithinPart, Slices, Inter, Final;
    parts := [];
    if streamReader == null || streamReader.stream == null {
      return;
    }
    var stream := streamReader.stream;
    ghost var t, all, found := stream.data, PartsFrom(stream.data, stream.pos, b), [];
    while stream.pos < |stream.data|
      invariant stream.Valid()
      invariant all == found + PartsFrom(t, stream.pos, b)
      invariant forall s | s in found :: s.start <= s.end <= |t|
      invariant parts == Slices(t, found)
      decreases |t| - stream.pos
    {
      PartsStep(t, stream.pos, b);
      var partStartPosition := stream.pos;
      var first := streamReader.ReadLine(LINE_LIMIT);
      var line, partLength, ended := ReadToBoundary(streamReader, partStartPosition, first, b);
      if ended {
        assert all == found;
        return;
      }
      WithinStep(t, stream.pos, partStartPosition, partLength, line, b);
      var nextPartStartPosition := stream.pos;
      if partLength > 0 {
        stream.pos := partStartPosition;
        var partData := stream.data[stream.pos..stream.pos + partLength];
        stream.pos := stream.pos + partLength;
        parts := parts + [partData];
        found := found + [Span(partStartPosition, partStartPosition + partLength)];
      }
      if line == Chars(Final(b)) {
        assert all == found;
        return;
      }
      stream.pos := nextPartStartPosition;
    }
    PartsStep(t, stream.pos, b);
    assert all == found;
  }

  // ----- Where the parts lie

  /** The line that starts at `p` is a boundary and the next line starts at `q`. */
  ghost predicate BoundaryAt(t: Data, p: nat, q: nat, b: Data) {
    p <= |t| && IsBoundary(LineAt(t, p, LINE_LIMIT).0, b) && LineAt(t, p, LINE_LIMIT).1 == q
  }

  /** Reading lines from `p` on reaches the line start `e`. */
  ghost predicate Reaches(t: Data, p: nat, e: nat)
    decreases |t| - p
  {
    p == e || (p < e && p < |t| && Reaches(t, LineAt(t, p, LINE_LIMIT).1, e))
  }

  /** No line between the line starts `p` and `e` reads as a boundary. */
  ghost predicate Clean(t: Data, p: nat, e: nat, b: Data)
    decreases |t| - p
  {
    p >= e || p >= |t|
    || (!IsBoundary(LineAt(t, p, LINE_LIMIT).0, b) && Clean(t, LineAt(t, p, LINE_LIMIT).1, e, b))
  }

  ghost predicate WellPlaced(t: Data, s: Span, from: nat, b: Data) {
    && from <= s.start < s.end && s.end + 2 <= |t|
    && (s.start == from || exists p: nat :: from <= p < s.start && BoundaryAt(t, p, s.start, b))
    && t[s.end..s.end + 2] == CR_LF
    && Reaches(t, s.start, s.end + 2) && Clean(t, s.start, s.end + 2, b)
    && IsBoundary(LineAt(t, s.end + 2, LINE_LIMIT).0, b)
  }

  /** In order, each behind the boundary line that ends the one before it. */
  ghost predicate InOrder(spans: seq<Span>) {
    forall i, j | 0 <= i < j < |spans| :: spans[i].end + 2 < spans[j].start
  }

  lemma {:induction false} ReachesStep(t: Data, p: nat, e: nat)
    requires Reaches(t, p, e) && e < |t|
    ensures Reaches(t, p, LineAt(t, e, LINE_LIMIT).1)
    decreases |t| - p
  {
    if p < e {
      ReachesStep(t, LineAt(t, p, LINE_LIMIT).1, e);
    } else {
      assert Reaches(t, LineAt(t, e, LINE_LIMIT).1, LineAt(t, e, LINE_LIMIT).1);
    }
  }

  lemma {:induction false} CleanStep(t: Data, p: nat, e: nat, b: Data)
    requires Reaches(t, p, e) && Clean(t, p, e, b) && e < |t|
    requires !IsBoundary(LineAt(t, e, LINE_LIMIT).0, b)
    ensures Clean(t, p, LineAt(t, e, LINE_LIMIT).1, b)
    decreases |t| - p
  {
    if p < e {
      CleanStep(t, LineAt(t, p, LINE_LIMIT).1, e, b);
    } else {
      assert Clean(t, LineAt(t, e, LINE_LIMIT).1, LineAt(t, e, LINE_LIMIT).1, b);
    }
  }

  /** The part read so far starts at `start` and the line read last starts at `ls`. */
  ghost predicate Reading(t: Data, start: nat, ls: nat, length: int, b: Data) {
    && start <= ls <= |t| && Reaches(t, start, ls) && Clean(t, start, ls, b)
    && (ls == start ==> length == 0)
    && (ls > start ==> length == ls - 2 - start && start + 2 <= ls && t[ls - 2..ls] == CR_LF)
  }

  lemma {:induction false} PartsWellPlaced(t: Data, pos: nat, b: Data)
    requires pos <= |t|
    ensures var r := PartsFrom(t, pos, b); InOrder(r) && forall s | s in r :: WellPlaced(t, s, pos, b)
    decreases |t| - pos, 1
  {
    hide LineAt, WellPlaced, WithinPart;
    PartsStep(t, pos, b);
    if pos < |t| {
      WithinWellPlaced(t, pos, pos, 0, b);
    }
  }

  lemma ReadingStep(t: Data, start: nat, ls: nat, length: int, b: Data)
    requires Reading(t, start, ls, length, b) && ls < |t|
    requires !IsBoundary(LineAt(t, ls, LINE_LIMIT).0, b)
    requires LineAt(t, ls, LINE_LIMIT).1 < |t|
    ensures var ls' := LineAt(t, ls, LINE_LIMIT).1; Reading(t, start, ls', ls' - 2 - start, b)
  {
    ReachesStep(t, start, ls);
    CleanStep(t, start, ls, b);
  }

  lemma ReadingDone(t: Data, start: nat, ls: nat, length: int, b: Data)
    requires Reading(t, start, ls, length, b) && ls < |t| && length > 0
    requires IsBoundary(LineAt(t, ls, LINE_LIMIT).0, b)
    ensures WellPlaced(t, Span(start, start + length), start, b) && start + length + 2 == ls
  {
    assert BoundaryAt(t, ls, LineAt(t, ls, LINE_LIMIT).1, b);
  }

  lemma Later(t: Data, s: Span, ls: nat, cur: nat, start: nat, b: Data)
    requires WellPlaced(t, s, cur, b) && BoundaryAt(t, ls, cur, b) && start <= ls < cur
    ensures WellPlaced(t, s, start, b) && ls < s.start
  {
  }

  lemma {:induction false} WithinWellPlaced(t: Data, start: nat, ls: nat, length: int, b: Data)
    requires Reading(t, start, ls, length, b) && ls < |t|
    ensures var (line, cur) := LineAt(t, ls, LINE_LIMIT);
            var r := WithinPart(t, cur, start, length, line, b);
            InOrder(r) && forall s | s in r :: WellPlaced(t, s, start, b)
    decreases |t| - ls, 0
  {
    hide LineAt, WellPlaced, PartsFrom, WithinPart, IsBoundary;
    var (line, cur) := LineAt(t, ls, LINE_LIMIT);
    WithinStep(t, cur, start, length, line, b);
    if IsBoundary(line, b) {
      if length > 0 {
        ReadingDone(t, start, ls, length, b);
      }
      PartsWellPlaced(t, cur, b);
      var rest := PartsFrom(t, cur, b);
      forall s | s in rest ensures WellPlaced(t, s, start, b) && ls < s.start {
        assert BoundaryAt(t, ls, cur, b);
        Later(t, s, ls, cur, start, b);
      }
    } else if cur < |t| {
      ReadingStep(t, start, ls, length, b);
      WithinWellPlaced(t, start, cur, cur - 2 - start, b);
    } else {
    }
  }

  /** Nothing behind the first line that reads as the final boundary is returned. */
  lemma {:induction false} NothingAfterFinal(t: Data, pos: nat, f: nat, b: Data)
    requires pos <= f < |t| && Reaches(t, pos, f) && LineAt(t, f, LINE_LIMIT).0 == Chars(Final(b))
    ensures forall s | s in PartsFrom(t, pos, b) :: s.end <= f
    decreases |t| - pos, 1
  {
    hide LineAt, WithinPart;
    PartsStep(t, pos, b);
    WithinNothingAfterFinal(t, pos, pos, 0, f, b);
  }

  lemma {:induction false} WithinNothingAfterFinal(t: Data, start: nat, ls: nat, length: int, f: nat, b: Data)
    requires start <= ls <= f < |t| && Reaches(t, ls, f) && LineAt(t, f, LINE_LIMIT).0 == Chars(Final(b))
    requires start + length <= ls
    ensures var (line, cur) := LineAt(t, ls, LINE_LIMIT);
            forall s | s in WithinPart(t, cur, start, length, line, b) :: s.end <= f
    decreases |t| - ls, 0
  {
    hide LineAt, WithinPart, PartsFrom;
    var (line, cur) := LineAt(t, ls, LINE_LIMIT);
    WithinStep(t, cur, start, length, line, b);
    if ls < f {
      if IsBoundary(line, b) {
        NothingAfterFinal(t, cur, f, b);
      } else {
        WithinNothingAfterFinal(t, start, cur, cur - 2 - start, f, b);
      }
    }
  }

  // ----- Round trip

  /** The lines behind the first one of `t[ls..e]` all have visible characters. */
  predicate LaterLinesVisible(t: Data, ls: nat, e: nat)
    requires ls <= e <= |t|
    decreases e - ls
  {
    var next := LineAt(t, ls, LINE_LIMIT).1;
    next > e || next <= ls || (LineAt(t, next, LINE_LIMIT).0 != Null && LaterLinesVisible(t, next, e))
  }

  /** No line of `t[ls..e]` reads as a boundary. */
  predicate NoBoundaryLine(t: Data, ls: nat, e: nat, b: Data)
    requires ls <= e <= |t|
    decreases e - ls
  {
    !IsBoundary(LineAt(t, ls, LINE_LIMIT).0, b)
    && (var next := LineAt(t, ls, LINE_LIMIT).1; next > e || next <= ls || NoBoundaryLine(t, next, e, b))
  }

  /** What `getParts` needs of a part to return it: some content, and no blank line behind the first. */
  predicate Survives(p: Data) {
    p != [] && LaterLinesVisible(p + CR_LF, 0, |p|)
  }

  predicate HoldsNoBoundary(p: Data, b: Data) {
    NoBoundaryLine(p + CR_LF, 0, |p|, b)
  }

  /** Visible characters only, and short enough to survive the truncation with its four dashes. */
  predicate UsableBoundary(b: Data) {
    |b| <= 196 && forall c | c in b :: c == 9 || 32 <= c <= 127
  }

  /** Each part followed by a boundary line, the final one behind the last (section 5.1.1 of RFC 2046). */
  function Body(parts: seq<Data>, b: Data): Data {
    if parts == [] then []
    else
      var dashes := if |parts| == 1 then [0x2d, 0x2d] else [];
      parts[0] + [13, 10] + ([0x2d, 0x2d] + b + dashes) + [13, 10] + Body(parts[1..], b)
  }

  function Encode(parts: seq<Data>, b: Data): Data {
    ([0x2d, 0x2d] + b) + [13, 10] + Body(parts, b)
  }

  function GetPartsOf(t: Data, b: Data): seq<Data> {
    Slices(t, PartsFrom(t, 0, b))
  }

  lemma BreakAt(t: Data, q: int)
    ensures MatchAt(CR_LF, t, q) <==> 0 <= q && q + 2 <= |t| && t[q] == 0x0d && t[q + 1] == 0x0a
  {
    if 0 <= q && q + 2 <= |t| {
      assert t[q..q + 2] == [t[q], t[q + 1]];
    }
  }

  lemma SliceIndex(t: Data, off: nat, y: Data)
    requires off + |y| <= |t| && t[off..off + |y|] == y
    ensures forall k | 0 <= k < |y| :: y[k] == t[off + k]
  {
    forall k | 0 <= k < |y| ensures y[k] == t[off + k] {
      assert t[off..off + |y|][k] == t[off + k];
    }
  }

  /** The first line break of `x + CR_LF` is also that of anything that goes on with it. */
  lemma {:induction false} FindInside(t: Data, x: Data, off: nat, i: nat)
    requires i <= |x| && off + |x| + 2 <= |t| && t[off..off + |x| + 2] == x + CR_LF
    ensures var q := Find(CR_LF, x + CR_LF, i);
            i <= q <= |x| && Find(CR_LF, t, off + i) == off + q
            && t[off + i..off + q] == (x + CR_LF)[i..q]
  {
    hide Find, MatchAt;
    var y := x + CR_LF;
    SliceIndex(t, off, y);
    BreakAt(y, |x|);
    FindIsFirst(CR_LF, y, i, |x|);
    var q := Find(CR_LF, y, i);
    forall r | 0 <= r <= |x| ensures MatchAt(CR_LF, t, off + r) <==> MatchAt(CR_LF, y, r) {
      BreakAt(y, r);
      BreakAt(t, off + r);
      assert y[r] == t[off + r] && y[r + 1] == t[off + (r + 1)];
    }
    FindWithin(t, y, off, i, q, |x|);
    assert t[off + i..off + q] == y[i..q];
  }

  lemma {:induction false} FindWithin(t: Data, y: Data, off: nat, i: nat, q: nat, n: nat)
    requires i <= q <= n && MatchAt(CR_LF, y, q) && q == Find(CR_LF, y, i)
    requires forall r | 0 <= r <= n :: MatchAt(CR_LF, t, off + r) <==> MatchAt(CR_LF, y, r)
    ensures Find(CR_LF, t, off + i) == off + q
  {
    hide Find, MatchAt;
    forall r | off + i <= r && r + 2 <= off + q + 1 ensures !MatchAt(CR_LF, t, r) {
      assert MatchAt(CR_LF, t, off + (r - off)) <==> MatchAt(CR_LF, y, r - off);
      if MatchAt(CR_LF, y, r - off) {
        FindIsFirst(CR_LF, y, i, r - off);
      }
    }
    assert NoneWithin(CR_LF, t, off + i, off + q + |CR_LF| - 1);
    FindUnique(CR_LF, t, off + i, off + q);
  }

  lemma {:induction false} LineInside(t: Data, x: Data, off: nat, i: nat)
    requires i <= |x| && off + |x| + 2 <= |t| && t[off..off + |x| + 2] == x + CR_LF
    ensures LineAt(t, off + i, LINE_LIMIT)
            == (LineAt(x + CR_LF, i, LINE_LIMIT).0, off + LineAt(x + CR_LF, i, LINE_LIMIT).1)
    ensures i + 2 <= LineAt(x + CR_LF, i, LINE_LIMIT).1 <= |x| + 2
  {
    hide Find;
    FindInside(t, x, off, i);
  }

  lemma {:induction false} FilteredVisible(x: Data, limit: int)
    requires |x| <= limit && forall c | c in x :: Visible(c)
    ensures Filtered(x, limit) == x
    decreases |x|
  {
    if x != [] {
      FilteredVisible(x[1..], limit - 1);
    }
  }

  lemma {:induction false} VisibleBreak(x: Data)
    requires forall c | c in x :: Visible(c)
    ensures Find(CR_LF, x + CR_LF, 0) == |x|
  {
    hide Find, MatchAt;
    var y := x + CR_LF;
    BreakAt(y, |x|);
    forall r | 0 <= r && r + 2 <= |x| + 1 ensures !MatchAt(CR_LF, y, r) {
      BreakAt(y, r);
      assert y[r] == x[r] && x[r] in x;
    }
    FindUnique(CR_LF, y, 0, |x|);
  }

  /** A visible line of at most 200 characters reads as itself. */
  lemma {:induction false} VisibleLine(t: Data, x: Data, off: nat)
    requires off + |x| + 2 <= |t| && t[off..off + |x| + 2] == x + CR_LF
    requires x != [] && |x| <= LINE_LIMIT && forall c | c in x :: Visible(c)
    ensures LineAt(t, off, LINE_LIMIT) == (Chars(x), off + |x| + 2)
  {
    hide Find, Filtered, Visible;
    LineInside(t, x, off, 0);
    VisibleBreak(x);
    FilteredVisible(x, LINE_LIMIT);
    assert (x + CR_LF)[0..|x|] == x;
  }

  lemma BoundaryVisible(b: Data)
    requires UsableBoundary(b)
    ensures forall c | c in Inter(b) :: Visible(c)
    ensures forall c | c in Final(b) :: Visible(c)
    ensures Inter(b) != Final(b)
  {
    assert |Inter(b)| != |Final(b)|;
  }

  /** What is found once the line behind a part has been read. */
  function AfterPart(t: Data, start: nat, e: nat, last: bool, after: nat, b: Data): seq<Span>
    requires start <= e <= after <= |t|
  {
    (if e > start then [Span(start, e)] else []) + (if last then [] else PartsFrom(t, after, b))
  }

  /** Reading on from the line start `ls` of a part `x` that starts at `off`. */
  lemma {:induction false} ReadPart(t: Data, x: Data, off: nat, i: nat, last: bool, after: nat, b: Data)
    requires i <= |x| && off + |x| + 2 <= after <= |t| && t[off..off + |x| + 2] == x + CR_LF
    requires LineAt(t, off + |x| + 2, LINE_LIMIT) == (Chars(if last then Final(b) else Inter(b)), after)
    requires Inter(b) != Final(b)
    requires NoBoundaryLine(x + CR_LF, i, |x|, b)
    ensures var (line, cur) := LineAt(t, off + i, LINE_LIMIT);
            off + i <= cur <= |t|
            && WithinPart(t, cur, off, (if i == 0 then 0 else i - 2), line, b)
               == if LaterLinesVisible(x + CR_LF, i, |x|) then AfterPart(t, off, off + |x|, last, after, b) else []
    decreases |x| - i
  {
    hide LineAt, Find, PartsFrom, WithinPart, Inter, Final;
    LineInside(t, x, off, i);
    var y := x + CR_LF;
    var (line, cur) := LineAt(t, off + i, LINE_LIMIT);
    var length := if i == 0 then 0 else i - 2;
    WithinStep(t, cur, off, length, line, b);
    var next := LineAt(y, i, LINE_LIMIT).1;
    if next <= |x| {
      LineInside(t, x, off, next);
      if LineAt(y, next, LINE_LIMIT).0 != Null {
        ReadPart(t, x, off, next, last, after, b);
      }
    } else {
      NextAtEnd(x, i);
      assert cur == off + |x| + 2;
      WithinStep(t, after, off, |x|, LineAt(t, cur, LINE_LIMIT).0, b);
    }
  }

  lemma NextAtEnd(x: Data, i: nat)
    requires i <= |x| && LineAt(x + CR_LF, i, LINE_LIMIT).1 > |x|
    ensures LineAt(x + CR_LF, i, LINE_LIMIT).1 == |x| + 2
  {
    var y := x + CR_LF;
    FindInside(y, x, 0, i);
    var q := Find(CR_LF, y, i);
    BreakAt(y, q);
    assert y[|x|] == 0x0d;
  }

  /** Exactly what is returned of the parts that were sent. */
  function Kept(parts: seq<Data>): seq<Data> {
    if parts == [] || !LaterLinesVisible(parts[0] + CR_LF, 0, |parts[0]|) then []
    else (if parts[0] == [] then [] else [parts[0]]) + Kept(parts[1..])
  }

  /** The input up to the line behind the first part. */
  function ThroughFirst(pre: Data, parts: seq<Data>, b: Data): Data
    requires parts != []
  {
    pre + parts[0] + CR_LF + (if |parts| == 1 then Final(b) else Inter(b)) + CR_LF
  }

  lemma BodySplit(t: Data, pre: Data, parts: seq<Data>, b: Data)
    requires t == pre + Body(parts, b) && parts != []
    ensures var p, pre' := parts[0], ThroughFirst(pre, parts, b);
            var line := if |parts| == 1 then Final(b) else Inter(b);
            && t == pre' + Body(parts[1..], b)
            && |pre'| == |pre| + |p| + 2 + |line| + 2 <= |t|
            && t[|pre|..|pre| + |p| + 2] == p + CR_LF
            && t[|pre| + |p| + 2..|pre| + |p| + 2 + |line| + 2] == line + CR_LF
            && t[|pre|..|pre| + |p|] == p
  {
    hide Inter, Final, Body;
    var line := if |parts| == 1 then Final(b) else Inter(b);
    BodyStep(parts, b);
  }

  lemma BodyStep(parts: seq<Data>, b: Data)
    requires parts != []
    ensures Body(parts, b)
         == parts[0] + CR_LF + (if |parts| == 1 then Final(b) else Inter(b)) + CR_LF + Body(parts[1..], b)
  {
  }

  lemma {:induction false} ReadFirst(t: Data, pre: Data, parts: seq<Data>, b: Data)
    requires UsableBoundary(b) && t == pre + Body(parts, b) && parts != []
    requires HoldsNoBoundary(parts[0], b)
    ensures |ThroughFirst(pre, parts, b)| <= |t| && |pre| <= |t|
    ensures Slices(t, PartsFrom(t, |pre|, b))
         == if !LaterLinesVisible(parts[0] + CR_LF, 0, |parts[0]|) then []
            else (if parts[0] == [] then [] else [parts[0]])
                 + (if |parts| == 1 then [] else Slices(t, PartsFrom(t, |ThroughFirst(pre, parts, b)|, b)))
  {
    hide LineAt, PartsFrom, WithinPart, LaterLinesVisible, NoBoundaryLine, Body, ThroughFirst, Inter, Final;
    BodySplit(t, pre, parts, b);
    var p, last, after := parts[0], |parts| == 1, |ThroughFirst(pre, parts, b)|;
    var line := if last then Final(b) else Inter(b);
    BoundaryVisible(b);
    BoundaryLength(b);
    VisibleLine(t, line, |pre| + |p| + 2);
    PartsStep(t, |pre|, b);
    ReadPart(t, p, |pre|, 0, last, after, b);
  }

  lemma {:induction false} ReadBody(t: Data, pre: Data, parts: seq<Data>, b: Data)
    requires UsableBoundary(b) && t == pre + Body(parts, b)
    requires forall p | p in parts :: HoldsNoBoundary(p, b)
    ensures Slices(t, PartsFrom(t, |pre|, b)) == Kept(parts)
    decreases |parts|
  {
    hide PartsFrom, Inter, Final, LaterLinesVisible, HoldsNoBoundary, ThroughFirst, UsableBoundary;
    if parts == [] {
      PartsStep(t, |t|, b);
    } else {
      BodySplit(t, pre, parts, b);
      ReadFirst(t, pre, parts, b);
      ReadBody(t, ThroughFirst(pre, parts, b), parts[1..], b);
    }
  }

  lemma BoundaryLength(b: Data)
    ensures |Inter(b)| == |b| + 2 && |Final(b)| == |b| + 4
  {
  }

  lemma {:induction false} KeptAll(parts: seq<Data>)
    ensures |Kept(parts)| <= |parts|
    ensures Kept(parts) == parts <==> forall p | p in parts :: Survives(p)
  {
    hide LaterLinesVisible;
    if parts != [] {
      var p, rest := parts[0], parts[1..];
      KeptAll(rest);
      assert parts == [p] + rest;
      assert forall q | q in parts :: q == p || q in rest;
      if Survives(p) {
        assert Kept(parts) == [p] + Kept(rest);
        assert Kept(parts)[1..] == Kept(rest);
      }
    }
  }

  lemma FirstBoundary(parts: seq<Data>, b: Data)
    ensures Encode(parts, b) == Inter(b) + CR_LF + Body(parts, b)
  {}

  /**
   A multipart message read back: what comes out is the parts up to the first one with a blank line
   behind its first line, without the empty ones.
   */
  lemma {:induction false} DecodeEncode(parts: seq<Data>, b: Data)
    requires UsableBoundary(b)
    requires forall p | p in parts :: HoldsNoBoundary(p, b)
    ensures GetPartsOf(Encode(parts, b), b) == Kept(parts)
  {
    hide LineAt, PartsFrom, WithinPart, Inter, Final, HoldsNoBoundary, Kept;
    var t, pre := Encode(parts, b), Inter(b) + CR_LF;
    BoundaryVisible(b);
    BoundaryLength(b);
    assert Encode(parts, b) == pre + Body(parts, b) by { FirstBoundary(parts, b); }
    assert t[0..|Inter(b)| + 2] == pre;
    VisibleLine(t, Inter(b), 0);
    PartsStep(t, 0, b);
    WithinStep(t, |pre|, 0, 0, Chars(Inter(b)), b);
    ReadBody(t, pre, parts, b);
    assert [] + PartsFrom(t, |pre|, b) == PartsFrom(t, |pre|, b);
  }

  /** The round trip holds exactly for parts that have content and no blank line behind the first. */
  lemma {:induction false} RoundTripIff(parts: seq<Data>, b: Data)
    requires UsableBoundary(b)
    requires forall p | p in parts :: HoldsNoBoundary(p, b)
    ensures GetPartsOf(Encode(parts, b), b) == parts <==> forall p | p in parts :: Survives(p)
  {
    hide GetPartsOf, Encode, Survives, HoldsNoBoundary, Kept;
    DecodeEncode(parts, b);
    KeptAll(parts);
  }

  lemma {:induction false} KeptStops(parts: seq<Data>, i: nat)
    requires i < |parts| && !LaterLinesVisible(parts[i] + CR_LF, 0, |parts[i]|)
    ensures Kept(parts) == Kept(parts[..i])
    decreases |parts|
  {
    hide LaterLinesVisible;
    if i > 0 {
      assert parts[1..][..i - 1] == parts[..i][1..];
      KeptStops(parts[1..], i - 1);
    }
  }

  /**
   A part with a header section, that is with an empty line before its content, is never returned, nor
   is any part behind it.
   */
  lemma {:induction false} HeaderedPartIsLost(parts: seq<Data>, i: nat, header: Data, content: Data, b: Data)
    requires UsableBoundary(b) && forall p | p in parts :: HoldsNoBoundary(p, b)
    requires i < |parts| && parts[i] == header + CR_LF + CR_LF + content
    ensures GetPartsOf(Encode(parts, b), b) == Kept(parts[..i])
    ensures |GetPartsOf(Encode(parts, b), b)| <= i
  {
    hide LaterLinesVisible, HoldsNoBoundary, GetPartsOf, Encode, Kept;
    var p := parts[i];
    assert p + CR_LF == header + CR_LF + CR_LF + content + CR_LF;
    BlankLineStops(p, 0, |header|);
    KeptStops(parts, i);
    KeptAll(parts[..i]);
    DecodeEncode(parts, b);
  }

  lemma {:induction false} BlankLineStops(p: Data, i: nat, h: nat)
    requires i <= h && h + 4 <= |p| && p[h..h + 2] == CR_LF && p[h + 2..h + 4] == CR_LF
    ensures !LaterLinesVisible(p + CR_LF, i, |p|)
    decreases h - i
  {
    hide Find;
    var y := p + CR_LF;
    assert p[h..h + 2][0] == p[h] && p[h..h + 2][1] == p[h + 1];
    assert p[h + 2..h + 4][0] == p[h + 2] && p[h + 2..h + 4][1] == p[h + 3];
    BreakAt(y, h);
    BreakAt(y, h + 2);
    FindIsFirst(CR_LF, y, i, h);
    var q := Find(CR_LF, y, i);
    BreakAt(y, q);
    if q == h {
      FindIsFirst(CR_LF, y, h + 2, h + 2);
    } else {
      BlankLineStops(p, q + 2, h);
    }
  }
}
