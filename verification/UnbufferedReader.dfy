/** Knuth-Morris-Pratt search over a byte stream, and the line reader built on it. */
module UnbufferedReader {
  import opened Bytes

  type Data = seq<byte>

  // ----- Matching

  /** The first `k` bytes of `p` end where `t[..n]` ends. */
  ghost predicate Ends(p: Data, k: int, t: Data, n: int) {
    0 <= k <= |p| && k <= n <= |t| && p[..k] == t[n - k..n]
  }

  /** `p[..k]` is both a proper prefix and a suffix of `p[..n]`, and no longer one is. */
  ghost predicate LongestBorder(p: Data, n: int, k: int) {
    0 <= k < n <= |p| && Ends(p, k, p, n) && forall l | k < l < n :: !Ends(p, l, p, n)
  }

  lemma EndsExtends(p: Data, k: int, t: Data, n: int)
    requires 0 <= k < |p| && 0 <= n < |t|
    ensures Ends(p, k + 1, t, n + 1) <==> Ends(p, k, t, n) && p[k] == t[n]
  {
    if Ends(p, k + 1, t, n + 1) {
      assert p[..k] == p[..k + 1][..k];
      assert p[k] == p[..k + 1][k] == t[n - k..n + 1][k];
      assert t[n - k..n] == t[n - k..n + 1][..k];
    }
  }

  /** Of the matches shorter than `j`, those of the text are those of the pattern itself. */
  lemma EndsFallsBack(p: Data, j: int, t: Data, n: int, k: int)
    requires Ends(p, j, t, n) && 0 <= k <= j
    ensures Ends(p, k, t, n) <==> Ends(p, k, p, j)
  {
    assert p[j - k..j] == p[..j][j - k..];
    assert t[n - k..n] == t[n - j..n][j - k..];
  }

  /** Matches longer than `j` of the pattern with itself that end at `i` do not go on. */
  ghost predicate NoneBetween(p: Data, j: int, i: int) {
    0 <= i < |p| && forall k | j < k < i && Ends(p, k, p, i) :: p[k] != p[i]
  }

  lemma BorderOfOne(p: Data)
    requires p != []
    ensures LongestBorder(p, 1, 0)
    ensures |p| > 1 ==> Ends(p, 0, p, 1) && NoneBetween(p, 0, 1)
  {
  }

  /** The border that goes on is the longest of one byte more. */
  lemma {:induction false} BorderExtends(p: Data, i: int, j: int)
    requires 0 <= j < i < |p| && Ends(p, j, p, i) && NoneBetween(p, j, i) && p[j] == p[i]
    ensures LongestBorder(p, i + 1, j + 1)
    ensures i + 1 < |p| ==> Ends(p, j + 1, p, i + 1) && NoneBetween(p, j + 1, i + 1)
  {
    var next := i + 1;
    forall k | j + 1 < k < next ensures !Ends(p, k, p, next) {
      EndsExtends(p, k - 1, p, i);
    }
    EndsExtends(p, j, p, i);
  }

  lemma {:induction false} BorderFallsBack(p: Data, i: int, j: int, next: int)
    requires 0 < j < i < |p| && Ends(p, j, p, i) && NoneBetween(p, j, i) && p[j] != p[i]
    requires LongestBorder(p, j, next)
    ensures 0 <= next < j && Ends(p, next, p, i) && NoneBetween(p, next, i)
  {
    forall k | 0 <= k <= j ensures Ends(p, k, p, i) <==> Ends(p, k, p, j) {
      EndsFallsBack(p, j, p, i, k);
    }
  }

  lemma {:induction false} BorderEmpty(p: Data, i: int)
    requires 0 < i < |p| && NoneBetween(p, 0, i) && p[0] != p[i]
    ensures LongestBorder(p, i + 1, 0)
    ensures i + 1 < |p| ==> Ends(p, 0, p, i + 1) && NoneBetween(p, 0, i + 1)
  {
    var next := i + 1;
    forall k | 0 < k < next ensures !Ends(p, k, p, next) {
      EndsExtends(p, k - 1, p, i);
    }
  }

  /** Matches longer than `j` that end before `t[n - 1]` do not go on with `c`. */
  ghost predicate NoneLonger(p: Data, j: int, t: Data, start: nat, n: nat, c: byte) {
    forall k | j < k < |p| && k <= n - 1 - start && Ends(p, k, t, n - 1) :: p[k] != c
  }

  /** No occurrence lies within `t[start..n]`. */
  ghost predicate NoneWithin(p: Data, t: Data, start: nat, n: int) {
    forall q | start <= q && q + |p| <= n :: !MatchAt(p, t, q)
  }

  lemma {:induction false} FallBack(p: Data, j: int, t: Data, start: nat, n: nat, c: byte, next: int)
    requires start < n <= |t| && 0 < j < |p| && j <= n - 1 - start && p[j] != c
    requires Ends(p, j, t, n - 1) && NoneLonger(p, j, t, start, n, c) && LongestBorder(p, j, next)
    ensures Ends(p, next, t, n - 1) && NoneLonger(p, next, t, start, n, c)
  {
    var m := n - 1;
    forall k | 0 <= k <= j ensures Ends(p, k, t, m) <==> Ends(p, k, p, j) {
      EndsFallsBack(p, j, t, m, k);
    }
  }

  lemma Restart(p: Data, t: Data, start: nat, n: nat, c: byte)
    requires p != [] && NoneLonger(p, 0, t, start, n, c) && p[0] != c
    ensures NoneLonger(p, -1, t, start, n, c)
  {
  }

  lemma SliceExtends(t: Data, i: nat, j: nat)
    requires i <= j < |t|
    ensures t[i..j + 1] == t[i..j] + [t[j]]
  {
  }

  lemma StartOfSearch(p: Data, t: Data, start: nat)
    requires p != [] && start <= |t|
    ensures Ends(p, 0, t, start) && NoneWithin(p, t, start, start)
    ensures start == |t| ==> Find(p, t, start) == -1
    ensures start < |t| ==> NoneLonger(p, 0, t, start, start + 1, t[start])
  {
  }

  lemma {:induction false} Completed(p: Data, t: Data, start: nat, n: nat)
    requires p != [] && start < n <= |t| && |p| <= n - start
    requires Ends(p, |p| - 1, t, n - 1) && p[|p| - 1] == t[n - 1]
    requires NoneWithin(p, t, start, n - 1)
    ensures Find(p, t, start) == n - |p|
  {
    EndsExtends(p, |p| - 1, t, n - 1);
    assert MatchAt(p, t, n - |p|);
    FindUnique(p, t, start, n - |p|);
  }

  /** When `j` bytes and the next one are the longest match, nothing longer ends at `n`. */
  lemma {:induction false} Advance(p: Data, j: int, t: Data, start: nat, n: nat, c: byte)
    requires start < n <= |t| && c == t[n - 1] && -1 <= j < |p| - 1
    requires j >= 0 ==> Ends(p, j, t, n - 1)
    requires j >= 0 ==> p[j] == c
    requires NoneLonger(p, j, t, start, n, c) && NoneWithin(p, t, start, n - 1)
    ensures NoneWithin(p, t, start, n)
    ensures n < |t| ==> Ends(p, j + 1, t, n) && NoneLonger(p, j + 1, t, start, n + 1, t[n])
  {
    hide Ends, NoneWithin, MatchAt;
    forall k | j + 1 < k <= |p| && k <= n - start ensures !Ends(p, k, t, n) {
      EndsExtends(p, k - 1, t, n - 1);
    }
    NoneEndingHere(p, t, start, n);
    EmptyEnds(p, t, n);
    if j >= 0 {
      EndsExtends(p, j, t, n - 1);
    }
  }

  lemma EmptyEnds(p: Data, t: Data, n: nat)
    requires n <= |t|
    ensures Ends(p, 0, t, n)
  {
  }

  lemma NoneEndingHere(p: Data, t: Data, start: nat, n: nat)
    requires start < n <= |t| && NoneWithin(p, t, start, n - 1)
    requires |p| <= n - start ==> !Ends(p, |p|, t, n)
    ensures NoneWithin(p, t, start, n)
  {
    if |p| <= n - start {
      assert p[..|p|] == p;
    }
  }

  predicate MatchAt(p: Data, t: Data, q: int) {
    0 <= q && q + |p| <= |t| && t[q..q + |p|] == p
  }

  /** The first occurrence of `p` in `t` at or after `start`, or -1. */
  function Find(p: Data, t: Data, start: nat): (q: int)
    ensures q == -1 || (start <= q && MatchAt(p, t, q))
    decreases |t| - start
  {
    if start > |t| then -1
    else if MatchAt(p, t, start) then start
    else if start == |t| then -1
    else Find(p, t, start + 1)
  }

  lemma {:induction false} FindIsFirst(p: Data, t: Data, start: nat, q: int)
    requires start <= q && MatchAt(p, t, q)
    ensures start <= Find(p, t, start) <= q
    decreases |t| - start
  {
    if !MatchAt(p, t, start) {
      FindIsFirst(p, t, start + 1, q);
    }
  }

  /** The position that `Find` returns is the one match with none before it. */
  lemma FindUnique(p: Data, t: Data, start: nat, q: int)
    requires start <= q && MatchAt(p, t, q) && NoneWithin(p, t, start, q + |p| - 1)
    ensures Find(p, t, start) == q
  {
    FindIsFirst(p, t, start, q);
    assert Find(p, t, start) + |p| <= q + |p|;
  }

  lemma FindNone(p: Data, t: Data, start: nat)
    requires NoneWithin(p, t, start, |t|)
    ensures Find(p, t, start) == -1
  {
  }

  lemma {:induction false} FindAllNone(p: Data, t: Data, start: nat, q: int)
    requires Find(p, t, start) == -1 && start <= q
    ensures !MatchAt(p, t, q)
  {
    if MatchAt(p, t, q) {
      FindIsFirst(p, t, start, q);
    }
  }

  // ----- Lines

  const CR_LF: Data := [0x0d, 0x0a]

  /** A default-constructed QString is null; appending to it makes it a string of characters. */
  datatype QString = Null | Chars(s: Data) {
    function Append(c: byte): QString {
      match this
      case Null => Chars([c])
      case Chars(s) => Chars(s + [c])
    }

    function Content(): Data {
      if Null? then [] else s
    }

    function Length(): nat {
      |Content()|
    }
  }

  /** Not a control character, for a signed `char`. */
  predicate Visible(c: byte) {
    0x20 <= c < 0x80 || c == 9
  }

  /** The visible bytes, at most `limit` of them. */
  function Filtered(bytes: Data, limit: int): (r: Data)
    ensures |r| <= |bytes| && (0 <= limit ==> |r| <= limit)
    ensures forall i | 0 <= i < |r| :: Visible(r[i])
    decreases |bytes|
  {
    if bytes == [] || limit <= 0 then []
    else if Visible(bytes[0]) then [bytes[0]] + Filtered(bytes[1..], limit - 1)
    else Filtered(bytes[1..], limit)
  }

  lemma FilterStep(bytes: Data, i: nat, limit: int)
    requires i <= |bytes|
    ensures i == |bytes| || limit <= 0 ==> Filtered(bytes[i..], limit) == []
    ensures i < |bytes| && limit > 0 ==>
              Filtered(bytes[i..], limit) == if Visible(bytes[i]) then [bytes[i]] + Filtered(bytes[i + 1..], limit - 1)
                                             else Filtered(bytes[i + 1..], limit)
  {
    assert i < |bytes| ==> bytes[i..][1..] == bytes[i + 1..];
  }

  /** Printable bytes and tabs are kept, up to the limit. */
  lemma {:induction false} PrintableKept(text: Data, limit: nat)
    requires forall c | c in text :: c == 9 || 32 <= c <= 127
    ensures Filtered(text, limit) == if |text| <= limit then text else text[..limit]
    decreases text
  {
    if text != [] && limit > 0 {
      assert text[0] in text && text == [text[0]] + text[1..];
      assert forall c | c in text[1..] :: c in text;
      PrintableKept(text[1..], limit - 1);
      assert |text| > limit ==> text[..limit] == [text[0]] + text[1..][..limit - 1];
    }
  }

  /** All others are left out. */
  lemma {:induction false} OthersLeftOut(text: Data, limit: int)
    requires forall c | c in text :: c != 9 && (c < 32 || c > 127)
    ensures Filtered(text, limit) == []
    decreases text
  {
    if text != [] && limit > 0 {
      assert text[0] in text && forall c | c in text[1..] :: c in text;
      OthersLeftOut(text[1..], limit);
    }
  }

  function ToQString(s: Data): QString {
    if s == [] then Null else Chars(s)
  }

  /** The line that starts at `pos`: its text, and where the next one starts. */
  function LineAt(t: Data, pos: nat, limit: int): (r: (QString, nat))
    requires pos <= |t|
    ensures pos <= r.1 <= |t|
    ensures r.0 != Null ==> pos + 3 <= r.1
    ensures pos < |t| ==> pos < r.1
  {
    var q := Find(CR_LF, t, pos);
    if q < 0 then (Null, |t|) else (ToQString(Filtered(t[pos..q], limit)), q + 2)
  }

  // ----- The reader

  /** The input: its bytes and the current position. */
  class Device {
    const data: Data
    var pos: nat

    ghost predicate Valid()
      reads this
    {
      pos <= |data|
    }

    constructor (data: Data)
      ensures this.data == data && pos == 0 && Valid()
    {
      this.data, pos := data, 0;
    }

    method GetChar() returns (ok: bool, c: byte)
      requires Valid()
      modifies this
      ensures Valid()
      ensures ok == (old(pos) < |data|)
      ensures if ok then pos == old(pos) + 1 && c == data[old(pos)] else pos == old(pos)
    {
      ok, c := false, 0;
      if pos < |data| {
        ok, c := true, data[pos];
        pos := pos + 1;
      }
    }
  }

  class Reader {
    const stream: Device?

    constructor (stream: Device?)
      modifies stream
      ensures this.stream == stream
      ensures stream != null ==> stream.pos == 0
    {
      this.stream := stream;
      new;
      if stream != null {
        stream.pos := 0;
      }
    }

    method KmpFailureFunction(pattern: Data) returns (f: array<int>)
      ensures fresh(f) && f.Length == |pattern|
      ensures |pattern| > 0 ==> f[0] == 0
      ensures forall i | 0 <= i < |pattern| :: LongestBorder(pattern, i + 1, f[i])
    {
      hide Ends, LongestBorder, NoneBetween;
      f := new int[|pattern|](_ => 0);
      var i, j := 1, 0;
      if |pattern| > 0 {
        BorderOfOne(pattern);
      }
      while i < |pattern|
        invariant 0 <= j < i && (|pattern| > 0 ==> i <= |pattern| && f[0] == 0)
        invariant forall l | 0 <= l < i && l < |pattern| :: LongestBorder(pattern, l + 1, f[l])
        invariant i < |pattern| ==> Ends(pattern, j, pattern, i) && NoneBetween(pattern, j, i)
        decreases |pattern| - i, j
      {
        if pattern[j] == pattern[i] {
          BorderExtends(pattern, i, j);
          f[i] := j + 1;
          i := i + 1;
          j := j + 1;
        } else if j > 0 {
          assert LongestBorder(pattern, j, f[j - 1]);
          BorderFallsBack(pattern, i, j, f[j - 1]);
          j := f[j - 1];
        } else {
          BorderEmpty(pattern, i);
          f[i] := 0;
          i := i + 1;
        }
      }
    }

    /**
     Reads through the first occurrence of `pattern` at or after the current position, or to the end
     of the stream when there is none; `steps` counts the iterations of the matching loop.
     */
    method ReadTo(pattern: Data) returns (result: int, readBytes: Data, ghost steps: nat)
      requires stream != null ==> stream.Valid()
      modifies stream
      ensures stream == null || pattern == [] ==> result == -1 && readBytes == []
      ensures stream != null && pattern == [] ==> stream.Valid() && stream.pos == old(stream.pos)
      ensures stream != null && pattern != [] ==>
                && stream.Valid()
                && result == Find(pattern, stream.data, old(stream.pos))
                && stream.pos == (if result == -1 then |stream.data| else result + |pattern|)
                && old(stream.pos) <= stream.pos
                && readBytes == stream.data[old(stream.pos)..stream.pos]
      ensures steps <= 2 * |readBytes|
    {
      hide Find, MatchAt, Ends, NoneLonger, NoneWithin;
      readBytes, steps := [], 0;
      if stream == null || pattern == [] {
        return -1, readBytes, 0;
      }
      var f := KmpFailureFunction(pattern);
      ghost var start, t := stream.pos, stream.data;
      StartOfSearch(pattern, t, start);
      var j := 0;
      var ok, c := stream.GetChar();
      if !ok {
        return -1, readBytes, 0;
      }
      readBytes := readBytes + [c];
      ghost var n := start + 1;
      SliceExtends(t, start, start);
      while stream.pos <= |stream.data|
        invariant stream.pos == n <= |t| && start < n && c == t[n - 1]
        invariant readBytes == t[start..n]
        invariant 0 <= j < |pattern| && j <= n - 1 - start && Ends(pattern, j, t, n - 1)
        invariant NoneLonger(pattern, j, t, start, n, c)
        invariant NoneWithin(pattern, t, start, n - 1)
        invariant forall i | 0 <= i < |pattern| :: LongestBorder(pattern, i + 1, f[i])
        invariant steps + j <= 2 * (n - 1 - start)
        decreases |t| - n, j
      {
        steps := steps + 1;
        if pattern[j] == c {
          if j == |pattern| - 1 {
            Completed(pattern, t, start, n);
            return stream.pos - |pattern|, readBytes, steps;
          }
          Advance(pattern, j, t, start, n, c);
          ok, c := stream.GetChar();
          if !ok {
            FindNone(pattern, t, start);
            return -1, readBytes, steps;
          }
          SliceExtends(t, start, n);
          readBytes := readBytes + [c];
          n, j := n + 1, j + 1;
        } else if j > 0 {
          assert LongestBorder(pattern, j, f[j - 1]);
          FallBack(pattern, j, t, start, n, c, f[j - 1]);
          j := f[j - 1];
        } else {
          Restart(pattern, t, start, n, c);
          Advance(pattern, -1, t, start, n, c);
          ok, c := stream.GetChar();
          if !ok {
            FindNone(pattern, t, start);
            return -1, readBytes, steps;
          }
          SliceExtends(t, start, n);
          readBytes := readBytes + [c];
          n := n + 1;
        }
      }
      assert false;
    }

    method ReadLine(returnStringTruncateLength: int) returns (line: QString)
      requires stream != null ==> stream.Valid()
      modifies stream
      ensures stream == null ==> line == Null
      ensures stream != null ==>
                && stream.Valid()
                && (line, stream.pos) == LineAt(stream.data, old(stream.pos), returnStringTruncateLength)
    {
      hide Find, Filtered;
      var breakPosition, lineBytes, _ := ReadTo(CR_LF);
      if |lineBytes| < 2 || breakPosition < 0 {
        return Null;
      }
      ghost var text := lineBytes[..|lineBytes| - 2];
      assert text == stream.data[old(stream.pos)..breakPosition];
      line := FilterLine(lineBytes, returnStringTruncateLength);
    }

    /** The loop that keeps the visible bytes, without the line break at the end. */
    static method FilterLine(lineBytes: Data, limit: int) returns (line: QString)
      requires |lineBytes| >= 2
      ensures line == ToQString(Filtered(lineBytes[..|lineBytes| - 2], limit))
    {
      hide Filtered;
      line := Null;
      var i := 0;
      ghost var text := lineBytes[..|lineBytes| - 2];
      assert text[0..] == text;
      while i < |lineBytes| - 2 && line.Length() < limit
        invariant 0 <= i <= |text| == |lineBytes| - 2
        invariant line != Chars([])
        invariant Filtered(text, limit) == line.Content() + Filtered(text[i..], limit - line.Length())
      {
        FilterStep(text, i, limit - line.Length());
        if Visible(lineBytes[i]) {
          line := line.Append(lineBytes[i]);
        }
        i := i + 1;
      }
      FilterStep(text, i, limit - line.Length());
      assert line.Content() + [] == line.Content();
    }
  }
}
