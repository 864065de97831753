/** Merging several enumerations by repeatedly taking the best of their current elements. */
module MergedEnumerable {

  // ----- The merge as a function of what is left of each input

  ghost predicate AllNonEmpty<T>(rest: seq<seq<T>>) {
    forall i | 0 <= i < |rest| :: rest[i] != []
  }

  /** The scan over the first `n` current elements: a later one wins only if it is better. */
  function BestOf<T>(isBetter: (T, T) -> bool, rest: seq<seq<T>>, n: nat): (b: nat)
    requires 1 <= n <= |rest| && AllNonEmpty(rest)
    ensures b < n
  {
    if n == 1 then 0
    else
      var b := BestOf(isBetter, rest, n - 1);
      if isBetter(rest[n - 1][0], rest[b][0]) then n - 1 else b
  }

  function Best<T>(isBetter: (T, T) -> bool, rest: seq<seq<T>>): (b: nat)
    requires rest != [] && AllNonEmpty(rest)
    ensures b < |rest|
  {
    BestOf(isBetter, rest, |rest|)
  }

  /** What is left once the current element of input `b` has been passed. */
  function Pop<T(==)>(rest: seq<seq<T>>, b: nat): (r: seq<seq<T>>)
    requires b < |rest| && AllNonEmpty(rest)
    ensures AllNonEmpty(r)
  {
    if |rest[b]| == 1 then rest[..b] + rest[b + 1..] else rest[b := rest[b][1..]]
  }

  function Flat<T>(rest: seq<seq<T>>): seq<T> {
    if rest == [] then [] else rest[0] + Flat(rest[1..])
  }

  lemma {:induction false} FlatAppend<T>(a: seq<seq<T>>, b: seq<seq<T>>)
    ensures Flat(a + b) == Flat(a) + Flat(b)
    decreases a
  {
    if a == [] {
      assert a + b == b;
    } else {
      assert (a + b)[1..] == a[1..] + b;
      FlatAppend(a[1..], b);
    }
  }

  /** `rest` around its entry `b`. */
  lemma FlatAround<T>(rest: seq<seq<T>>, b: nat)
    requires b < |rest|
    ensures Flat(rest) == Flat(rest[..b]) + (rest[b] + Flat(rest[b + 1..]))
  {
    assert rest == rest[..b] + rest[b..];
    assert rest[b..][1..] == rest[b + 1..];
    FlatAppend(rest[..b], rest[b..]);
  }

  lemma FlatPop<T>(rest: seq<seq<T>>, b: nat)
    requires b < |rest| && AllNonEmpty(rest)
    ensures Flat(Pop(rest, b)) == Flat(rest[..b]) + (rest[b][1..] + Flat(rest[b + 1..]))
    ensures |Flat(Pop(rest, b))| == |Flat(rest)| - 1
  {
    FlatAround(rest, b);
    if |rest[b]| == 1 {
      FlatAppend(rest[..b], rest[b + 1..]);
      assert rest[b][1..] + Flat(rest[b + 1..]) == Flat(rest[b + 1..]);
    } else {
      var r := rest[b := rest[b][1..]];
      FlatAround(r, b);
      assert r[..b] == rest[..b] && r[b + 1..] == rest[b + 1..];
    }
  }

  /** Everything that repeated MoveNext and Current produce. */
  function Drain<T(==)>(isBetter: (T, T) -> bool, rest: seq<seq<T>>): (out: seq<T>)
    requires AllNonEmpty(rest)
    decreases |Flat(rest)|
  {
    if rest == [] then []
    else
      var b := Best(isBetter, rest);
      FlatPop(rest, b);
      [rest[b][0]] + Drain(isBetter, Pop(rest, b))
  }

  function DropEmpty<T(==)>(inputs: seq<seq<T>>): (r: seq<seq<T>>)
    ensures AllNonEmpty(r)
    ensures Flat(r) == Flat(inputs)
  {
    if inputs == [] then []
    else
      var r := DropEmpty(inputs[1..]);
      if inputs[0] == [] then r
      else
        assert ([inputs[0]] + r)[1..] == r;
        [inputs[0]] + r
  }

  /** What enumerating the merge of `inputs` yields. */
  function Merged<T(==)>(isBetter: (T, T) -> bool, inputs: seq<seq<T>>): seq<T> {
    Drain(isBetter, DropEmpty(inputs))
  }

  // ----- For every isBetter: each element exactly once, the order within each input kept

  /** An input with the position it was given at. */
  datatype Tagged<T> = Tagged(tag: nat, items: seq<T>)

  datatype Picked<T> = Picked(tag: nat, item: T)

  function Items<T>(ts: seq<Tagged<T>>): (r: seq<seq<T>>)
    ensures |r| == |ts| && forall i | 0 <= i < |r| :: r[i] == ts[i].items
  {
    seq(|ts|, i requires 0 <= i < |ts| => ts[i].items)
  }

  function PopTagged<T(==)>(ts: seq<Tagged<T>>, b: nat): (r: seq<Tagged<T>>)
    requires b < |ts| && AllNonEmpty(Items(ts))
    ensures Items(r) == Pop(Items(ts), b)
  {
    if |ts[b].items| == 1 then
      var r := ts[..b] + ts[b + 1..];
      assert Items(r) == Items(ts)[..b] + Items(ts)[b + 1..];
      r
    else ts[b := Tagged(ts[b].tag, ts[b].items[1..])]
  }

  /** The same merge, with each element carrying the tag of the input it was taken from. */
  function DrainTagged<T(==)>(isBetter: (T, T) -> bool, ts: seq<Tagged<T>>): seq<Picked<T>>
    requires AllNonEmpty(Items(ts))
    decreases |Flat(Items(ts))|
  {
    if ts == [] then []
    else
      var b := Best(isBetter, Items(ts));
      FlatPop(Items(ts), b);
      [Picked(ts[b].tag, ts[b].items[0])] + DrainTagged(isBetter, PopTagged(ts, b))
  }

  function Picks<T>(ps: seq<Picked<T>>): (r: seq<T>)
    ensures |r| == |ps| && forall i | 0 <= i < |r| :: r[i] == ps[i].item
  {
    seq(|ps|, i requires 0 <= i < |ps| => ps[i].item)
  }

  /** The elements taken from the input tagged `t`, in the order in which they were taken. */
  function From<T>(ps: seq<Picked<T>>, t: nat): seq<T> {
    if ps == [] then [] else (if ps[0].tag == t then [ps[0].item] else []) + From(ps[1..], t)
  }

  ghost predicate DistinctTags<T>(ts: seq<Tagged<T>>) {
    forall i, j | 0 <= i < j < |ts| :: ts[i].tag != ts[j].tag
  }

  /** What is left of the input tagged `t`. */
  function Left<T>(ts: seq<Tagged<T>>, t: nat): seq<T> {
    if ts == [] then [] else if ts[0].tag == t then ts[0].items else Left(ts[1..], t)
  }

  lemma {:induction false} LeftAt<T>(ts: seq<Tagged<T>>, i: nat)
    requires i < |ts| && DistinctTags(ts)
    ensures Left(ts, ts[i].tag) == ts[i].items
    decreases ts
  {
    if i > 0 {
      LeftAt(ts[1..], i - 1);
    }
  }

  lemma {:induction false} LeftNone<T>(ts: seq<Tagged<T>>, t: nat)
    requires forall i | 0 <= i < |ts| :: ts[i].tag != t
    ensures Left(ts, t) == []
    decreases ts
  {
    if ts != [] {
      LeftNone(ts[1..], t);
    }
  }

  lemma {:induction false} LeftAppend<T>(a: seq<Tagged<T>>, b: seq<Tagged<T>>, t: nat)
    ensures Left(a + b, t) == if exists i :: 0 <= i < |a| && a[i].tag == t then Left(a, t) else Left(b, t)
    decreases a
  {
    if a == [] {
      assert a + b == b;
    } else {
      assert (a + b)[1..] == a[1..] + b;
      LeftAppend(a[1..], b, t);
      if a[0].tag != t {
        if i :| 0 <= i < |a| && a[i].tag == t {
          assert a[1..][i - 1].tag == t;
        }
      }
    }
  }

  /** Popping input `b` takes its first element and leaves the others alone. */
  lemma {:induction false} PopLeft<T>(ts: seq<Tagged<T>>, b: nat, t: nat)
    requires b < |ts| && AllNonEmpty(Items(ts)) && DistinctTags(ts)
    ensures DistinctTags(PopTagged(ts, b))
    ensures Left(ts, t) == (if ts[b].tag == t then [ts[b].items[0]] else []) + Left(PopTagged(ts, b), t)
  {
    hide Left;
    var r := PopTagged(ts, b);
    if i :| 0 <= i < |ts| && ts[i].tag == t {
      LeftAt(ts, i);
      if i == b {
        if |ts[b].items| == 1 {
          LeftNone(r, t);
        } else {
          LeftAt(r, b);
        }
      } else {
        LeftAt(r, if |ts[b].items| == 1 && i > b then i - 1 else i);
      }
    } else {
      LeftNone(ts, t);
      LeftNone(r, t);
    }
  }

  lemma {:induction false} DrainFrom<T>(isBetter: (T, T) -> bool, ts: seq<Tagged<T>>, t: nat)
    requires AllNonEmpty(Items(ts)) && DistinctTags(ts)
    ensures From(DrainTagged(isBetter, ts), t) == Left(ts, t)
    decreases |Flat(Items(ts))|
  {
    if ts != [] {
      var b := Best(isBetter, Items(ts));
      FlatPop(Items(ts), b);
      PopLeft(ts, b, t);
      DrainFrom(isBetter, PopTagged(ts, b), t);
      var p, rest := Picked(ts[b].tag, ts[b].items[0]), DrainTagged(isBetter, PopTagged(ts, b));
      assert ([p] + rest)[1..] == rest;
    }
  }

  lemma {:induction false} DrainUntagged<T>(isBetter: (T, T) -> bool, ts: seq<Tagged<T>>)
    requires AllNonEmpty(Items(ts))
    ensures Picks(DrainTagged(isBetter, ts)) == Drain(isBetter, Items(ts))
    ensures |DrainTagged(isBetter, ts)| == |Flat(Items(ts))|
    decreases |Flat(Items(ts))|
  {
    hide Flat, Pop, PopTagged, Best;
    if ts == [] {
      assert Items(ts) == [];
      assert |Flat<T>([])| == 0 by {
        FlatNothing<T>();
      }
    } else {
      var b := Best(isBetter, Items(ts));
      FlatPop(Items(ts), b);
      var rest := PopTagged(ts, b);
      DrainUntagged(isBetter, rest);
    }
  }

  lemma FlatNothing<T>()
    ensures Flat<T>([]) == []
  {
  }

  function Tag<T>(inputs: seq<seq<T>>, n: nat): (ts: seq<Tagged<T>>)
    ensures |ts| <= |inputs|
    ensures forall i | 0 <= i < |ts| :: n <= ts[i].tag < n + |inputs|
    ensures DistinctTags(ts)
  {
    if inputs == [] then []
    else (if inputs[0] == [] then [] else [Tagged(n, inputs[0])]) + Tag(inputs[1..], n + 1)
  }

  lemma {:induction false} TagItems<T>(inputs: seq<seq<T>>, n: nat)
    ensures Items(Tag(inputs, n)) == DropEmpty(inputs)
    decreases inputs
  {
    if inputs != [] {
      TagItems(inputs[1..], n + 1);
      var ts := Tag(inputs[1..], n + 1);
      assert Items([Tagged(n, inputs[0])] + ts) == [inputs[0]] + Items(ts);
      assert Tag(inputs, n) == if inputs[0] == [] then ts else [Tagged(n, inputs[0])] + ts;
    }
  }

  lemma TagStep<T>(inputs: seq<seq<T>>, n: nat)
    requires inputs != []
    ensures Tag(inputs, n) == if inputs[0] == [] then Tag(inputs[1..], n + 1)
                              else [Tagged(n, inputs[0])] + Tag(inputs[1..], n + 1)
  {
  }

  lemma LeftFirst<T>(first: Tagged<T>, ts: seq<Tagged<T>>, t: nat)
    ensures Left([first] + ts, t) == if first.tag == t then first.items else Left(ts, t)
  {
    assert ([first] + ts)[1..] == ts;
  }

  lemma {:induction false} TagLeft<T>(inputs: seq<seq<T>>, n: nat, i: nat)
    requires i < |inputs|
    ensures Left(Tag(inputs, n), n + i) == inputs[i]
    decreases inputs
  {
    hide Tag, Left;
    var ts := Tag(inputs[1..], n + 1);
    TagStep(inputs, n);
    LeftFirst(Tagged(n, inputs[0]), ts, n + i);
    if i > 0 {
      TagLeft(inputs[1..], n + 1, i - 1);
    } else if inputs[0] == [] {
      LeftNone(ts, n);
    }
  }

  /**
   Whatever isBetter is, the merge is an interleaving: it consists of picks from the inputs, as many
   as there are elements, and the picks from each input are exactly that input, in order.
   */
  lemma {:induction false} Interleaves<T>(isBetter: (T, T) -> bool, inputs: seq<seq<T>>)
    ensures AllNonEmpty(Items(Tag(inputs, 0)))
    ensures var ps := DrainTagged(isBetter, Tag(inputs, 0));
            && Picks(ps) == Merged(isBetter, inputs)
            && |ps| == |Flat(inputs)|
            && forall i | 0 <= i < |inputs| :: From(ps, i) == inputs[i]
  {
    hide Left, Drain, DrainTagged, Flat, DropEmpty, Tag;
    var ts := Tag(inputs, 0);
    TagItems(inputs, 0);
    DrainUntagged(isBetter, ts);
    forall i | 0 <= i < |inputs| ensures From(DrainTagged(isBetter, ts), i) == inputs[i] {
      DrainFrom(isBetter, ts, i);
      TagLeft(inputs, 0, i);
    }
  }

  // ----- For a strict weak order and sorted inputs: the stable sort

  ghost predicate StrictWeakOrder<T(!new)>(isBetter: (T, T) -> bool) {
    && (forall a :: !isBetter(a, a))
    && (forall a, b, c :: isBetter(a, b) && isBetter(b, c) ==> isBetter(a, c))
    && (forall a, b, c :: isBetter(a, c) ==> isBetter(a, b) || isBetter(b, c))
  }

  ghost predicate Sorted<T>(isBetter: (T, T) -> bool, s: seq<T>) {
    forall i, j | 0 <= i < j < |s| :: !isBetter(s[j], s[i])
  }

  predicate Ties<T>(isBetter: (T, T) -> bool, a: T, b: T) {
    !isBetter(a, b) && !isBetter(b, a)
  }

  /** The elements that tie with `x`, in order. */
  function Class<T>(isBetter: (T, T) -> bool, s: seq<T>, x: T): seq<T> {
    if s == [] then [] else (if Ties(isBetter, s[0], x) then [s[0]] else []) + Class(isBetter, s[1..], x)
  }

  /** `out` is sorted, and elements that tie come in the same order as in `s`. */
  ghost predicate IsStableSort<T(!new)>(isBetter: (T, T) -> bool, out: seq<T>, s: seq<T>) {
    Sorted(isBetter, out) && forall x :: Class(isBetter, out, x) == Class(isBetter, s, x)
  }

  lemma {:induction false} ClassAppend<T>(isBetter: (T, T) -> bool, a: seq<T>, b: seq<T>, x: T)
    ensures Class(isBetter, a + b, x) == Class(isBetter, a, x) + Class(isBetter, b, x)
    decreases a
  {
    if a == [] {
      assert a + b == b;
    } else {
      assert (a + b)[1..] == a[1..] + b;
      ClassAppend(isBetter, a[1..], b, x);
      hide Ties;
      var first := if Ties(isBetter, a[0], x) then [a[0]] else [];
      assert first + (Class(isBetter, a[1..], x) + Class(isBetter, b, x))
          == (first + Class(isBetter, a[1..], x)) + Class(isBetter, b, x);
    }
  }

  lemma {:induction false} ClassNone<T>(isBetter: (T, T) -> bool, s: seq<T>, x: T)
    requires forall y | y in s :: !Ties(isBetter, y, x)
    ensures Class(isBetter, s, x) == []
    decreases s
  {
    if s != [] {
      ClassNone(isBetter, s[1..], x);
    }
  }

  /** The scan finds the first of the best: nothing beats it, and it beats everything before it. */
  lemma {:induction false} BestIsFirst<T(!new)>(isBetter: (T, T) -> bool, rest: seq<seq<T>>, n: nat)
    requires StrictWeakOrder(isBetter) && 1 <= n <= |rest| && AllNonEmpty(rest)
    ensures var b := BestOf(isBetter, rest, n);
            && (forall j | 0 <= j < n :: !isBetter(rest[j][0], rest[b][0]))
            && (forall j | 0 <= j < b :: isBetter(rest[b][0], rest[j][0]))
    decreases n
  {
    if n > 1 {
      BestIsFirst(isBetter, rest, n - 1);
    }
  }

  ghost predicate AllSorted<T>(isBetter: (T, T) -> bool, rest: seq<seq<T>>) {
    forall i | 0 <= i < |rest| :: Sorted(isBetter, rest[i])
  }

  lemma {:induction false} FlatMember<T>(rest: seq<seq<T>>, y: T)
    ensures y in Flat(rest) <==> exists i :: 0 <= i < |rest| && y in rest[i]
    decreases rest
  {
    if rest != [] {
      FlatMember(rest[1..], y);
      if y in rest[0] {
        assert 0 <= 0 < |rest| && y in rest[0];
      }
      if i :| 0 <= i < |rest| - 1 && y in rest[1..][i] {
        assert y in rest[i + 1];
      }
      if i :| 0 <= i < |rest| && y in rest[i] {
        assert i > 0 ==> y in rest[1..][i - 1];
      }
    }
  }

  /** The element picked is no worse than any other, and strictly better than all of earlier inputs. */
  lemma {:induction false} BestBeats<T(!new)>(isBetter: (T, T) -> bool, rest: seq<seq<T>>, y: T)
    requires StrictWeakOrder(isBetter) && rest != [] && AllNonEmpty(rest) && AllSorted(isBetter, rest)
    ensures var b := Best(isBetter, rest);
            && (y in Flat(rest) ==> !isBetter(y, rest[b][0]))
            && (y in Flat(rest[..b]) ==> isBetter(rest[b][0], y))
  {
    BestIsFirst(isBetter, rest, |rest|);
    var b := Best(isBetter, rest);
    FlatMember(rest, y);
    FlatMember(rest[..b], y);
    if y in Flat(rest) {
      var i :| 0 <= i < |rest| && y in rest[i];
      NoBetterThanHead(isBetter, rest[i], y);
    }
    if y in Flat(rest[..b]) {
      var i :| 0 <= i < b && y in rest[..b][i];
      NoBetterThanHead(isBetter, rest[i], y);
    }
  }

  lemma NoBetterThanHead<T>(isBetter: (T, T) -> bool, s: seq<T>, y: T)
    requires Sorted(isBetter, s) && y in s && !isBetter(y, y)
    ensures !isBetter(y, s[0])
  {
    var i :| 0 <= i < |s| && s[i] == y;
  }

  lemma {:induction false} PopSorted<T>(isBetter: (T, T) -> bool, rest: seq<seq<T>>, b: nat)
    requires b < |rest| && AllNonEmpty(rest) && AllSorted(isBetter, rest)
    ensures AllSorted(isBetter, Pop(rest, b))
  {
    var tail := rest[b][1..];
    forall i, j | 0 <= i < j < |tail| ensures !isBetter(tail[j], tail[i]) {
      assert tail[i] == rest[b][i + 1] && tail[j] == rest[b][j + 1];
    }
  }

  /** Taking the best element takes the first of its class. */
  lemma {:induction false} PopClass<T(!new)>(isBetter: (T, T) -> bool, rest: seq<seq<T>>, x: T)
    requires StrictWeakOrder(isBetter) && rest != [] && AllNonEmpty(rest) && AllSorted(isBetter, rest)
    ensures var b := Best(isBetter, rest);
            Class(isBetter, Flat(rest), x)
            == (if Ties(isBetter, rest[b][0], x) then [rest[b][0]] else []) + Class(isBetter, Flat(Pop(rest, b)), x)
  {
    hide Flat, Pop;
    var b := Best(isBetter, rest);
    var e, before, after := rest[b][0], Flat(rest[..b]), Flat(rest[b + 1..]);
    FlatAround(rest, b);
    FlatPop(rest, b);
    ClassAppend(isBetter, before, rest[b] + after, x);
    ClassAppend(isBetter, before, rest[b][1..] + after, x);
    assert rest[b] == [e] + rest[b][1..];
    assert (rest[b] + after)[1..] == rest[b][1..] + after;
    if Ties(isBetter, e, x) {
      forall y | y in before ensures !Ties(isBetter, y, x) {
        BestBeats(isBetter, rest, y);
      }
      ClassNone(isBetter, before, x);
    }
  }

  lemma {:induction false} DrainMembers<T>(isBetter: (T, T) -> bool, rest: seq<seq<T>>, y: T)
    requires AllNonEmpty(rest)
    ensures y in Drain(isBetter, rest) ==> y in Flat(rest)
    decreases |Flat(rest)|
  {
    if rest != [] {
      var b := Best(isBetter, rest);
      FlatPop(rest, b);
      FlatAround(rest, b);
      DrainMembers(isBetter, Pop(rest, b), y);
      assert rest[b] == [rest[b][0]] + rest[b][1..];
    }
  }

  lemma {:induction false} DrainSorted<T(!new)>(isBetter: (T, T) -> bool, rest: seq<seq<T>>)
    requires StrictWeakOrder(isBetter) && AllNonEmpty(rest) && AllSorted(isBetter, rest)
    ensures Sorted(isBetter, Drain(isBetter, rest))
    decreases |Flat(rest)|
  {
    if rest != [] {
      var b := Best(isBetter, rest);
      FlatPop(rest, b);
      FlatAround(rest, b);
      PopSorted(isBetter, rest, b);
      DrainSorted(isBetter, Pop(rest, b));
      var tail := Drain(isBetter, Pop(rest, b));
      hide Drain, Flat, Pop, AllSorted;
      forall j | 0 <= j < |tail| ensures !isBetter(tail[j], rest[b][0]) {
        DrainMembers(isBetter, Pop(rest, b), tail[j]);
        BestBeats(isBetter, rest, tail[j]);
      }
    }
  }

  lemma {:induction false} DrainClass<T(!new)>(isBetter: (T, T) -> bool, rest: seq<seq<T>>, x: T)
    requires StrictWeakOrder(isBetter) && AllNonEmpty(rest) && AllSorted(isBetter, rest)
    ensures Class(isBetter, Drain(isBetter, rest), x) == Class(isBetter, Flat(rest), x)
    decreases |Flat(rest)|
  {
    if rest != [] {
      var b := Best(isBetter, rest);
      FlatPop(rest, b);
      PopSorted(isBetter, rest, b);
      PopClass(isBetter, rest, x);
      DrainClass(isBetter, Pop(rest, b), x);
      var tail := Drain(isBetter, Pop(rest, b));
      assert ([rest[b][0]] + tail)[1..] == tail;
    }
  }

  lemma {:induction false} DropEmptySorted<T>(isBetter: (T, T) -> bool, inputs: seq<seq<T>>)
    requires AllSorted(isBetter, inputs)
    ensures AllSorted(isBetter, DropEmpty(inputs))
    decreases inputs
  {
    if inputs != [] {
      DropEmptySorted(isBetter, inputs[1..]);
    }
  }

  /** Merging sorted inputs gives the stable sort of their concatenation; ties go to the earlier input. */
  lemma {:induction false} MergesStably<T(!new)>(isBetter: (T, T) -> bool, inputs: seq<seq<T>>)
    requires StrictWeakOrder(isBetter) && AllSorted(isBetter, inputs)
    ensures IsStableSort(isBetter, Merged(isBetter, inputs), Flat(inputs))
  {
    hide Drain, DropEmpty, Class, Flat, StrictWeakOrder;
    DropEmptySorted(isBetter, inputs);
    DrainSorted(isBetter, DropEmpty(inputs));
    forall x ensures Class(isBetter, Merged(isBetter, inputs), x) == Class(isBetter, Flat(inputs), x) {
      DrainClass(isBetter, DropEmpty(inputs), x);
    }
  }

  lemma TailOfSorted<T>(isBetter: (T, T) -> bool, s: seq<T>)
    requires Sorted(isBetter, s) && s != []
    ensures Sorted(isBetter, s[1..]) && forall y | y in s[1..] :: !isBetter(y, s[0])
  {
    var tail := s[1..];
    assert forall i | 0 <= i < |tail| :: tail[i] == s[i + 1];
  }

  lemma {:induction false} ClassMembers<T>(isBetter: (T, T) -> bool, s: seq<T>, x: T, y: T)
    ensures y in Class(isBetter, s, x) ==> y in s && Ties(isBetter, y, x)
    decreases s
  {
    if s != [] {
      ClassMembers(isBetter, s[1..], x, y);
    }
  }

  lemma ClassFirst<T>(isBetter: (T, T) -> bool, s: seq<T>, x: T)
    requires s != []
    ensures Class(isBetter, s[1..], x)
         == if Ties(isBetter, s[0], x) then Class(isBetter, s, x)[1..] else Class(isBetter, s, x)
    ensures Ties(isBetter, s[0], x) ==> Class(isBetter, s, x) != []
  {
  }

  lemma EmptyClasses<T(!new)>(isBetter: (T, T) -> bool, s: seq<T>)
    requires StrictWeakOrder(isBetter) && forall x :: Class(isBetter, s, x) == []
    ensures s == []
  {
    if s != [] {
      ClassFirst(isBetter, s, s[0]);
    }
  }

  /** There is only one stable sort. */
  lemma {:induction false} StableSortUnique<T(!new)>(isBetter: (T, T) -> bool, out: seq<T>, other: seq<T>)
    requires StrictWeakOrder(isBetter) && Sorted(isBetter, out) && Sorted(isBetter, other)
    requires forall x :: Class(isBetter, out, x) == Class(isBetter, other, x)
    ensures out == other
    decreases |out|
  {
    if out == [] {
      EmptyClasses(isBetter, other);
    } else {
      var e := out[0];
      assert Class(isBetter, out, e)[0] == e;
      ClassMembers(isBetter, other, e, e);
      var f := other[0];
      assert Class(isBetter, other, f)[0] == f;
      ClassMembers(isBetter, out, f, f);
      TailOfSorted(isBetter, out);
      TailOfSorted(isBetter, other);
      assert !isBetter(f, e) && !isBetter(e, f);
      assert Class(isBetter, other, e)[0] == f;
      forall x ensures Class(isBetter, out[1..], x) == Class(isBetter, other[1..], x) {
        assert Class(isBetter, out, x) == Class(isBetter, other, x);
        ClassFirst(isBetter, out, x);
        ClassFirst(isBetter, other, x);
      }
      StableSortUnique(isBetter, out[1..], other[1..]);
      assert out == [e] + out[1..] && other == [f] + other[1..];
    }
  }

  // ----- The enumerators

  /** An enumerator over a list: in front of the first element until the first MoveNext. */
  class Enumerator<T(==)> {
    const data: seq<T>
    var index: int

    ghost predicate Valid()
      reads this
    {
      -1 <= index <= |data|
    }

    /** The current element and what follows it, or everything before the first MoveNext. */
    ghost function Rest(): seq<T>
      reads this
    {
      if 0 <= index <= |data| then data[index..] else data
    }

    constructor (data: seq<T>)
      ensures this.data == data && index == -1
    {
      this.data, index := data, -1;
    }

    method MoveNext() returns (r: bool)
      requires Valid()
      modifies this
      ensures Valid() && index >= 0
      ensures Rest() == if old(index) < 0 || old(Rest()) == [] then old(Rest()) else old(Rest())[1..]
      ensures r == (Rest() != [])
    {
      if index < |data| {
        index := index + 1;
      }
      r := index < |data|;
    }

    method Current() returns (x: T)
      requires Valid() && 0 <= index < |data|
      ensures x == Rest()[0]
    {
      x := data[index];
    }
  }

  ghost predicate AllValid<T>(es: seq<Enumerator<T>>)
    reads es
  {
    && (forall i | 0 <= i < |es| :: es[i].Valid())
    && (forall i, j | 0 <= i < j < |es| :: es[i] != es[j])
  }

  ghost function Rests<T>(es: seq<Enumerator<T>>): (r: seq<seq<T>>)
    reads es
    ensures |r| == |es|
  {
    seq(|es|, i requires 0 <= i < |es| reads es => es[i].Rest())
  }

  ghost predicate Distinct<T>(es: seq<Enumerator<T>>) {
    forall i, j | 0 <= i < j < |es| :: es[i] != es[j]
  }

  /** Enumerators in front of their first elements, with the given contents. */
  ghost predicate Ready<T>(es: seq<Enumerator<T>>, rests: seq<seq<T>>)
    reads es
  {
    |es| == |rests| && forall i | 0 <= i < |es| :: es[i].index == -1 && es[i].Rest() == rests[i]
  }

  /** Enumerators that have been started, with the given contents left. */
  ghost predicate Started<T>(es: seq<Enumerator<T>>, rests: seq<seq<T>>)
    reads es
  {
    |es| == |rests| && forall i | 0 <= i < |es| :: es[i].Valid() && es[i].index >= 0 && es[i].Rest() == rests[i]
  }

  lemma ReadyTail<T>(es: seq<Enumerator<T>>, rests: seq<seq<T>>)
    requires Ready(es, rests) && es != []
    ensures es[0].Valid() && es[0].index == -1 && es[0].Rest() == rests[0] && Ready(es[1..], rests[1..])
  {
  }

  lemma StartedExtend<T>(es: seq<Enumerator<T>>, rests: seq<seq<T>>, e: Enumerator<T>)
    requires Started(es, rests) && e.Valid() && e.index >= 0
    ensures Started(es + [e], rests + [e.Rest()])
  {
  }

  lemma StartedRests<T>(es: seq<Enumerator<T>>, rests: seq<seq<T>>)
    requires Started(es, rests)
    ensures Rests(es) == rests && forall e | e in es :: e.Valid() && e.index >= 0
  {
  }

  ghost predicate Within<T>(a: seq<Enumerator<T>>, b: seq<Enumerator<T>>) {
    forall e | e in a :: e in b
  }

  lemma WithinItself<T>(es: seq<Enumerator<T>>)
    ensures Within(es, es)
  {
  }

  lemma WithinMeaning<T>(a: seq<Enumerator<T>>, b: seq<Enumerator<T>>)
    requires Within(a, b)
    ensures forall e | e in a :: e in b
  {
  }

  lemma WithinSplit<T>(kept: seq<Enumerator<T>>, todo: seq<Enumerator<T>>, es: seq<Enumerator<T>>)
    requires Within(kept + todo, es) && todo != []
    ensures todo[0] in es && Within(kept + todo[1..], es)
  {
    var all := kept + todo;
    assert todo[0] in all;
    forall e | e in kept + todo[1..] ensures e in es {
      assert e in all;
    }
  }

  lemma DistinctSplit<T>(kept: seq<Enumerator<T>>, todo: seq<Enumerator<T>>)
    requires Distinct(kept + todo) && todo != []
    ensures todo[0] !in kept && todo[0] !in todo[1..]
    ensures Distinct(kept + todo[1..])
    ensures (kept + [todo[0]]) + todo[1..] == kept + todo
    ensures var all := kept + todo;
            && all[|kept|] == todo[0]
            && all[..|kept|] + all[|kept| + 1..] == kept + todo[1..]
  {
    var all := kept + todo;
    assert forall i | 0 <= i < |kept| :: all[i] == kept[i];
    assert forall i | 0 <= i < |todo| :: all[|kept| + i] == todo[i];
    var r := kept + todo[1..];
    forall i, j | 0 <= i < j < |r| ensures r[i] != r[j] {
      assert r[i] == all[if i < |kept| then i else i + 1] && r[j] == all[if j < |kept| then j else j + 1];
    }
  }

  class AggregatedEnumerator<T(==)> {
    var enumerators: seq<Enumerator<T>>
    var currentEnumerator: Enumerator?<T>
    const isBetter: (T, T) -> bool
    const noValue: T

    /** Not started, at an element, or past the end. */
    ghost predicate Valid()
      reads this, enumerators
    {
      && AllValid(enumerators)
      && (if currentEnumerator == null then forall e | e in enumerators :: e.index == -1
          else enumerators != [] && (forall e | e in enumerators :: e.index >= 0) && AllNonEmpty(Rests(enumerators))
               && currentEnumerator == enumerators[Best(isBetter, Rests(enumerators))]
               && currentEnumerator.Rest() != [])
    }

    /** The elements still to come behind the current one. */
    ghost function Pending(): seq<T>
      reads this, enumerators
      requires Valid()
    {
      if currentEnumerator == null then Merged(isBetter, Rests(enumerators))
      else Drain(isBetter, Pop(Rests(enumerators), Best(isBetter, Rests(enumerators))))
    }

    /** `noValue` is the value of a default-constructed `T`. */
    constructor (enums: seq<Enumerator<T>>, isBetter: (T, T) -> bool, noValue: T)
      requires AllValid(enums) && forall e | e in enums :: e.index == -1
      ensures Valid() && this.isBetter == isBetter && enumerators == enums && currentEnumerator == null
      ensures this.noValue == noValue
      ensures Pending() == Merged(isBetter, Rests(enums))
    {
      enumerators, currentEnumerator, this.isBetter, this.noValue := enums, null, isBetter, noValue;
    }

    /** Advances the enumerator at `i` to its first element, or erases it when it has none. */
    method StartOrErase(i: nat) returns (ok: bool)
      requires i < |enumerators| && enumerators[i].Valid() && enumerators[i].index == -1
      modifies this`enumerators, enumerators[i]
      ensures var e := old(enumerators[i]);
              && ok == (e.Rest() != []) && e.Valid() && e.index >= 0 && e.Rest() == old(enumerators[i].Rest())
              && enumerators == if ok then old(enumerators) else old(enumerators)[..i] + old(enumerators)[i + 1..]
    {
      ok := enumerators[i].MoveNext();
      if !ok {
        enumerators := enumerators[..i] + enumerators[i + 1..];
      }
    }

    /** The first MoveNext advances every enumerator and drops the empty ones. */
    method AdvanceAll()
      requires Valid() && currentEnumerator == null
      modifies this`enumerators, enumerators
      ensures AllValid(enumerators) && (forall e | e in enumerators :: e in old(enumerators) && e.index >= 0)
      ensures Rests(enumerators) == DropEmpty(old(Rests(enumerators)))
    {
      hide DropEmpty, Started, Ready, Distinct, Rests, AllValid, AllNonEmpty, Best, Enumerator.Rest, Within, Flat;
      ghost var es, all := enumerators, Rests(enumerators);
      ghost var kept, keptRests, todo, todoRests := [], [], enumerators, all;
      var i := 0;
      NothingStarted<T>();
      AllReady(enumerators);
      WithinItself(es);
      assert [] + DropEmpty(all) == DropEmpty(all);
      while i < |enumerators|
        invariant i == |kept| && enumerators == kept + todo
        invariant Distinct(enumerators) && Within(enumerators, es)
        invariant Started(kept, keptRests) && Ready(todo, todoRests)
        invariant DropEmpty(all) == keptRests + DropEmpty(todoRests)
        invariant |todo| == |todoRests|
        modifies es, this`enumerators
        decreases |todo|
      {
        DistinctSplit(kept, todo);
        WithinSplit(kept, todo, es);
        ReadyTail(todo, todoRests);
        DropEmptyStep(todoRests);
        var ok := StartOrErase(i);
        if ok {
          StartedExtend(kept, keptRests, todo[0]);
          JoinAssociative(keptRests, [todoRests[0]], DropEmpty(todoRests[1..]));
          kept, keptRests := kept + [todo[0]], keptRests + [todoRests[0]];
          i := i + 1;
        }
        todo, todoRests := todo[1..], todoRests[1..];
      }
      assert enumerators == kept && todoRests == [];
      WithinMeaning(enumerators, es);
      DropEmptyNone<T>();
      StartedRests(kept, keptRests);
      DistinctValid(enumerators);
    }

    /** Later ones advance the current enumerator, and drop it when it is exhausted. */
    method AdvanceCurrent()
      requires Valid() && currentEnumerator != null
      modifies this`enumerators, enumerators
      ensures AllValid(enumerators) && (forall e | e in enumerators :: e in old(enumerators) && e.index >= 0)
      ensures Rests(enumerators) == Pop(old(Rests(enumerators)), Best(isBetter, old(Rests(enumerators))))
    {
      hide Rests, Best, Pop, Started, Distinct, AllValid, AllNonEmpty, Enumerator.Rest;
      ghost var es, rests, b := enumerators, Rests(enumerators), Best(isBetter, Rests(enumerators));
      var e := currentEnumerator;
      ValidStarted(es);
      StartedSplit(es, rests, b);
      PopMeaning(rests, b);
      ghost var front, back, fr, br := es[..b], es[b + 1..], rests[..b], rests[b + 1..];
      var ok := e.MoveNext();
      if !ok {
        var i :| 0 <= i < |enumerators| && enumerators[i] == e;
        assert i == b by {
          DistinctIndex(es, i, b);
        }
        enumerators := enumerators[..i] + enumerators[i + 1..];
        StartedJoin(front, fr, back, br);
        StartedRests(front + back, fr + br);
        assert Distinct(enumerators) by {
          DistinctWithout(es, b);
        }
      } else {
        StartedExtend(front, fr, e);
        StartedJoin(front + [e], fr + [e.Rest()], back, br);
        assert es == front + [e] + back;
        StartedRests(es, fr + [e.Rest()] + br);
        assert fr + [e.Rest()] + br == rests[b := e.Rest()];
      }
      DistinctValid(enumerators);
    }

    /** The scan for the best current element. */
    method Select()
      requires AllValid(enumerators) && AllNonEmpty(Rests(enumerators))
      requires forall e | e in enumerators :: e.index >= 0
      modifies this`currentEnumerator
      ensures Valid()
      ensures currentEnumerator == null <==> enumerators == []
    {
      hide Rests, BestOf;
      currentEnumerator := null;
      ghost var rests := Rests(enumerators);
      RestsMeaning(enumerators);
      for i := 0 to |enumerators|
        invariant i == 0 ==> currentEnumerator == null
        invariant i > 0 ==> currentEnumerator == enumerators[BestOf(isBetter, rests, i)]
        modifies this`currentEnumerator
      {
        if currentEnumerator == null {
          BestOfMeaning(isBetter, rests, 0);
          currentEnumerator := enumerators[i];
        } else {
          BestOfMeaning(isBetter, rests, i);
          var candidate := enumerators[i].Current();
          var best := currentEnumerator.Current();
          if isBetter(candidate, best) {
            currentEnumerator := enumerators[i];
          }
        }
      }
      if enumerators != [] {
        BestNonEmpty(isBetter, rests);
      }
    }

    method MoveNext() returns (r: bool)
      requires Valid()
      modifies this`enumerators, this`currentEnumerator, enumerators
      ensures Valid() && forall e | e in enumerators :: e in old(enumerators)
      ensures r == (currentEnumerator != null) == (old(Pending()) != [])
      ensures r ==> old(Pending()) == [currentEnumerator.Rest()[0]] + Pending()
      ensures !r ==> Pending() == []
    {
      hide Rests, Drain, DropEmpty, Pop, Best;
      ghost var before := Rests(enumerators);
      if currentEnumerator == null {
        AdvanceAll();
      } else {
        AdvanceCurrent();
      }
      ghost var rests := Rests(enumerators);
      assert AllNonEmpty(rests) && old(Pending()) == Drain(isBetter, rests);
      Select();
      DrainMeaning(isBetter, rests);
      RestsMeaning(enumerators);
      r := currentEnumerator != null;
    }

    /** The current element, or a default value before the first and behind the last. */
    method Current() returns (x: T)
      requires Valid()
      ensures x == if currentEnumerator == null then noValue else currentEnumerator.Rest()[0]
    {
      if currentEnumerator != null {
        x := currentEnumerator.Current();
      } else {
        x := noValue;
      }
    }
  }

  lemma RestsMeaning<T>(es: seq<Enumerator<T>>)
    ensures |Rests(es)| == |es| && forall i | 0 <= i < |es| :: Rests(es)[i] == es[i].Rest()
    ensures es == [] ==> Rests(es) == []
  {
  }

  lemma BestNonEmpty<T>(isBetter: (T, T) -> bool, rests: seq<seq<T>>)
    requires rests != [] && AllNonEmpty(rests)
    ensures rests[Best(isBetter, rests)] != []
  {
  }

  lemma BestOfMeaning<T>(isBetter: (T, T) -> bool, rests: seq<seq<T>>, i: nat)
    requires i < |rests| && AllNonEmpty(rests)
    ensures rests[i] != []
    ensures i == 0 ==> BestOf(isBetter, rests, 1) == 0
    ensures i > 0 ==>
              var b := BestOf(isBetter, rests, i);
              && rests[b] != []
              && BestOf(isBetter, rests, i + 1) == if isBetter(rests[i][0], rests[b][0]) then i else b
  {
  }

  lemma PopMeaning<T>(rests: seq<seq<T>>, b: nat)
    requires b < |rests| && AllNonEmpty(rests)
    ensures rests[b] != []
    ensures rests[b][1..] == [] ==> Pop(rests, b) == rests[..b] + rests[b + 1..]
    ensures rests[b][1..] != [] ==> Pop(rests, b) == rests[b := rests[b][1..]]
  {
  }

  lemma DrainMeaning<T>(isBetter: (T, T) -> bool, rests: seq<seq<T>>)
    requires AllNonEmpty(rests)
    ensures rests == [] ==> Drain(isBetter, rests) == [] && Drain(isBetter, DropEmpty(rests)) == []
    ensures rests != [] ==>
              var b := Best(isBetter, rests);
              Drain(isBetter, rests) == [rests[b][0]] + Drain(isBetter, Pop(rests, b))
  {
  }

  lemma JoinAssociative<T>(x: seq<T>, y: seq<T>, z: seq<T>)
    ensures x + (y + z) == (x + y) + z
  {
  }

  lemma ValidStarted<T>(es: seq<Enumerator<T>>)
    requires AllValid(es) && forall e | e in es :: e.index >= 0
    ensures Started(es, Rests(es)) && Distinct(es) && |Rests(es)| == |es|
  {
  }

  lemma StartedSplit<T>(es: seq<Enumerator<T>>, rests: seq<seq<T>>, b: nat)
    requires Started(es, rests) && Distinct(es) && b < |es|
    ensures |rests| == |es| && es[b].Valid() && es[b].index >= 0 && es[b].Rest() == rests[b]
    ensures Started(es[..b], rests[..b]) && Started(es[b + 1..], rests[b + 1..])
    ensures es[b] !in es[..b] && es[b] !in es[b + 1..]
  {
  }

  lemma StartedJoin<T>(a: seq<Enumerator<T>>, ra: seq<seq<T>>, b: seq<Enumerator<T>>, rb: seq<seq<T>>)
    requires Started(a, ra) && Started(b, rb)
    ensures Started(a + b, ra + rb)
  {
  }

  lemma DistinctIndex<T>(es: seq<Enumerator<T>>, i: nat, j: nat)
    requires Distinct(es) && i < |es| && j < |es| && es[i] == es[j]
    ensures i == j
  {
  }

  lemma DistinctWithout<T>(es: seq<Enumerator<T>>, b: nat)
    requires Distinct(es) && b < |es|
    ensures Distinct(es[..b] + es[b + 1..])
  {
  }

  lemma NothingStarted<T>()
    ensures Started<T>([], [])
  {
  }

  lemma AllReady<T>(es: seq<Enumerator<T>>)
    requires AllValid(es) && forall e | e in es :: e.index == -1
    ensures Ready(es, Rests(es)) && Distinct(es) && |Rests(es)| == |es|
  {
  }

  lemma DistinctValid<T>(es: seq<Enumerator<T>>)
    requires Distinct(es) && forall e | e in es :: e.Valid()
    ensures AllValid(es)
  {
  }

  lemma DropEmptyNone<T>()
    ensures DropEmpty<T>([]) == []
  {
  }

  lemma DropEmptyStep<T>(inputs: seq<seq<T>>)
    requires inputs != []
    ensures DropEmpty(inputs)
            == if inputs[0] == [] then DropEmpty(inputs[1..]) else [inputs[0]] + DropEmpty(inputs[1..])
  {
  }
}
