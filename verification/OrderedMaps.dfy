/** A map iterated in ascending key order (QMap), as a `map` together with its smallest key. */
module OrderedMaps {

  lemma Pick<T>(s: set<T>) returns (x: T)
    requires s != {}
    ensures x in s
  {
    x :| x in s;
  }

  lemma {:induction false} MinExists(s: set<int>)
    requires s != {}
    ensures exists k :: k in s && forall j | j in s :: k <= j
  {
    var x := Pick(s);
    if s != {x} {
      MinExists(s - {x});
      var k :| k in s - {x} && forall j | j in s - {x} :: k <= j;
      var m := if x < k then x else k;
      assert m in s && forall j | j in s :: m <= j by {
        assert forall j | j in s :: j == x || j in s - {x};
      }
    } else {
      assert x in s && forall j | j in s :: x <= j;
    }
  }

  function Min(s: set<int>): (k: int)
    requires s != {}
    ensures k in s && forall j | j in s :: k <= j
  {
    MinExists(s);
    var k :| k in s && forall j | j in s :: k <= j;
    k
  }

  /** `firstKey()`. */
  function FirstKey<V>(m: map<int, V>): (k: int)
    requires |m| > 0
    ensures k in m && forall j | j in m :: k <= j
  {
    assert m.Keys != {};
    Min(m.Keys)
  }

  /** What is left once the entry at the iterator's position has been passed. */
  function Rest<V>(m: map<int, V>): (r: map<int, V>)
    requires |m| > 0
    ensures r == m - {FirstKey(m)} && |r| == |m| - 1
  {
    var r := m - {FirstKey(m)};
    assert r.Keys == m.Keys - {FirstKey(m)};
    assert |r.Keys| == |m.Keys| - 1;
    r
  }

  /** The values in ascending key order, one after the other. */
  function Concat<T>(m: map<int, seq<T>>): seq<T>
    decreases |m|
  {
    if |m| == 0 then [] else m[FirstKey(m)] + Concat(Rest(m))
  }

  function Sum(m: map<int, int>): int
    decreases |m|
  {
    if |m| == 0 then 0 else m[FirstKey(m)] + Sum(Rest(m))
  }

  lemma {:induction false} SumRemove(m: map<int, int>, k: int)
    requires k in m
    ensures Sum(m) == m[k] + Sum(m - {k})
    decreases |m|
  {
    var f := FirstKey(m);
    if k == f {
      assert Rest(m) == m - {k};
    } else {
      SumRemove(Rest(m), k);
      var n := m - {k};
      assert f in n;
      assert FirstKey(n) == f;
      assert Rest(n) == Rest(m) - {k};
    }
  }

  lemma RemoveUpdated<V>(m: map<int, V>, k: int, v: V)
    ensures m[k := v] - {k} == m - {k}
    ensures k !in m ==> m - {k} == m
  {
  }

  lemma {:induction false} SumUpdate(m: map<int, int>, k: int, v: int)
    ensures Sum(m[k := v]) == Sum(m) + v - (if k in m then m[k] else 0)
  {
    RemoveUpdated(m, k, v);
    SumRemove(m[k := v], k);
    if k in m {
      SumRemove(m, k);
    }
  }

  lemma {:induction false} SumMonotone(m: map<int, int>, n: map<int, int>)
    requires m.Keys == n.Keys
    requires forall k | k in m :: m[k] <= n[k]
    ensures Sum(m) <= Sum(n)
    decreases |m|
  {
    if |m| > 0 {
      assert |m| == |m.Keys| == |n.Keys| == |n|;
      assert FirstKey(m) == FirstKey(n);
      SumMonotone(Rest(m), Rest(n));
    } else {
      assert |n.Keys| == 0;
    }
  }

  lemma FirstOfUnion<V>(a: map<int, V>, b: map<int, V>)
    requires |a| > 0
    requires forall i, j | i in a && j in b :: i < j
    ensures |a + b| > 0 && FirstKey(a + b) == FirstKey(a)
    ensures (a + b)[FirstKey(a)] == a[FirstKey(a)]
    ensures Rest(a + b) == Rest(a) + b
  {
    var m, f := a + b, FirstKey(a);
    assert f in m && f !in b;
    assert FirstKey(m) == f;
    assert forall k | k in b :: k != f;
  }

  lemma EmptyUnion<V>(a: map<int, V>, b: map<int, V>)
    requires |a| == 0
    ensures a + b == b
  {
    assert a.Keys == {};
  }

  lemma Associative<T>(x: seq<T>, y: seq<T>, z: seq<T>)
    ensures x + (y + z) == (x + y) + z
  {
  }

  lemma {:induction false} ConcatAppendStep<T>(a: map<int, seq<T>>, b: map<int, seq<T>>)
    requires |a| > 0 && |a + b| > 0
    requires FirstKey(a + b) == FirstKey(a) && Rest(a + b) == Rest(a) + b
    requires (a + b)[FirstKey(a)] == a[FirstKey(a)]
    requires Concat(Rest(a) + b) == Concat(Rest(a)) + Concat(b)
    ensures Concat(a + b) == Concat(a) + Concat(b)
  {
    Associative(a[FirstKey(a)], Concat(Rest(a)), Concat(b));
  }

  lemma NothingFirst<T>(a: map<int, seq<T>>, b: map<int, seq<T>>)
    requires |a| == 0
    ensures Concat(a) + Concat(b) == Concat(b)
  {
    assert Concat(a) == [];
    hide Concat;
  }

  /** Two maps whose key ranges do not interleave are laid out one behind the other. */
  lemma {:induction false} ConcatAppend<T>(a: map<int, seq<T>>, b: map<int, seq<T>>)
    requires forall i, j | i in a && j in b :: i < j
    ensures Concat(a + b) == Concat(a) + Concat(b)
    decreases |a|
  {
    hide Rest, FirstKey, Concat;
    if |a| == 0 {
      NothingFirst(a, b);
      EmptyUnion(a, b);
    } else {
      FirstOfUnion(a, b);
      ConcatAppend(Rest(a), b);
      ConcatAppendStep(a, b);
    }
  }
}
