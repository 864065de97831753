/**
 A least-recently-used list. Functions on the list of entries give the effect of each operation and
 carry the theorems; the class keeps the entries in a linked list and a hash map at once.
 */
module PopularityList {
  import opened Sets
  import opened Wrappers

  datatype Entry<K, V> = Entry(key: K, value: V)

  /** Pool sizes, the optional delegates, and whether a PopularityLost handler is set. */
  datatype Config<!K, !V> = Config(minPoolSize: int, maxPoolSize: int,
                                   canExpand: Option<seq<Entry<K, V>> -> bool>,
                                   expired: Option<(V, V) -> bool>,
                                   notify: bool)

  /** The entries, most recent first, the current pool size, and what the handler was called with. */
  datatype Lru<K, V> = Lru(entries: seq<Entry<K, V>>, pool: int, lost: seq<Entry<K, V>>)

  // ----- The operations

  predicate HasKey<K(==), V>(es: seq<Entry<K, V>>, k: K) {
    exists i :: 0 <= i < |es| && es[i].key == k
  }

  /** `es` without its first entry for `k`. */
  function Without<K(==), V>(es: seq<Entry<K, V>>, k: K): (r: seq<Entry<K, V>>)
    ensures |r| <= |es|
    decreases es
  {
    if es == [] then [] else if es[0].key == k then es[1..] else [es[0]] + Without(es[1..], k)
  }

  function Lookup<K(==), V>(es: seq<Entry<K, V>>, k: K): Option<V>
    decreases es
  {
    if es == [] then None else if es[0].key == k then Some(es[0].value) else Lookup(es[1..], k)
  }

  /** Drops the least recent entry and reports it. */
  function LoseLast<K, V>(c: Config<K, V>, l: Lru<K, V>): Lru<K, V>
    requires l.entries != []
  {
    var n := |l.entries| - 1;
    l.(entries := l.entries[..n], lost := if c.notify then l.lost + [l.entries[n]] else l.lost)
  }

  function DropExpired<K, V>(c: Config<K, V>, l: Lru<K, V>, v: V): Lru<K, V>
    decreases |l.entries|
  {
    if l.entries != [] && c.expired.Some? && c.expired.value(l.entries[|l.entries| - 1].value, v)
    then DropExpired(c, LoseLast(c, l), v)
    else l
  }

  function Shrink<K, V>(c: Config<K, V>, l: Lru<K, V>): (r: Lru<K, V>)
    requires 0 <= l.pool
    ensures |r.entries| <= r.pool && l.pool <= r.pool
    ensures r.pool == l.pool || r.pool <= c.maxPoolSize
    decreases |l.entries|, c.maxPoolSize - l.pool
  {
    if |l.entries| <= l.pool then l
    else if l.pool < c.maxPoolSize && c.canExpand.Some? && c.canExpand.value(l.entries)
    then Shrink(c, l.(pool := if |l.entries| <= c.maxPoolSize then |l.entries| else c.maxPoolSize))
    else Shrink(c, LoseLast(c, l))
  }

  function Added<K(==), V>(c: Config<K, V>, l: Lru<K, V>, k: K, v: V): (r: Lru<K, V>)
    requires 0 <= l.pool
    ensures |r.entries| <= r.pool && l.pool <= r.pool
  {
    var put := l.(entries := [Entry(k, v)] + Without(l.entries, k));
    DropExpiredKeepsPool(c, put, v);
    Shrink(c, DropExpired(c, put, v))
  }

  lemma {:induction false} DropExpiredKeepsPool<K, V>(c: Config<K, V>, l: Lru<K, V>, v: V)
    ensures DropExpired(c, l, v).pool == l.pool
    decreases |l.entries|
  {
    if l.entries != [] {
      DropExpiredKeepsPool(c, LoseLast(c, l), v);
    }
  }

  function Found<K(==), V>(l: Lru<K, V>, k: K): Lru<K, V> {
    match Lookup(l.entries, k)
    case None => l
    case Some(v) => l.(entries := [Entry(k, v)] + Without(l.entries, k))
  }

  function Removed<K(==), V>(c: Config<K, V>, l: Lru<K, V>, k: K, trigger: bool): Lru<K, V> {
    match Lookup(l.entries, k)
    case None => l
    case Some(v) =>
      l.(entries := Without(l.entries, k),
         lost := if trigger && c.notify then l.lost + [Entry(k, v)] else l.lost)
  }

  /** What is dropped for expiry is what has expired at the back, up to the first entry that has not. */
  lemma {:induction false} ExpiredAreDropped<K, V>(c: Config<K, V>, l: Lru<K, V>, v: V)
    ensures var n := |DropExpired(c, l, v).entries|;
            && n <= |l.entries| && DropExpired(c, l, v).entries == l.entries[..n]
            && (forall i | n <= i < |l.entries| :: c.expired.Some? && c.expired.value(l.entries[i].value, v))
            && (n > 0 && c.expired.Some? ==> !c.expired.value(l.entries[n - 1].value, v))
    decreases |l.entries|
  {
    hide DropExpired;
    DropExpiredStep(c, l, v);
    if l.entries != [] && c.expired.Some? && c.expired.value(l.entries[|l.entries| - 1].value, v) {
      var shorter := LoseLast(c, l);
      ExpiredAreDropped(c, shorter, v);
      var n := |DropExpired(c, shorter, v).entries|;
      assert shorter.entries[..n] == l.entries[..n];
      forall i | n <= i < |l.entries| ensures c.expired.Some? && c.expired.value(l.entries[i].value, v) {
        assert i < |shorter.entries| ==> shorter.entries[i] == l.entries[i];
      }
    }
  }

  /**
   Adding to a list within its pool puts the pair first. Of the rest, what has expired at the back goes; if there
   is then one entry too many, the pool grows by one when it may, and the last entry goes when it may not.
   */
  lemma {:induction false} AddedExactly<K, V>(c: Config<K, V>, l: Lru<K, V>, k: K, v: V)
    requires |l.entries| <= l.pool
    ensures var kept := DropExpired(c, l.(entries := [Entry(k, v)] + Without(l.entries, k)), v).entries;
            var r := Added(c, l, k, v);
            if |kept| <= l.pool then r.entries == kept && r.pool == l.pool
            else if l.pool < c.maxPoolSize && c.canExpand.Some? && c.canExpand.value(kept) then
              r.entries == kept && r.pool == l.pool + 1
            else r.entries == kept[..l.pool] && r.pool == l.pool
  {
    hide Without;
    var put := l.(entries := [Entry(k, v)] + Without(l.entries, k));
    DropExpiredKeepsPool(c, put, v);
    ExpiredAreDropped(c, put, v);
    var s := DropExpired(c, put, v);
    if |s.entries| > l.pool {
      assert |s.entries| == l.pool + 1;
      if l.pool < c.maxPoolSize && c.canExpand.Some? && c.canExpand.value(s.entries) {
        assert Shrink(c, s) == Shrink(c, s.(pool := l.pool + 1)) == s.(pool := l.pool + 1);
      } else {
        assert Shrink(c, s) == Shrink(c, LoseLast(c, s)) == LoseLast(c, s);
      }
    }
  }

  // ----- Runs

  datatype Op<K, V> = Add(key: K, value: V) | Get(key: K) | Remove(key: K, trigger: bool) | Clear

  function Apply<K(==), V>(c: Config<K, V>, l: Lru<K, V>, op: Op<K, V>): (r: Lru<K, V>)
    requires 0 <= l.pool
    ensures 0 <= r.pool
  {
    match op
    case Add(k, v) => Added(c, l, k, v)
    case Get(k) => Found(l, k)
    case Remove(k, t) => Removed(c, l, k, t)
    case Clear => l.(entries := [])
  }

  function Run<K(==), V>(c: Config<K, V>, l: Lru<K, V>, ops: seq<Op<K, V>>): (r: Lru<K, V>)
    requires 0 <= l.pool
    ensures 0 <= r.pool
    decreases ops
  {
    if ops == [] then l else Run(c, Apply(c, l, ops[0]), ops[1..])
  }

  function Empty<K, V>(c: Config<K, V>): Lru<K, V> {
    Lru([], c.minPoolSize, [])
  }

  ghost predicate DistinctKeys<K, V>(es: seq<Entry<K, V>>) {
    forall i, j | 0 <= i < j < |es| :: es[i].key != es[j].key
  }

  lemma {:induction false} WithoutMembers<K, V>(es: seq<Entry<K, V>>, k: K, e: Entry<K, V>)
    ensures e in Without(es, k) ==> e in es
    ensures e in es && e.key != k ==> e in Without(es, k)
    ensures DistinctKeys(es) && e in Without(es, k) ==> e.key != k
    decreases es
  {
    if es != [] {
      assert es == [es[0]] + es[1..];
      if es[0].key != k {
        WithoutMembers(es[1..], k, e);
      }
    }
  }

  lemma {:induction false} WithoutDistinct<K, V>(es: seq<Entry<K, V>>, k: K)
    requires DistinctKeys(es)
    ensures DistinctKeys(Without(es, k))
    decreases es
  {
    if es != [] {
      if es[0].key != k {
        var r := Without(es[1..], k);
        WithoutDistinct(es[1..], k);
        forall i | 0 <= i < |r| ensures r[i].key != es[0].key {
          WithoutMembers(es[1..], k, r[i]);
        }
      }
    }
  }

  /** After any run the size is within the pool, and the pool within the larger of its two bounds. */
  lemma {:induction false} SizeBounded<K, V>(c: Config<K, V>, l: Lru<K, V>, ops: seq<Op<K, V>>)
    requires 0 <= c.minPoolSize
    requires |l.entries| <= l.pool && c.minPoolSize <= l.pool
    requires l.pool <= c.minPoolSize || l.pool <= c.maxPoolSize
    ensures var r := Run(c, l, ops);
            && |r.entries| <= r.pool && c.minPoolSize <= r.pool
            && (r.pool <= c.minPoolSize || r.pool <= c.maxPoolSize)
    decreases ops
  {
    if ops != [] {
      match ops[0] {
        case Add(k, v) =>
          DropExpiredKeepsPool(c, l.(entries := [Entry(k, v)] + Without(l.entries, k)), v);
        case Get(k) => LookupWithout(l.entries, k);
        case Remove(k, t) =>
        case Clear =>
      }
      SizeBounded(c, Apply(c, l, ops[0]), ops[1..]);
    }
  }

  lemma {:induction false} LookupWithout<K, V>(es: seq<Entry<K, V>>, k: K)
    ensures Lookup(es, k).Some? ==> |Without(es, k)| == |es| - 1
    ensures Lookup(es, k).Some? ==> multiset(es) == multiset(Without(es, k)) + multiset{Entry(k, Lookup(es, k).value)}
    ensures Lookup(es, k).None? ==> Without(es, k) == es
    decreases es
  {
    if es != [] {
      assert es == [es[0]] + es[1..];
      LookupWithout(es[1..], k);
    }
  }

  // ----- Nothing is lost silently

  ghost function AddedBy<K, V>(op: Op<K, V>): multiset<Entry<K, V>> {
    if op.Add? then multiset{Entry(op.key, op.value)} else multiset{}
  }

  /** What an operation takes out without calling the handler: replaced, removed or cleared entries. */
  ghost function Discarded<K, V>(c: Config<K, V>, l: Lru<K, V>, op: Op<K, V>): multiset<Entry<K, V>> {
    match op
    case Add(k, _) => OneIfFound(k, Lookup(l.entries, k))
    case Get(_) => multiset{}
    case Remove(k, t) => if t && c.notify then multiset{} else OneIfFound(k, Lookup(l.entries, k))
    case Clear => multiset(l.entries)
  }

  ghost function OneIfFound<K, V>(k: K, v: Option<V>): multiset<Entry<K, V>> {
    if v.Some? then multiset{Entry(k, v.value)} else multiset{}
  }

  ghost function AllAdded<K, V>(ops: seq<Op<K, V>>): multiset<Entry<K, V>>
    decreases ops
  {
    if ops == [] then multiset{} else AddedBy(ops[0]) + AllAdded(ops[1..])
  }

  ghost function AllDiscarded<K, V>(c: Config<K, V>, l: Lru<K, V>, ops: seq<Op<K, V>>): multiset<Entry<K, V>>
    requires 0 <= l.pool
    decreases ops
  {
    if ops == [] then multiset{} else Discarded(c, l, ops[0]) + AllDiscarded(c, Apply(c, l, ops[0]), ops[1..])
  }

  /** What is in the list or has been reported. */
  ghost function Known<K, V>(l: Lru<K, V>): multiset<Entry<K, V>> {
    multiset(l.entries) + multiset(l.lost)
  }

  lemma LoseLastKnown<K, V>(c: Config<K, V>, l: Lru<K, V>)
    requires c.notify && l.entries != []
    ensures Known(LoseLast(c, l)) == Known(l)
  {
    var n := |l.entries| - 1;
    assert l.entries == l.entries[..n] + [l.entries[n]];
  }

  lemma {:induction false} DropExpiredKnown<K, V>(c: Config<K, V>, l: Lru<K, V>, v: V)
    requires c.notify
    ensures Known(DropExpired(c, l, v)) == Known(l)
    decreases |l.entries|
  {
    hide Known;
    if l.entries != [] {
      LoseLastKnown(c, l);
      DropExpiredKnown(c, LoseLast(c, l), v);
    }
  }

  lemma {:induction false} ShrinkKnown<K, V>(c: Config<K, V>, l: Lru<K, V>)
    requires c.notify && 0 <= l.pool
    ensures Known(Shrink(c, l)) == Known(l)
    decreases |l.entries|, c.maxPoolSize - l.pool
  {
    if |l.entries| > l.pool {
      if l.pool < c.maxPoolSize && c.canExpand.Some? && c.canExpand.value(l.entries) {
        ShrinkKnown(c, l.(pool := if |l.entries| <= c.maxPoolSize then |l.entries| else c.maxPoolSize));
      } else {
        LoseLastKnown(c, l);
        ShrinkKnown(c, LoseLast(c, l));
      }
    }
  }

  lemma {:induction false} AddKnown<K, V>(c: Config<K, V>, l: Lru<K, V>, k: K, v: V)
    requires c.notify && 0 <= l.pool
    ensures Known(Added(c, l, k, v)) == Known(l.(entries := [Entry(k, v)] + Without(l.entries, k)))
  {
    hide DropExpired, Shrink, Without, Known;
    var put := l.(entries := [Entry(k, v)] + Without(l.entries, k));
    DropExpiredKeepsPool(c, put, v);
    DropExpiredKnown(c, put, v);
    ShrinkKnown(c, DropExpired(c, put, v));
  }

  lemma {:induction false} ApplyKnown<K, V>(c: Config<K, V>, l: Lru<K, V>, op: Op<K, V>)
    requires c.notify && 0 <= l.pool
    ensures Known(Apply(c, l, op)) + Discarded(c, l, op) == Known(l) + AddedBy(op)
  {
    hide Added, Without, Lookup;
    if !op.Clear? {
      LookupWithout(l.entries, op.key);
    }
    if op.Add? {
      AddKnown(c, l, op.key, op.value);
    }
  }

  /**
   With a handler set, every pair added is, counted with multiplicity, still there, reported once, or
   one of those replaced, removed or cleared.
   */
  lemma {:induction false} Conservation<K, V>(c: Config<K, V>, l: Lru<K, V>, ops: seq<Op<K, V>>)
    requires c.notify && 0 <= l.pool
    ensures var r := Run(c, l, ops);
            multiset(r.entries) + multiset(r.lost) + AllDiscarded(c, l, ops)
            == multiset(l.entries) + multiset(l.lost) + AllAdded(ops)
    decreases ops
  {
    hide Apply, Discarded, AddedBy;
    if ops != [] {
      var l' := Apply(c, l, ops[0]);
      ApplyKnown(c, l, ops[0]);
      Conservation(c, l', ops[1..]);
      Balance(Known(l), AddedBy(ops[0]), Discarded(c, l, ops[0]), Known(l'),
              AllAdded(ops[1..]), AllDiscarded(c, l', ops[1..]), Known(Run(c, l, ops)));
    }
  }

  lemma Balance<T>(before: multiset<T>, added: multiset<T>, gone: multiset<T>, between: multiset<T>,
                   laterAdded: multiset<T>, laterGone: multiset<T>, after: multiset<T>)
    requires between + gone == before + added
    requires after + laterGone == between + laterAdded
    ensures after + (gone + laterGone) == before + (added + laterAdded)
  {
    forall x ensures (after + (gone + laterGone))[x] == (before + (added + laterAdded))[x] {
      assert (between + gone)[x] == (before + added)[x];
      assert (after + laterGone)[x] == (between + laterAdded)[x];
    }
  }

  // ----- With a fixed pool the list holds the most recently used keys

  /** A pool of `n` that never grows, no expiry. */
  predicate Fixed<K, V>(c: Config<K, V>) {
    0 <= c.minPoolSize && c.maxPoolSize <= c.minPoolSize && c.expired.None?
  }

  predicate AddOrGet<K, V>(op: Op<K, V>) {
    op.Add? || op.Get?
  }

  /** The keys used by a run, in order: those added and those looked up successfully. */
  function Uses<K(==), V>(c: Config<K, V>, l: Lru<K, V>, ops: seq<Op<K, V>>): seq<K>
    requires 0 <= l.pool
    decreases ops
  {
    if ops == [] then []
    else
      (match ops[0]
       case Add(k, _) => [k]
       case Get(k) => if Lookup(l.entries, k).Some? then [k] else []
       case _ => [])
      + Uses(c, Apply(c, l, ops[0]), ops[1..])
  }

  /** The last position at which `k` is used, or -1. */
  function LastUse<K(==)>(uses: seq<K>, k: K): (i: int)
    ensures -1 <= i < |uses|
    ensures i >= 0 ==> uses[i] == k
    ensures i == -1 <==> k !in uses
    decreases uses
  {
    if uses == [] then -1
    else if uses[|uses| - 1] == k then |uses| - 1
    else LastUse(uses[..|uses| - 1], k)
  }

  /** The value that the last Add of `k` gave it. */
  function LastValue<K(==), V>(ops: seq<Op<K, V>>, k: K): Option<V>
    decreases ops
  {
    if ops == [] then None
    else
      var op := ops[|ops| - 1];
      if op.Add? && op.key == k then Some(op.value) else LastValue(ops[..|ops| - 1], k)
  }

  ghost function KeySet<K>(uses: seq<K>): set<K> {
    set k | k in uses
  }

  ghost predicate Descending<K, V>(es: seq<Entry<K, V>>, uses: seq<K>) {
    forall i, j | 0 <= i < j < |es| :: LastUse(uses, es[i].key) > LastUse(uses, es[j].key)
  }

  /** The `n` most recently used keys, latest first. */
  ghost predicate MostRecent<K, V>(es: seq<Entry<K, V>>, n: nat, uses: seq<K>) {
    && (forall e | e in es :: e.key in uses)
    && Descending(es, uses)
    && (forall k, e | k in uses && !HasKey(es, k) && e in es :: LastUse(uses, k) < LastUse(uses, e.key))
    && |es| == (if |KeySet(uses)| < n then |KeySet(uses)| else n)
  }

  lemma LastUseExtends<K>(uses: seq<K>, k: K, x: K)
    ensures LastUse(uses + [k], x) == if x == k then |uses| else LastUse(uses, x)
  {
    var u := uses + [k];
    assert u[|u| - 1] == k && u[..|u| - 1] == uses;
  }

  lemma {:induction false} WithoutDescending<K, V>(es: seq<Entry<K, V>>, k: K, uses: seq<K>)
    requires Descending(es, uses)
    ensures Descending(Without(es, k), uses)
    decreases es
  {
    if es != [] {
      var rest := es[1..];
      assert forall i | 0 <= i < |rest| :: rest[i] == es[i + 1];
      if es[0].key != k {
        var r := Without(rest, k);
        WithoutDescending(rest, k, uses);
        forall i | 0 <= i < |r| ensures LastUse(uses, r[i].key) < LastUse(uses, es[0].key) {
          WithoutMembers(rest, k, r[i]);
          var j :| 0 <= j < |rest| && rest[j] == r[i];
        }
      }
    }
  }

  /** Putting the key just used in front keeps the order by last use. */
  lemma {:induction false} FrontDescending<K, V>(es: seq<Entry<K, V>>, k: K, v: V, uses: seq<K>)
    requires DistinctKeys(es) && Descending(es, uses)
    ensures Descending([Entry(k, v)] + Without(es, k), uses + [k])
  {
    hide LastUse, Without;
    var r := Without(es, k);
    WithoutDescending(es, k, uses);
    var es' := [Entry(k, v)] + r;
    forall i, j | 0 <= i < j < |es'|
      ensures LastUse(uses + [k], es'[i].key) > LastUse(uses + [k], es'[j].key) {
      LastUseExtends(uses, k, es'[i].key);
      LastUseExtends(uses, k, es'[j].key);
      WithoutMembers(es, k, es'[j]);
      if i > 0 {
        WithoutMembers(es, k, es'[i]);
        assert es'[i] == r[i - 1] && es'[j] == r[j - 1];
      }
    }
  }

  lemma KeySetExtends<K>(uses: seq<K>, k: K)
    ensures KeySet(uses + [k]) == KeySet(uses) + {k}
  {
    assert forall x :: x in uses + [k] <==> x in uses || x == k;
  }

  lemma {:induction false} LookupFinds<K, V>(es: seq<Entry<K, V>>, k: K)
    ensures Lookup(es, k).Some? <==> HasKey(es, k)
    ensures Lookup(es, k).Some? ==> Entry(k, Lookup(es, k).value) in es
    decreases es
  {
    if es != [] {
      assert es == [es[0]] + es[1..];
      if es[0].key != k {
        LookupFinds(es[1..], k);
      }
    }
  }

  ghost function EntryKeys<K, V>(es: seq<Entry<K, V>>): set<K>
    decreases es
  {
    if es == [] then {} else {es[0].key} + EntryKeys(es[1..])
  }

  lemma {:induction false} EntryKeysCount<K, V>(es: seq<Entry<K, V>>)
    requires DistinctKeys(es)
    ensures |EntryKeys(es)| == |es|
    ensures forall k :: k in EntryKeys(es) <==> HasKey(es, k)
    decreases es
  {
    if es != [] {
      EntryKeysCount(es[1..]);
      forall k ensures k in EntryKeys(es) <==> HasKey(es, k) {
      }
    }
  }

  /** The list after `k` has been used, cut to `n` entries. */
  function Front<K(==), V>(es: seq<Entry<K, V>>, n: nat, k: K, v: V): seq<Entry<K, V>> {
    var es' := [Entry(k, v)] + Without(es, k);
    if |es'| > n then es'[..n] else es'
  }

  lemma {:induction false} FrontDistinct<K, V>(es: seq<Entry<K, V>>, k: K, v: V)
    requires DistinctKeys(es)
    ensures DistinctKeys([Entry(k, v)] + Without(es, k))
  {
    var r := Without(es, k);
    WithoutDistinct(es, k);
    forall i | 0 <= i < |r| ensures r[i].key != k {
      WithoutMembers(es, k, r[i]);
    }
  }

  lemma {:induction false} FrontSize<K, V>(es: seq<Entry<K, V>>, n: nat, uses: seq<K>, k: K, v: V)
    requires DistinctKeys(es) && MostRecent(es, n, uses)
    ensures |Front(es, n, k, v)| == if |KeySet(uses + [k])| < n then |KeySet(uses + [k])| else n
  {
    hide Lookup, Without, HasKey, EntryKeys;
    LookupWithout(es, k);
    LookupFinds(es, k);
    KeySetExtends(uses, k);
    EntryKeysCount(es);
    if HasKey(es, k) {
      assert Entry(k, Lookup(es, k).value).key in uses;
    }
    if k in uses {
      assert KeySet(uses) + {k} == KeySet(uses);
      forall x | x in EntryKeys(es) ensures x in uses {
        LookupFinds(es, x);
        assert Entry(x, Lookup(es, x).value).key in uses;
      }
      assert EntryKeys(es) <= KeySet(uses);
      SubsetSize(EntryKeys(es), KeySet(uses));
      assert !HasKey(es, k) ==> |es| < |KeySet(uses)|;
    }
  }

  /** A use keeps the list the most recently used keys. */
  lemma {:induction false} UseKeepsRecent<K, V>(es: seq<Entry<K, V>>, n: nat, uses: seq<K>, k: K, v: V)
    requires DistinctKeys(es) && MostRecent(es, n, uses)
    ensures DistinctKeys(Front(es, n, k, v)) && MostRecent(Front(es, n, k, v), n, uses + [k])
  {
    hide LastUse, KeySet;
    var es', r, uses' := [Entry(k, v)] + Without(es, k), Front(es, n, k, v), uses + [k];
    FrontSize(es, n, uses, k, v);
    FrontDistinct(es, k, v);
    FrontDescending(es, k, v, uses);
    assert forall i | 0 <= i < |r| :: r[i] == es'[i];
    forall e | e in r ensures e.key in uses' && (e == Entry(k, v) || e in es) {
      WithoutMembers(es, k, e);
    }
    forall x, e | x in uses' && !HasKey(r, x) && e in r
      ensures LastUse(uses', x) < LastUse(uses', e.key) {
      OlderThan(es, n, uses, k, v, x, e);
    }
  }

  lemma {:induction false} OlderThan<K, V>(es: seq<Entry<K, V>>, n: nat, uses: seq<K>, k: K, v: V, x: K, e: Entry<K, V>)
    requires DistinctKeys(es) && MostRecent(es, n, uses)
    requires x in uses + [k] && !HasKey(Front(es, n, k, v), x) && e in Front(es, n, k, v)
    requires Descending([Entry(k, v)] + Without(es, k), uses + [k])
    ensures LastUse(uses + [k], x) < LastUse(uses + [k], e.key)
  {
    hide LastUse, KeySet, Without, HasKey, Lookup;
    var es', r := [Entry(k, v)] + Without(es, k), Front(es, n, k, v);
    LastUseExtends(uses, k, x);
    LastUseExtends(uses, k, e.key);
    assert r[0] == Entry(k, v);
    HasKeyAt(r, 0);
    var j :| 0 <= j < |r| && r[j] == e;
    assert r <= es';
    if HasKey(es, x) {
      LookupFinds(es, x);
      var y := Entry(x, Lookup(es, x).value);
      WithoutMembers(es, k, y);
      assert y in es' by {
        assert es'[1..] == Without(es, k);
      }
      var i :| 0 <= i < |es'| && es'[i] == y;
      if i < |r| {
        HasKeyAt(r, i);
      }
    } else if j > 0 {
      assert e == es'[1..][j - 1] && es'[1..] == Without(es, k);
      WithoutMembers(es, k, e);
    }
  }

  lemma HasKeyAt<K, V>(es: seq<Entry<K, V>>, i: nat)
    requires i < |es|
    ensures HasKey(es, es[i].key)
  {
  }

  /** Every entry carries the value added last for its key. */
  ghost predicate Latest<K, V>(es: seq<Entry<K, V>>, ops: seq<Op<K, V>>) {
    forall e | e in es :: LastValue(ops, e.key) == Some(e.value)
  }

  lemma LastValueExtends<K, V>(ops: seq<Op<K, V>>, op: Op<K, V>, k: K)
    ensures LastValue(ops + [op], k) == if op.Add? && op.key == k then Some(op.value) else LastValue(ops, k)
  {
    var o := ops + [op];
    assert o[|o| - 1] == op && o[..|o| - 1] == ops;
  }

  lemma {:induction false} FrontLatest<K, V>(es: seq<Entry<K, V>>, n: nat, k: K, v: V, ops: seq<Op<K, V>>, op: Op<K, V>)
    requires DistinctKeys(es) && Latest(es, ops)
    requires op == Add(k, v) || (op == Get(k) && Entry(k, v) in es)
    ensures Latest(Front(es, n, k, v), ops + [op])
  {
    hide LastValue;
    forall e | e in Front(es, n, k, v) ensures LastValue(ops + [op], e.key) == Some(e.value) {
      LastValueExtends(ops, op, e.key);
      WithoutMembers(es, k, e);
    }
  }

  /** With a fixed pool, adding is a use of the key. */
  lemma FixedAdd<K, V>(c: Config<K, V>, l: Lru<K, V>, k: K, v: V)
    requires Fixed(c) && l.pool == c.minPoolSize && |l.entries| <= l.pool
    ensures Added(c, l, k, v).entries == Front(l.entries, l.pool, k, v) && Added(c, l, k, v).pool == l.pool
  {
    var put := l.(entries := [Entry(k, v)] + Without(l.entries, k));
    assert DropExpired(c, put, v) == put;
    if |put.entries| > l.pool {
      assert Shrink(c, put) == Shrink(c, LoseLast(c, put));
      assert |LoseLast(c, put).entries| == l.pool;
    }
  }

  ghost function UsedBy<K, V>(l: Lru<K, V>, op: Op<K, V>): seq<K> {
    match op
    case Add(k, _) => [k]
    case Get(k) => if Lookup(l.entries, k).Some? then [k] else []
    case _ => []
  }

  ghost predicate Recent<K, V>(c: Config<K, V>, l: Lru<K, V>, uses: seq<K>, done: seq<Op<K, V>>) {
    && 0 <= c.minPoolSize == l.pool
    && DistinctKeys(l.entries)
    && MostRecent(l.entries, l.pool, uses)
    && Latest(l.entries, done)
  }

  lemma {:induction false} StepRecent<K, V>(c: Config<K, V>, l: Lru<K, V>, uses: seq<K>, done: seq<Op<K, V>>,
                                            op: Op<K, V>)
    requires Fixed(c) && AddOrGet(op) && Recent(c, l, uses, done)
    ensures Recent(c, Apply(c, l, op), uses + UsedBy(l, op), done + [op])
  {
    hide LastUse, LastValue, MostRecent;
    assert |l.entries| <= l.pool by {
      RecentSize(l.entries, l.pool, uses);
    }
    match op {
      case Add(k, v) =>
        FixedAdd(c, l, k, v);
        UseKeepsRecent(l.entries, l.pool, uses, k, v);
        FrontLatest(l.entries, l.pool, k, v, done, op);
      case Get(k) =>
        LookupFinds(l.entries, k);
        match Lookup(l.entries, k) {
          case Some(v) =>
            LookupWithout(l.entries, k);
            UseKeepsRecent(l.entries, l.pool, uses, k, v);
            FrontLatest(l.entries, l.pool, k, v, done, op);
          case None =>
            assert uses + [] == uses;
            forall e | e in l.entries ensures LastValue(done + [op], e.key) == Some(e.value) {
              LastValueExtends(done, op, e.key);
            }
        }
    }
  }

  lemma RecentSize<K, V>(es: seq<Entry<K, V>>, n: nat, uses: seq<K>)
    requires MostRecent(es, n, uses)
    ensures |es| <= n
  {
  }

  lemma {:induction false} RunRecent<K, V>(c: Config<K, V>, l: Lru<K, V>, uses: seq<K>, done: seq<Op<K, V>>,
                                           ops: seq<Op<K, V>>)
    requires Fixed(c) && 0 <= l.pool && Recent(c, l, uses, done)
    requires forall op | op in ops :: AddOrGet(op)
    ensures Recent(c, Run(c, l, ops), uses + Uses(c, l, ops), done + ops)
    decreases ops
  {
    hide Recent, Apply, AddOrGet;
    if ops == [] {
      assert uses + Uses(c, l, ops) == uses && done + ops == done;
    } else {
      var op, l' := ops[0], Apply(c, l, ops[0]);
      StepRecent(c, l, uses, done, op);
      RunRecent(c, l', uses + UsedBy(l, op), done + [op], ops[1..]);
      assert done + [op] + ops[1..] == done + ops;
      assert uses + UsedBy(l, op) + Uses(c, l', ops[1..]) == uses + Uses(c, l, ops);
    }
  }

  /**
   With a fixed pool of n, after any run of Add and TryGetValue the list holds the n most recently
   used keys (all of them when there are fewer), latest first, each with the value added last.
   */
  lemma {:induction false} HoldsMostRecent<K, V>(c: Config<K, V>, ops: seq<Op<K, V>>)
    requires Fixed(c) && forall op | op in ops :: AddOrGet(op)
    ensures var es := Run(c, Empty(c), ops).entries;
            && DistinctKeys(es)
            && MostRecent(es, c.minPoolSize, Uses(c, Empty(c), ops))
            && Latest(es, ops)
  {
    hide MostRecent, Latest, Run, Uses;
    assert MostRecent<K, V>([], c.minPoolSize, []) && Latest<K, V>([], []) by {
      NothingUsed<K, V>(c.minPoolSize);
    }
    RunRecent(c, Empty(c), [], [], ops);
    assert [] + ops == ops && [] + Uses(c, Empty(c), ops) == Uses(c, Empty(c), ops);
  }

  lemma NothingUsed<K, V>(n: nat)
    ensures MostRecent<K, V>([], n, []) && Latest<K, V>([], [])
  {
    assert KeySet<K>([]) == {};
  }

  // ----- An entry stays as long as fewer than n other keys are used

  lemma {:induction false} WithoutHasNot<K, V>(es: seq<Entry<K, V>>, k: K)
    requires DistinctKeys(es)
    ensures Lookup(Without(es, k), k) == None
  {
    LookupFinds(Without(es, k), k);
    if Lookup(Without(es, k), k).Some? {
      WithoutMembers(es, k, Entry(k, Lookup(Without(es, k), k).value));
    }
  }

  /** The keys in front of `k`. */
  ghost function Before<K, V>(es: seq<Entry<K, V>>, k: K): set<K>
    decreases es
  {
    if es == [] || es[0].key == k then {} else {es[0].key} + Before(es[1..], k)
  }

  lemma {:induction false} LookupOther<K, V>(es: seq<Entry<K, V>>, k: K, other: K)
    requires k != other
    ensures Lookup(Without(es, other), k) == Lookup(es, k)
    ensures Before(Without(es, other), k) <= Before(es, k)
    decreases es
  {
    if es != [] {
      LookupOther(es[1..], k, other);
    }
  }

  lemma {:induction false} BeforeMembers<K, V>(es: seq<Entry<K, V>>, k: K, x: K)
    requires x in Before(es, k)
    ensures HasKey(es, x)
    decreases es
  {
    if es[0].key != x {
      BeforeMembers(es[1..], k, x);
    }
  }

  /** An entry lies within the first `n` if fewer than `n` keys are in front of it. */
  lemma {:induction false} LookupPrefix<K, V>(es: seq<Entry<K, V>>, n: nat, k: K)
    requires DistinctKeys(es) && n <= |es| && Lookup(es, k).Some? && |Before(es, k)| < n
    ensures Lookup(es[..n], k) == Lookup(es, k) && Before(es[..n], k) == Before(es, k)
    decreases es
  {
    assert es[..n][0] == es[0];
    if es[0].key != k {
      assert es[0].key !in Before(es[1..], k) by {
        if es[0].key in Before(es[1..], k) {
          BeforeMembers(es[1..], k, es[0].key);
        }
      }
      assert es[..n][1..] == es[1..][..n - 1];
      LookupPrefix(es[1..], n - 1, k);
    }
  }

  /** Using another key does not push `k` out while fewer than `n` keys are in front of it. */
  lemma {:induction false} FrontKeeps<K, V>(es: seq<Entry<K, V>>, n: nat, other: K, v: V, k: K)
    requires DistinctKeys(es) && k != other && Lookup(es, k).Some?
    requires |Before(es, k) + {other}| < n
    ensures Lookup(Front(es, n, other, v), k) == Lookup(es, k)
    ensures Before(Front(es, n, other, v), k) <= Before(es, k) + {other}
  {
    hide Without;
    var es' := [Entry(other, v)] + Without(es, other);
    LookupOther(es, k, other);
    FrontDistinct(es, other, v);
    assert es'[1..] == Without(es, other);
    SubsetSize(Before(es', k), Before(es, k) + {other});
    if |es'| > n {
      LookupPrefix(es', n, k);
    }
  }

  lemma {:induction false} FrontAbsent<K, V>(es: seq<Entry<K, V>>, n: nat, other: K, v: V, k: K)
    requires k != other && Lookup(es, k).None?
    ensures Lookup(Front(es, n, other, v), k).None?
  {
    hide Without;
    var es', r := [Entry(other, v)] + Without(es, other), Front(es, n, other, v);
    LookupOther(es, k, other);
    assert es'[1..] == Without(es, other);
    LookupFinds(es', k);
    LookupFinds(r, k);
  }

  /** The key just used comes first. */
  lemma FrontFirst<K, V>(es: seq<Entry<K, V>>, n: nat, k: K, v: V)
    requires n > 0
    ensures Lookup(Front(es, n, k, v), k) == Some(v) && Before(Front(es, n, k, v), k) == {}
  {
  }

  lemma {:induction false} FrontWellFormed<K, V>(es: seq<Entry<K, V>>, n: nat, k: K, v: V)
    requires DistinctKeys(es) && |es| <= n
    ensures DistinctKeys(Front(es, n, k, v)) && |Front(es, n, k, v)| <= n
    ensures forall e | e in Front(es, n, k, v) :: e == Entry(k, v) || e in es
  {
    hide Without;
    FrontDistinct(es, k, v);
    var es' := [Entry(k, v)] + Without(es, k);
    forall e | e in Front(es, n, k, v) ensures e == Entry(k, v) || e in es {
      assert e in es';
      WithoutMembers(es, k, e);
    }
  }

  // ----- The class

  /** A node of the linked list; its pair never changes. */
  class Node<K, V> {
    const key: K
    const value: V

    constructor (key: K, value: V)
      ensures this.key == key && this.value == value
    {
      this.key, this.value := key, value;
    }
  }

  function EntryOf<K, V>(n: Node<K, V>): Entry<K, V> {
    Entry(n.key, n.value)
  }

  function Entries<K, V>(nodes: seq<Node<K, V>>): (es: seq<Entry<K, V>>)
    ensures |es| == |nodes|
    ensures forall i | 0 <= i < |es| :: es[i] == EntryOf(nodes[i])
  {
    seq(|nodes|, i requires 0 <= i < |nodes| => EntryOf(nodes[i]))
  }

  /** The list with the node at `i` taken out. */
  function Unlink<K, V>(nodes: seq<Node<K, V>>, i: nat): seq<Node<K, V>>
    requires i < |nodes|
  {
    nodes[..i] + nodes[i + 1..]
  }

  lemma {:induction false} UnlinkIsWithout<K, V>(nodes: seq<Node<K, V>>, i: nat)
    requires i < |nodes| && DistinctKeys(Entries(nodes))
    ensures Entries(Unlink(nodes, i)) == Without(Entries(nodes), nodes[i].key)
    ensures Lookup(Entries(nodes), nodes[i].key) == Some(nodes[i].value)
    decreases i
  {
    var es := Entries(nodes);
    assert es[1..] == Entries(nodes[1..]);
    if i == 0 {
      assert Unlink(nodes, 0) == nodes[1..];
    } else {
      UnlinkIsWithout(nodes[1..], i - 1);
      assert es[i] in es[1..];
      assert Unlink(nodes, i) == [nodes[0]] + Unlink(nodes[1..], i - 1);
      assert Entries(Unlink(nodes, i)) == [es[0]] + Entries(Unlink(nodes[1..], i - 1));
    }
  }

  /** Map and list hold the same distinct keys, and each map entry points at the node with its key. */
  ghost predicate Linked<K, V>(nodes: seq<Node<K, V>>, m: map<K, Node<K, V>>) {
    && (forall i | 0 <= i < |nodes| :: nodes[i].key in m && m[nodes[i].key] == nodes[i])
    && (forall k | k in m :: m[k].key == k && m[k] in nodes)
    && DistinctKeys(Entries(nodes))
    && |m| == |nodes|
  }

  lemma {:induction false} LinkedLookup<K, V>(nodes: seq<Node<K, V>>, m: map<K, Node<K, V>>, k: K)
    requires Linked(nodes, m)
    ensures k in m <==> HasKey(Entries(nodes), k)
    ensures Lookup(Entries(nodes), k) == if k in m then Some(m[k].value) else None
  {
    hide Lookup;
    var es := Entries(nodes);
    LookupFinds(es, k);
    if k in m {
      var i :| 0 <= i < |nodes| && nodes[i] == m[k];
      assert es[i].key == k;
      UnlinkIsWithout(nodes, i);
    }
  }

  lemma DistinctNodes<K, V>(nodes: seq<Node<K, V>>, i: nat, j: nat)
    requires DistinctKeys(Entries(nodes)) && i < |nodes| && j < |nodes| && i != j
    ensures nodes[i].key != nodes[j].key
  {
    var es := Entries(nodes);
    assert es[i].key != es[j].key;
  }

  lemma {:induction false} MapUnlink<K, V>(nodes: seq<Node<K, V>>, m: map<K, Node<K, V>>, i: nat)
    requires Linked(nodes, m) && i < |nodes|
    ensures var nodes', m' := Unlink(nodes, i), m - {nodes[i].key};
            && (forall j | 0 <= j < |nodes'| :: nodes'[j].key in m' && m'[nodes'[j].key] == nodes'[j])
            && (forall k | k in m' :: m'[k].key == k && m'[k] in nodes')
            && |m'| == |nodes'|
  {
    hide DistinctKeys, Entries;
    var k := nodes[i].key;
    var nodes', m' := Unlink(nodes, i), m - {k};
    forall j | 0 <= j < |nodes'| ensures nodes'[j].key in m' && m'[nodes'[j].key] == nodes'[j] {
      DistinctNodes(nodes, if j < i then j else j + 1, i);
    }
    forall x | x in m' ensures m'[x].key == x && m'[x] in nodes' {
      var j :| 0 <= j < |nodes| && nodes[j] == m[x];
      assert nodes'[if j < i then j else j - 1] == m[x];
    }
    assert m'.Keys == m.Keys - {k};
    assert |m'| == |m'.Keys| == |m.Keys| - 1;
  }

  lemma {:induction false} LinkedUnlink<K, V>(nodes: seq<Node<K, V>>, m: map<K, Node<K, V>>, i: nat)
    requires Linked(nodes, m) && i < |nodes|
    ensures Linked(Unlink(nodes, i), m - {nodes[i].key})
    ensures Entries(Unlink(nodes, i)) == Without(Entries(nodes), nodes[i].key)
  {
    hide Without, Lookup, Entries, Unlink, DistinctKeys;
    MapUnlink(nodes, m, i);
    UnlinkIsWithout(nodes, i);
    WithoutDistinct(Entries(nodes), nodes[i].key);
  }

  lemma EntriesPush<K, V>(nodes: seq<Node<K, V>>, node: Node<K, V>)
    requires DistinctKeys(Entries(nodes)) && forall i | 0 <= i < |nodes| :: nodes[i].key != node.key
    ensures Entries([node] + nodes) == [EntryOf(node)] + Entries(nodes)
    ensures DistinctKeys(Entries([node] + nodes))
  {
    assert Entries([node] + nodes) == [EntryOf(node)] + Entries(nodes);
  }

  lemma {:induction false} LinkedPush<K, V>(nodes: seq<Node<K, V>>, m: map<K, Node<K, V>>, node: Node<K, V>)
    requires Linked(nodes, m) && node.key !in m
    ensures Linked([node] + nodes, m[node.key := node])
    ensures Entries([node] + nodes) == [EntryOf(node)] + Entries(nodes)
  {
    hide Entries, DistinctKeys;
    EntriesPush(nodes, node);
  }

  class List<K(==), V> {
    const config: Config<K, V>
    var linkedList: seq<Node<K, V>>
    var sortedList: map<K, Node<K, V>>
    var currentPoolSize: int
    ghost var lost: seq<Entry<K, V>>

    ghost function Contents(): Lru<K, V>
      reads this
    {
      Lru(Entries(linkedList), currentPoolSize, lost)
    }

    ghost predicate Valid()
      reads this
    {
      0 <= currentPoolSize && Linked(linkedList, sortedList)
    }

    constructor (config: Config<K, V>)
      requires 0 <= config.minPoolSize
      ensures Valid() && Contents() == Empty(config) && this.config == config
    {
      this.config, linkedList, sortedList := config, [], map[];
      currentPoolSize, lost := config.minPoolSize, [];
    }

    method Count() returns (n: int)
      requires Valid()
      ensures n == |Contents().entries|
    {
      n := |sortedList|;
    }

    method ContainsKey(key: K) returns (r: bool)
      requires Valid()
      ensures r == HasKey(Contents().entries, key)
    {
      r := key in sortedList;
      LinkedLookup(linkedList, sortedList, key);
    }

    /** Erases the node that the map holds for `key` from the list, and then from the map. */
    method Unhook(key: K)
      requires Valid() && key in sortedList
      modifies this`linkedList, this`sortedList
      ensures Valid()
      ensures Contents() == old(Contents()).(entries := Without(old(Contents()).entries, key))
      ensures sortedList == old(sortedList) - {key}
    {
      var node := sortedList[key];
      var i :| 0 <= i < |linkedList| && linkedList[i] == node;
      LinkedUnlink(linkedList, sortedList, i);
      linkedList := Unlink(linkedList, i);
      sortedList := sortedList - {key};
    }

    method LastNodePopularityLost()
      requires Valid()
      modifies this`linkedList, this`sortedList, this`lost
      ensures Valid()
      ensures Contents() == if old(linkedList) == [] then old(Contents()) else LoseLast(config, old(Contents()))
    {
      hide Linked, Without;
      if |linkedList| == 0 {
        return;
      }
      var n := |linkedList| - 1;
      var lastNode := linkedList[n];
      UnlinkLast(linkedList, sortedList);
      Unhook(lastNode.key);
      if config.notify {
        lost := lost + [EntryOf(lastNode)];
      }
    }

    method Remove(key: K, triggerPopularityLost: bool)
      requires Valid()
      modifies this`linkedList, this`sortedList, this`lost
      ensures Valid() && Contents() == Removed(config, old(Contents()), key, triggerPopularityLost)
      ensures sortedList == old(sortedList) - {key}
    {
      hide Linked, Without, Lookup;
      LinkedLookup(linkedList, sortedList, key);
      if key in sortedList {
        var value := sortedList[key].value;
        Unhook(key);
        if triggerPopularityLost && config.notify {
          lost := lost + [Entry(key, value)];
        }
      }
    }

    /** `push_front`, with the map entry. */
    method PushFront(node: Node<K, V>)
      requires Valid() && node.key !in sortedList
      modifies this`linkedList, this`sortedList
      ensures Valid()
      ensures Contents() == old(Contents()).(entries := [EntryOf(node)] + old(Contents()).entries)
    {
      hide Linked, Entries;
      LinkedPush(linkedList, sortedList, node);
      linkedList := [node] + linkedList;
      sortedList := sortedList[node.key := node];
    }

    method Add(key: K, value: V)
      requires Valid()
      modifies this
      ensures Valid() && Contents() == Added(config, old(Contents()), key, value)
    {
      hide Linked, Lookup, Without, DropExpired, Shrink, Entries;
      ghost var es := Entries(linkedList);
      LinkedLookup(linkedList, sortedList, key);
      LookupWithout(es, key);
      if key in sortedList {
        Remove(key, false);
      }
      assert Entries(linkedList) == Without(es, key);
      var node := new Node(key, value);
      PushFront(node);
      DropOldEntries(value);
      ShrinkToPool();
    }

    /** The loop of Add that asks whether the last value has expired. */
    method DropOldEntries(value: V)
      requires Valid()
      modifies this
      ensures Valid() && Contents() == DropExpired(config, old(Contents()), value)
      ensures currentPoolSize == old(currentPoolSize)
    {
      hide Linked, DropExpired;
      if config.expired.Some? {
        while |linkedList| > 0 && config.expired.value(linkedList[|linkedList| - 1].value, value)
          invariant Valid() && DropExpired(config, Contents(), value) == DropExpired(config, old(Contents()), value)
          invariant currentPoolSize == old(currentPoolSize)
          decreases |linkedList|
        {
          DropExpiredStep(config, Contents(), value);
          LastNodePopularityLost();
        }
      }
      DropExpiredStep(config, Contents(), value);
    }

    /** The loop of Add that expands the pool or drops entries until they fit. */
    method ShrinkToPool()
      requires Valid()
      modifies this
      ensures Valid() && Contents() == Shrink(config, old(Contents()))
    {
      hide Shrink;
      while |sortedList| > currentPoolSize
        invariant Valid() && Shrink(config, Contents()) == Shrink(config, old(Contents()))
        decreases |linkedList|, config.maxPoolSize - currentPoolSize
      {
        ShrinkStep(config, Contents());
        if currentPoolSize < config.maxPoolSize && config.canExpand.Some?
           && config.canExpand.value(Entries(linkedList)) {
          currentPoolSize := if |sortedList| <= config.maxPoolSize then |sortedList| else config.maxPoolSize;
        } else {
          LastNodePopularityLost();
        }
      }
      ShrinkStep(config, Contents());
    }

    method TryGetValue(key: K) returns (value: Option<V>)
      requires Valid()
      modifies this`linkedList, this`sortedList
      ensures Valid() && Contents() == Found(old(Contents()), key)
      ensures value == Lookup(old(Contents()).entries, key)
    {
      hide Lookup, Without;
      LinkedLookup(linkedList, sortedList, key);
      value := None;
      if key in sortedList {
        var llNode := sortedList[key];
        value := Some(llNode.value);
        Unhook(key);
        PushFront(llNode);
      }
    }

    method Clear()
      modifies this`linkedList, this`sortedList
      ensures Contents() == old(Contents()).(entries := [])
      ensures old(Valid()) ==> Valid()
    {
      linkedList, sortedList := [], map[];
    }
  }

  lemma DropExpiredStep<K, V>(c: Config<K, V>, l: Lru<K, V>, v: V)
    ensures l.entries != [] && c.expired.Some? && c.expired.value(l.entries[|l.entries| - 1].value, v) ==>
              DropExpired(c, l, v) == DropExpired(c, LoseLast(c, l), v)
    ensures l.entries == [] || c.expired.None? || !c.expired.value(l.entries[|l.entries| - 1].value, v) ==>
              DropExpired(c, l, v) == l
  {
  }

  lemma ShrinkStep<K, V>(c: Config<K, V>, l: Lru<K, V>)
    requires 0 <= l.pool
    ensures |l.entries| <= l.pool ==> Shrink(c, l) == l
    ensures |l.entries| > l.pool ==>
              Shrink(c, l) == if l.pool < c.maxPoolSize && c.canExpand.Some? && c.canExpand.value(l.entries)
                              then
                                var pool := if |l.entries| <= c.maxPoolSize then |l.entries| else c.maxPoolSize;
                                Shrink(c, l.(pool := pool))
                              else Shrink(c, LoseLast(c, l))
  {
  }

  lemma UnlinkLast<K, V>(nodes: seq<Node<K, V>>, m: map<K, Node<K, V>>)
    requires Linked(nodes, m) && nodes != []
    ensures var n, es := |nodes| - 1, Entries(nodes);
            nodes[n].key in m && Without(es, nodes[n].key) == es[..n] && es[n] == EntryOf(nodes[n])
  {
    var n := |nodes| - 1;
    UnlinkIsWithout(nodes, n);
    assert Unlink(nodes, n) == nodes[..n];
    assert Entries(nodes[..n]) == Entries(nodes)[..n];
  }
}
