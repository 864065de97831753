/**
 A word set that is exact while it is small: the words themselves are kept beside the Bloom filter
 until there are too many of them.
 */
module BloomHashSet {
  import opened BloomFilter

  const MAX_WORDS_IN_HASH_SET := 100000
  const MAX_CHARS_IN_HASH_SET := 1000000

  datatype Set = Set(filter: State, hashSet: set<Word>, useHashSet: bool, charCount: nat) {

    predicate Full() {
      filter.wordCount > MAX_WORDS_IN_HASH_SET || charCount > MAX_CHARS_IN_HASH_SET
    }
  }

  function Emptied(shape: Shape): Set {
    Set(Cleared(shape), {}, true, 0)
  }

  function WithWord(shape: Shape, s: Set, word: Word): Set {
    var filter := Added(shape, s.filter, word);
    if !s.useHashSet then s.(filter := filter)
    else if s.Full() then Set(filter, {}, false, s.charCount)
    else Set(filter, s.hashSet + {shape.Fold(word)}, true, s.charCount + |word|)
  }

  predicate Holds(shape: Shape, s: Set, word: Word)
    requires SizedFor(shape, s.filter)
  {
    Has(shape, s.filter, word) && (s.useHashSet ==> shape.Fold(word) in s.hashSet)
  }

  class HashSet {
    const filter: Filter
    var hashSet: set<Word>
    var useHashSet: bool
    var charCount: nat

    ghost predicate Valid() {
      filter.Valid()
    }

    function View(): Set
      reads this, filter, filter.bitArray
    {
      Set(filter.View(), hashSet, useHashSet, charCount)
    }

    /** An empty set for about `estimate` words. */
    constructor (estimate: nat, caseSensitive: bool, hashing: Hashing)
      ensures Valid() && fresh(filter) && fresh(filter.bitArray) && View() == Emptied(filter.shape)
      ensures filter.shape.caseSensitive == caseSensitive && filter.shape.hashing == hashing
    {
      filter := new Filter(estimate, caseSensitive, DEFAULT_BITS_PER_ELEMENT, hashing);
      hashSet, useHashSet, charCount := {}, true, 0;
    }

    method AddWord(word: Word)
      requires Valid()
      modifies this, filter, filter.bitArray
      ensures View() == WithWord(filter.shape, old(View()), word)
    {
      hide Added, Cleared;
      if useHashSet {
        if filter.wordCount > MAX_WORDS_IN_HASH_SET || charCount > MAX_CHARS_IN_HASH_SET {
          useHashSet := false;
          hashSet := {};
        } else {
          if filter.shape.caseSensitive {
            hashSet := hashSet + {word};
          } else {
            hashSet := hashSet + {Lower(word)};
          }
          charCount := charCount + |word|;
        }
      }
      filter.AddWord(word);
    }

    /** Inherited: adds a word while the filter counts fewer words than half its bits. */
    method TryAddWord(word: Word) returns (added: bool)
      requires Valid()
      modifies this, filter, filter.bitArray
      ensures added <==> Accepts(old(View()).filter)
      ensures View() == if added then WithWord(filter.shape, old(View()), word) else old(View())
    {
      hide WithWord;
      if filter.wordCount < filter.bitArray.Length / 2 {
        AddWord(word);
        return true;
      }
      added := false;
    }

    method Clear()
      requires Valid()
      modifies this, filter, filter.bitArray
      ensures View() == Emptied(filter.shape)
    {
      filter.Clear();
      charCount := 0;
      useHashSet := true;
      hashSet := {};
    }

    method HasWord(word: Word) returns (has: bool)
      requires Valid()
      ensures has <==> Holds(filter.shape, View(), word)
    {
      var found := filter.HasWord(word);
      if found {
        if !useHashSet {
          return true;
        } else if filter.shape.caseSensitive {
          return word in hashSet;
        } else {
          return Lower(word) in hashSet;
        }
      }
      has := false;
    }
  }

  // ----- Runs

  datatype Operation = AddWord(word: Word) | TryAddWord(word: Word) | Clear

  function Step(shape: Shape, s: Set, op: Operation): Set {
    match op
    case AddWord(word) => WithWord(shape, s, word)
    case TryAddWord(word) => if Accepts(s.filter) then WithWord(shape, s, word) else s
    case Clear => Emptied(shape)
  }

  /** The set after a run of operations. */
  function After(shape: Shape, ops: seq<Operation>): Set {
    if ops == [] then Emptied(shape) else Step(shape, After(shape, ops[..|ops| - 1]), ops[|ops| - 1])
  }

  /** The history of the filter below the set. */
  function FilterHistory(ops: seq<Operation>): History {
    if ops == [] then Empty
    else
      var before := FilterHistory(ops[..|ops| - 1]);
      match ops[|ops| - 1]
      case AddWord(word) => Add(before, word)
      case TryAddWord(word) => TryAdd(before, word)
      case Clear => History.Clear(before)
  }

  /** The folded words accepted since the set was last cleared. */
  function WordsSinceClear(shape: Shape, ops: seq<Operation>): set<Word> {
    Contents(shape, FilterHistory(ops))
  }

  lemma {:induction false} FilterFollows(shape: Shape, ops: seq<Operation>)
    ensures After(shape, ops).filter == StateOf(shape, FilterHistory(ops))
  {
    hide Added, Cleared;
    if ops != [] {
      FilterFollows(shape, ops[..|ops| - 1]);
    }
  }

  lemma {:induction false} KeepsWords(shape: Shape, ops: seq<Operation>)
    ensures After(shape, ops).useHashSet ==> After(shape, ops).hashSet == WordsSinceClear(shape, ops)
  {
    hide Added, Cleared;
    if ops != [] {
      FilterFollows(shape, ops[..|ops| - 1]);
      KeepsWords(shape, ops[..|ops| - 1]);
    }
  }

  /** Until the switch the answer is exact; after it no word that was added is denied. */
  lemma {:induction false} Exact(shape: Shape, ops: seq<Operation>, word: Word)
    ensures SizedFor(shape, After(shape, ops).filter)
    ensures After(shape, ops).useHashSet ==>
              (Holds(shape, After(shape, ops), word) <==> shape.Fold(word) in WordsSinceClear(shape, ops))
    ensures shape.Fold(word) in WordsSinceClear(shape, ops) ==> Holds(shape, After(shape, ops), word)
  {
    hide StateOf, Contents, Has, FilterHistory;
    FilterFollows(shape, ops);
    KeepsWords(shape, ops);
    FoundIff(shape, FilterHistory(ops), word);
  }

  /** How many words have been accepted since the last Clear, and of how many characters. */
  datatype Totals = Totals(words: nat, chars: nat) {

    predicate Full() {
      words > 100_000 || chars > 1_000_000
    }
  }

  /** Whether the operation adds its word. */
  predicate Accepting(shape: Shape, t: Totals, op: Operation) {
    op.AddWord? || (op.TryAddWord? && t.words < shape.Size() / 2)
  }

  function TotalsOf(shape: Shape, ops: seq<Operation>): Totals {
    if ops == [] then Totals(0, 0)
    else
      var t, op := TotalsOf(shape, ops[..|ops| - 1]), ops[|ops| - 1];
      if op.Clear? then Totals(0, 0)
      else if Accepting(shape, t, op) then Totals(t.words + 1, t.chars + |op.word|)
      else t
  }

  lemma {:induction false} TotalsAreKept(shape: Shape, ops: seq<Operation>)
    ensures var s := After(shape, ops);
            && SizedFor(shape, s.filter) && s.filter.wordCount == TotalsOf(shape, ops).words
            && (s.useHashSet ==> s.charCount == TotalsOf(shape, ops).chars)
  {
    if ops != [] {
      TotalsAreKept(shape, ops[..|ops| - 1]);
    }
  }

  /** The `i`-th operation adds a word to a full set, which is not cleared afterwards. */
  ghost predicate Overflows(shape: Shape, ops: seq<Operation>, i: nat)
    requires i < |ops|
  {
    && Accepting(shape, TotalsOf(shape, ops[..i]), ops[i])
    && TotalsOf(shape, ops[..i]).Full()
    && forall j | i < j < |ops| :: !ops[j].Clear?
  }

  /** The set is in use if and only if no word accepted since the last Clear was added to a full set. */
  lemma {:induction false} SwitchIff(shape: Shape, ops: seq<Operation>)
    ensures After(shape, ops).useHashSet <==> forall i | 0 <= i < |ops| :: !Overflows(shape, ops, i)
  {
    hide Added, Cleared, TotalsOf;
    if ops != [] {
      var n := |ops| - 1;
      var front := ops[..n];
      SwitchIff(shape, front);
      TotalsAreKept(shape, front);
      forall i | 0 <= i < n
        ensures Overflows(shape, ops, i) <==> Overflows(shape, front, i) && !ops[n].Clear?
      {
        assert front[..i] == ops[..i];
      }
      assert Overflows(shape, ops, n)
             <==> Accepting(shape, TotalsOf(shape, front), ops[n]) && TotalsOf(shape, front).Full();
      StepUse(shape, After(shape, front), TotalsOf(shape, front), ops[n]);
    }
  }

  lemma {:induction false} StepUse(shape: Shape, s: Set, t: Totals, op: Operation)
    requires SizedFor(shape, s.filter) && s.filter.wordCount == t.words && (s.useHashSet ==> s.charCount == t.chars)
    ensures Step(shape, s, op).useHashSet
            <==> op.Clear? || (s.useHashSet && !(Accepting(shape, t, op) && t.Full()))
  {
    hide Added, Cleared;
  }

  /** While the set is used it stays small: the switch bounds the words it keeps. */
  lemma {:induction false} KeptIsBounded(shape: Shape, ops: seq<Operation>)
    ensures var s := After(shape, ops);
            s.useHashSet ==> |s.hashSet| <= s.filter.wordCount <= 100_001
  {
    hide Accepts;
    if ops != [] {
      var before := After(shape, ops[..|ops| - 1]);
      KeptIsBounded(shape, ops[..|ops| - 1]);
    }
  }
}
