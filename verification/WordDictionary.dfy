/**
 The cleartext dictionary: the words of a text file, found again in any letter case.
 */
module WordDictionary {
  import opened Bytes
  import opened BloomFilter
  import opened Wrappers

  type Data = seq<byte>

  const NEWLINE: byte := 10
  const RETURN: byte := 13
  const MIN_WORD_LENGTH := 3

  /** Space, comma, full stop, exclamation and question mark, brackets of four kinds and both quotes. */
  predicate Separator(b: byte) {
    b in [32, 44, 46, 33, 63, 60, 62, 40, 41, 123, 125, 91, 93, 34, 39]
  }

  function UpperByte(b: byte): byte {
    if 97 <= b <= 122 then b - 32 else b
  }

  const SEPARATORS := " ,.!?<>(){}[]\"'"

  lemma {:induction false} SeparatorsAre(b: byte)
    ensures Separator(b) <==> b as char in SEPARATORS
  {}

  /** The letters have their other case 32 apart, and all other bytes stay. */
  lemma {:induction false} Cases(b: byte)
    ensures UpperByte(b) == b <==> !(97 <= b <= 122)
    ensures LowerByte(b) == b <==> !(65 <= b <= 90)
    ensures 65 <= b <= 90 ==> LowerByte(b) == b + 32 && UpperByte(LowerByte(b)) == b
    ensures 97 <= b <= 122 ==> UpperByte(b) == b - 32 && LowerByte(UpperByte(b)) == b
  {}

  // ----- Lines and tokens

  /** The first position at or after `from` where a line ends or the text does. */
  function LineEnd(content: Data, from: nat): (e: nat)
    requires from <= |content|
    ensures from <= e <= |content| && (e < |content| ==> content[e] == NEWLINE)
    ensures forall i :: from <= i < e ==> content[i] != NEWLINE
    decreases |content| - from
  {
    if from == |content| || content[from] == NEWLINE then from else LineEnd(content, from + 1)
  }

  function WithoutReturn(line: Data): Data {
    if line != [] && line[|line| - 1] == RETURN then line[..|line| - 1] else line
  }

  /** The lines from `from` on; after a final newline there is none. */
  function Lines(content: Data, from: nat): seq<Data>
    requires from <= |content|
    decreases |content| - from
  {
    if from == |content| then []
    else
      var e := LineEnd(content, from);
      [WithoutReturn(content[from..e])] + (if e == |content| then [] else Lines(content, e + 1))
  }

  /** Lines as they are written, each with its line feed and, in files from Windows, a carriage return before it. */
  function Written(lines: seq<Data>, withReturns: bool): Data {
    if lines == [] then []
    else lines[0] + (if withReturns then [13] else []) + [10] + Written(lines[1..], withReturns)
  }

  lemma LinesStep(content: Data, from: nat, e: nat)
    requires from < |content| && LineEnd(content, from) == e
    ensures e <= |content|
    ensures Lines(content, from)
            == [WithoutReturn(content[from..e])] + (if e == |content| then [] else Lines(content, e + 1))
  {
    hide LineEnd, WithoutReturn;
  }

  lemma LinesEnd(content: Data)
    ensures Lines(content, |content|) == []
  {}

  lemma {:induction false} LinesShift(before: Data, content: Data, from: nat)
    requires from <= |content|
    ensures Lines(before + content, |before| + from) == Lines(content, from)
    decreases |content| - from
  {
    hide *;
    var n, all := |before|, before + content;
    if from < |content| {
      var e := LineEnd(content, from);
      LineEndShift(before, content, from);
      LinesStep(content, from, e);
      LinesStep(all, n + from, n + e);
      assert all[n + from..n + e] == content[from..e];
      if e < |content| {
        LinesShift(before, content, e + 1);
      }
    } else {
      LinesEnd(content);
      LinesEnd(all);
    }
  }

  lemma {:induction false} LineEndShift(before: Data, content: Data, from: nat)
    requires from <= |content|
    ensures LineEnd(before + content, |before| + from) == |before| + LineEnd(content, from)
    decreases |content| - from
  {
    if from < |content| && content[from] != 10 {
      LineEndShift(before, content, from + 1);
    }
  }

  lemma {:induction false} LineEndAt(content: Data, from: nat, e: nat)
    requires from <= e < |content| && content[e] == 10 && forall i | from <= i < e :: content[i] != 10
    ensures LineEnd(content, from) == e
    decreases e - from
  {
    if from < e {
      LineEndAt(content, from + 1, e);
    }
  }

  /** The first line, and the lines of what follows it. */
  lemma {:induction false} FirstLine(line: Data, rest: Data)
    requires 10 !in line
    ensures Lines(line + [10] + rest, 0) == [WithoutReturn(line)] + Lines(rest, 0)
  {
    hide *;
    var first := line + [10];
    var content, e := first + rest, |line|;
    forall i | 0 <= i < e ensures content[i] != 10 {
      assert content[i] == line[i] && line[i] in line;
    }
    LineEndAt(content, 0, e);
    LinesStep(content, 0, e);
    assert content[0..e] == line;
    LinesShift(first, rest, 0);
  }

  /** The lines that are read are those that were written. */
  lemma {:induction false} LinesRead(lines: seq<Data>, withReturns: bool)
    requires forall l | l in lines :: 10 !in l && (l == [] || l[|l| - 1] != 13)
    ensures Lines(Written(lines, withReturns), 0) == lines
    decreases lines
  {
    hide Lines, LineEnd;
    if lines == [] {
      LinesEnd([]);
    } else {
      var l, rest := lines[0], lines[1..];
      assert l in lines && forall x | x in rest :: x in lines;
      LinesRead(rest, withReturns);
      var end: Data := if withReturns then [13] else [];
      FirstLine(l + end, Written(rest, withReturns));
      assert WithoutReturn(l + end) == l;
      assert lines == [l] + rest;
    }
  }

  function FindSeparator(line: Data, from: nat): (e: nat)
    requires from <= |line|
    ensures from <= e <= |line| && (e < |line| ==> Separator(line[e]))
    ensures forall i :: from <= i < e ==> !Separator(line[i])
    decreases |line| - from
  {
    if from == |line| || Separator(line[from]) then from else FindSeparator(line, from + 1)
  }

  /** The pieces between separators from `from` on. */
  function Tokens(line: Data, from: nat): seq<Word>
    requires from <= |line|
    decreases |line| - from
  {
    var e := FindSeparator(line, from);
    [line[from..e]] + (if e == |line| then [] else Tokens(line, e + 1))
  }

  /** A stretch of the line without separators that cannot be made longer. */
  predicate TokenAt(line: Data, i: nat, j: nat) {
    && i <= j <= |line|
    && (forall k :: i <= k < j ==> !Separator(line[k]))
    && (i > 0 ==> Separator(line[i - 1]))
    && (j < |line| ==> Separator(line[j]))
  }

  lemma {:induction false} TokenListed(line: Data, from: nat, i: nat, j: nat)
    requires from <= i && TokenAt(line, i, j)
    ensures line[i..j] in Tokens(line, from)
    decreases |line| - from
  {
    var e := FindSeparator(line, from);
    if i > from {
      assert e <= i - 1;
      TokenListed(line, e + 1, i, j);
    }
  }

  function AllTokens(lines: seq<Data>): seq<Word> {
    if lines == [] then [] else AllTokens(lines[..|lines| - 1]) + Tokens(lines[|lines| - 1], 0)
  }

  lemma {:induction false} AllTokensListed(lines: seq<Data>, k: nat, token: Word)
    requires k < |lines| && token in Tokens(lines[k], 0)
    ensures token in AllTokens(lines)
    decreases |lines|
  {
    hide Tokens;
    if k < |lines| - 1 {
      AllTokensListed(lines[..|lines| - 1], k, token);
    }
  }

  // ----- What is kept of the tokens

  /** The lower-case forms of the tokens that are long enough. */
  function Kept(tokens: seq<Word>): seq<Word> {
    if tokens == [] then []
    else
      var rest, last := Kept(tokens[..|tokens| - 1]), tokens[|tokens| - 1];
      if |last| >= MIN_WORD_LENGTH then rest + [Lower(last)] else rest
  }

  lemma {:induction false} KeptIff(tokens: seq<Word>, word: Word)
    ensures word in Kept(tokens) <==> exists t :: t in tokens && |t| >= 3 && Lower(t) == word
  {
    hide Lower;
    if tokens != [] {
      var front, last := tokens[..|tokens| - 1], tokens[|tokens| - 1];
      KeptIff(front, word);
      assert tokens == front + [last];
      if word in Kept(front) {
        var t :| t in front && |t| >= MIN_WORD_LENGTH && Lower(t) == word;
        assert t in tokens;
      } else if |last| >= MIN_WORD_LENGTH && word == Lower(last) {
        assert last in tokens;
      }
    }
  }

  /** The bytes of the tokens, and of their upper-case forms. */
  function Letters(tokens: seq<Word>): set<byte> {
    set t, i | t in tokens && |t| >= MIN_WORD_LENGTH && 0 <= i < |t| :: t[i]
  }

  function UpperLetters(tokens: seq<Word>): set<byte> {
    set t, i | t in tokens && |t| >= MIN_WORD_LENGTH && 0 <= i < |t| :: UpperByte(t[i])
  }

  function Longest(tokens: seq<Word>, than: nat): (n: nat)
    ensures n >= than
    ensures forall t | t in tokens && |t| >= MIN_WORD_LENGTH :: |t| <= n
  {
    if tokens == [] then than
    else
      var rest, last := Longest(tokens[..|tokens| - 1], than), tokens[|tokens| - 1];
      assert tokens == tokens[..|tokens| - 1] + [last];
      if |last| >= MIN_WORD_LENGTH && |last| > rest then |last| else rest
  }

  /** The greatest length of the tokens that are long enough, or what it was before. */
  lemma {:induction false} LongestReached(tokens: seq<Word>, than: nat)
    ensures Longest(tokens, than) == than || exists t :: t in tokens && |t| >= 3 && |t| == Longest(tokens, than)
  {
    if tokens != [] {
      var front, last := tokens[..|tokens| - 1], tokens[|tokens| - 1];
      LongestReached(front, than);
      assert tokens == front + [last];
      if Longest(tokens, than) != than {
        if Longest(front, than) == Longest(tokens, than) {
          var t :| t in front && |t| >= 3 && |t| == Longest(front, than);
          assert t in tokens;
        } else {
          assert last in tokens;
        }
      }
    }
  }

  /** What loading gathers: the list of words, the greatest length, and the bytes that occur. */
  datatype Gathered = Gathered(words: seq<Word>, longest: nat, letters: set<byte>)

  function Gather(g: Gathered, tokens: seq<Word>): Gathered {
    Gathered(g.words + Kept(tokens), Longest(tokens, g.longest), g.letters + Letters(tokens) + UpperLetters(tokens))
  }

  class Dictionary {
    var longestWord: nat
    var byteLetters: set<byte>
    var bloomFilter: Filter?
    const hashing: Hashing
    ghost var loaded: seq<Word>

    ghost predicate Valid()
      reads this, bloomFilter, if bloomFilter != null then {bloomFilter.bitArray} else {}
    {
      bloomFilter != null ==>
        && bloomFilter.Valid() && !bloomFilter.shape.caseSensitive
        && bloomFilter.View() == StateOf(bloomFilter.shape, Adding(loaded))
        && forall w | w in loaded :: MIN_WORD_LENGTH <= |w| <= longestWord
    }

    constructor (hashing: Hashing)
      ensures Valid() && bloomFilter == null && longestWord == 0 && byteLetters == {}
    {
      this.hashing := hashing;
      longestWord, byteLetters, bloomFilter, loaded := 0, {}, null, [];
    }

    /** Adds one token to the list. */
    method AddWord(word: Word, wordList: seq<Word>) returns (newList: seq<Word>)
      modifies `longestWord, `byteLetters
      ensures Gathered(newList, longestWord, byteLetters)
              == Gather(Gathered(wordList, old(longestWord), old(byteLetters)), [word])
    {
      GatherOne(Gathered(wordList, longestWord, byteLetters), word);
      hide Gather, Lower;
      newList := wordList;
      if |word| >= MIN_WORD_LENGTH {
        newList := newList + [Lower(word)];
        byteLetters := byteLetters + (set i | 0 <= i < |word| :: word[i]);
        byteLetters := byteLetters + (set i | 0 <= i < |word| :: UpperByte(word[i]));
        if |word| > longestWord {
          longestWord := |word|;
        }
      }
    }

    /** Adds the tokens of one line. */
    method AddLine(line: Data, wordList: seq<Word>) returns (newList: seq<Word>)
      modifies `longestWord, `byteLetters
      ensures Gathered(newList, longestWord, byteLetters)
              == Gather(Gathered(wordList, old(longestWord), old(byteLetters)), Tokens(line, 0))
    {
      hide Gather, Tokens;
      ghost var before := Gathered(wordList, longestWord, byteLetters);
      newList := wordList;
      var start: nat := 0;
      var end := FindSeparator(line, 0);
      ghost var done: seq<Word> := [];
      GatherNone(before);
      while end < |line|
        invariant start <= end <= |line| && end == FindSeparator(line, start)
        invariant done + Tokens(line, start) == Tokens(line, 0)
        invariant Gathered(newList, longestWord, byteLetters) == Gather(before, done)
      {
        newList := AddWord(line[start..end], newList);
        GatherMore(before, done, [line[start..end]]);
        NextToken(line, start, done);
        done := done + [line[start..end]];
        start := end + 1;
        end := FindSeparator(line, start);
      }
      if start <= |line| {
        newList := AddWord(line[start..], newList);
        GatherMore(before, done, [line[start..]]);
        LastToken(line, start);
      }
    }

    /** Replaces the words by those of a text; without a file nothing changes. */
    method LoadDictionaryFile(file: Option<Data>)
      requires Valid()
      modifies this
      ensures Valid()
      ensures file.None? ==> unchanged(this)
      ensures file.Some? ==>
                var tokens := AllTokens(Lines(file.value, 0));
                && bloomFilter != null && fresh(bloomFilter) && loaded == Kept(tokens)
                && longestWord == Longest(tokens, old(longestWord))
                && byteLetters == old(byteLetters) + Letters(tokens) + UpperLetters(tokens)
    {
      hide Kept, Longest, Letters, UpperLetters, AllTokens, Lines, StateOf, Adding;
      if file.None? {
        return;
      }
      var wordList := ReadLines(file.value);
      KeptLengths(AllTokens(Lines(file.value, 0)), longestWord, wordList);
      bloomFilter := BloomFilter.FromWords(wordList, false, DEFAULT_BITS_PER_ELEMENT, hashing);
      loaded := wordList;
    }

    /** The line at `position` without its carriage return, and where the next one starts. */
    static method GetLine(content: Data, position: nat) returns (line: Data, next: nat)
      requires position < |content|
      ensures var e := LineEnd(content, position);
              line == WithoutReturn(content[position..e]) && next == (if e < |content| then e + 1 else e)
      ensures position < next <= |content|
    {
      var end := LineEnd(content, position);
      line := content[position..end];
      if line != [] && line[|line| - 1] == RETURN {
        line := line[..|line| - 1];
      }
      next := if end < |content| then end + 1 else end;
    }

    method ReadLines(content: Data) returns (wordList: seq<Word>)
      modifies `longestWord, `byteLetters
      ensures Gathered(wordList, longestWord, byteLetters)
              == Gather(Gathered([], old(longestWord), old(byteLetters)), AllTokens(Lines(content, 0)))
    {
      hide Gather, Tokens, Lines, AllTokens, LineEnd, WithoutReturn;
      ghost var before := Gathered([], longestWord, byteLetters);
      wordList := [];
      var position: nat := 0;
      ghost var done: seq<Data> := [];
      GatherNone(before);
      NoLines();
      while position < |content|
        invariant position <= |content| && done + Lines(content, position) == Lines(content, 0)
        invariant Gathered(wordList, longestWord, byteLetters) == Gather(before, AllTokens(done))
      {
        var line, next := GetLine(content, position);
        wordList := AddLine(line, wordList);
        GatherMore(before, AllTokens(done), Tokens(line, 0));
        NextLine(content, position, done);
        done := done + [line];
        position := next;
      }
      LastLine(content);
      assert done + [] == done;
    }

    method HasWord(word: Word) returns (has: bool)
      requires Valid()
      ensures has <==> bloomFilter != null && 3 <= |word| <= longestWord
                       && Has(bloomFilter.shape, bloomFilter.View(), Lower(word))
    {
      var lowerWord := Lower(word);
      if |lowerWord| > longestWord || |lowerWord| < MIN_WORD_LENGTH {
        return false;
      }
      if bloomFilter != null {
        has := bloomFilter.HasWord(lowerWord);
        return;
      }
      has := false;
    }

    /** A word that was loaded is found in any letter case. */
    lemma {:induction false} LoadedIsFound(word: Word)
      requires Valid() && bloomFilter != null && Lower(word) in loaded
      ensures 3 <= |word| <= longestWord && Has(bloomFilter.shape, bloomFilter.View(), Lower(word))
    {
      hide StateOf, Contents, Has, Adding;
      var shape := bloomFilter.shape;
      AddingContents(shape, loaded);
      LowerTwice(word);
      FoundIff(shape, Adding(loaded), Lower(word));
    }

    method IsLetter(b: byte) returns (letter: bool)
      ensures letter <==> b in byteLetters
    {
      letter := b in byteLetters;
    }
  }

  lemma {:induction false} KeptLengths(tokens: seq<Word>, longest: nat, kept: seq<Word>)
    requires kept == Kept(tokens) && forall t | t in tokens && |t| >= MIN_WORD_LENGTH :: |t| <= longest
    ensures forall w | w in kept :: MIN_WORD_LENGTH <= |w| <= longest
  {
    hide Kept, Longest;
    forall w | w in kept
      ensures MIN_WORD_LENGTH <= |w| <= longest
    {
      KeptIff(tokens, w);
    }
  }

  lemma {:induction false} NextToken(line: Data, start: nat, done: seq<Word>)
    requires start <= |line| && FindSeparator(line, start) < |line|
    ensures var e := FindSeparator(line, start);
            done + Tokens(line, start) == (done + [line[start..e]]) + Tokens(line, e + 1)
  {
    hide FindSeparator, Separator;
    var e := FindSeparator(line, start);
    var rest := Tokens(line, e + 1);
    assert Tokens(line, start) == [line[start..e]] + rest;
    hide Tokens;
    assert done + ([line[start..e]] + rest) == (done + [line[start..e]]) + rest;
  }

  lemma {:induction false} LastToken(line: Data, start: nat)
    requires start <= |line| && FindSeparator(line, start) == |line|
    ensures Tokens(line, start) == [line[start..]]
  {
    assert line[start..|line|] == line[start..];
  }

  lemma {:induction false} NoLines()
    ensures AllTokens([]) == []
  {}

  lemma {:induction false} LastLine(content: Data)
    ensures Lines(content, |content|) == []
  {}

  lemma {:induction false} LinesFrom(content: Data, position: nat, line: Data, e: nat)
    requires position < |content| && e == LineEnd(content, position) && line == WithoutReturn(content[position..e])
    ensures Lines(content, position) == [line] + Lines(content, if e < |content| then e + 1 else e)
  {
    hide LineEnd, WithoutReturn;
  }

  lemma {:induction false} TokensOfLine(done: seq<Data>, line: Data)
    ensures AllTokens(done + [line]) == AllTokens(done) + Tokens(line, 0)
  {
    hide Tokens;
    var next := done + [line];
    assert next[..|done|] == done;
  }

  lemma {:induction false} NextLine(content: Data, position: nat, done: seq<Data>)
    requires position < |content|
    ensures var e := LineEnd(content, position);
            var line := WithoutReturn(content[position..e]);
            && AllTokens(done + [line]) == AllTokens(done) + Tokens(line, 0)
            && done + Lines(content, position)
               == (done + [line]) + Lines(content, if e < |content| then e + 1 else e)
  {
    hide Tokens, LineEnd, WithoutReturn, Lines, AllTokens;
    var e := LineEnd(content, position);
    var line := WithoutReturn(content[position..e]);
    TokensOfLine(done, line);
    LinesFrom(content, position, line, e);
  }

  lemma {:induction false} KeptConcat(a: seq<Word>, b: seq<Word>)
    ensures Kept(a + b) == Kept(a) + Kept(b)
    decreases |b|
  {
    hide Lower;
    if b == [] {
      assert a + b == a;
    } else {
      KeptConcat(a, b[..|b| - 1]);
      assert (a + b)[..|a + b| - 1] == a + b[..|b| - 1];
    }
  }

  lemma {:induction false} LongestConcat(a: seq<Word>, b: seq<Word>, than: nat)
    ensures Longest(a + b, than) == Longest(b, Longest(a, than))
    decreases |b|
  {
    if b == [] {
      assert a + b == a;
    } else {
      LongestConcat(a, b[..|b| - 1], than);
      assert (a + b)[..|a + b| - 1] == a + b[..|b| - 1];
    }
  }

  lemma {:induction false} LettersConcat(a: seq<Word>, b: seq<Word>)
    ensures Letters(a + b) == Letters(a) + Letters(b)
    ensures UpperLetters(a + b) == UpperLetters(a) + UpperLetters(b)
  {}

  lemma {:induction false} GatherNone(g: Gathered)
    ensures Gather(g, []) == g
  {
    assert g.letters + {} == g.letters;
  }

  lemma {:induction false} GatherOne(g: Gathered, word: Word)
    ensures Gather(g, [word])
            == if |word| >= MIN_WORD_LENGTH then
                 Gathered(g.words + [Lower(word)], if |word| > g.longest then |word| else g.longest,
                          g.letters + (set i | 0 <= i < |word| :: word[i])
                          + (set i | 0 <= i < |word| :: UpperByte(word[i])))
               else g
  {
    hide Lower;
    var one := [word];
    assert one[..|one| - 1] == [] && word in one;
    assert Kept(one) == if |word| >= MIN_WORD_LENGTH then [Lower(word)] else [];
    assert Longest(one, g.longest) == if |word| >= MIN_WORD_LENGTH && |word| > g.longest then |word| else g.longest;
    if |word| < MIN_WORD_LENGTH {
      assert Letters([word]) == {} && UpperLetters([word]) == {};
      assert g.letters + {} + {} == g.letters && g.words + [] == g.words;
    } else {
      assert Letters([word]) == set i | 0 <= i < |word| :: word[i];
      assert UpperLetters([word]) == set i | 0 <= i < |word| :: UpperByte(word[i]);
    }
  }

  lemma {:induction false} GatherMore(g: Gathered, a: seq<Word>, b: seq<Word>)
    ensures Gather(g, a + b) == Gather(Gather(g, a), b)
  {
    hide Kept, Longest, Letters, UpperLetters;
    KeptConcat(a, b);
    LongestConcat(a, b, g.longest);
    LettersConcat(a, b);
  }

  /** Every token of at least three bytes of any line of the file is among the loaded words. */
  lemma {:induction false} TokensAreKept(content: Data, k: nat, i: nat, j: nat)
    requires k < |Lines(content, 0)| && TokenAt(Lines(content, 0)[k], i, j) && j - i >= 3
    ensures Lower(Lines(content, 0)[k][i..j]) in Kept(AllTokens(Lines(content, 0)))
  {
    hide Tokens, Lines, TokenAt, Lower;
    var line := Lines(content, 0)[k];
    TokenInLine(line, i, j);
    AllTokensListed(Lines(content, 0), k, line[i..j]);
    KeptIff(AllTokens(Lines(content, 0)), Lower(line[i..j]));
  }

  /**
   After a text has been loaded, every token of at least three bytes between separators of any of its
   lines is found, however it is spelled.
   */
  lemma {:induction false} TokensAreFound(shape: Shape, content: Data, k: nat, i: nat, j: nat, word: Word, than: nat)
    requires !shape.caseSensitive
    requires k < |Lines(content, 0)| && TokenAt(Lines(content, 0)[k], i, j) && j - i >= 3
    requires Lower(word) == Lower(Lines(content, 0)[k][i..j])
    ensures var tokens := AllTokens(Lines(content, 0));
            && 3 <= |word| <= Longest(tokens, than)
            && Has(shape, StateOf(shape, Adding(Kept(tokens))), Lower(word))
  {
    hide Lines, TokenAt, Kept, AllTokens, Has, StateOf, Contents, Adding, Tokens, Longest;
    TokenInLine(Lines(content, 0)[k], i, j);
    var tokens, token := AllTokens(Lines(content, 0)), Lines(content, 0)[k][i..j];
    AllTokensListed(Lines(content, 0), k, token);
    TokensAreKept(content, k, i, j);
    assert |Lower(word)| == |word| && |Lower(token)| == |token|;
    assert |token| <= Longest(tokens, than);
    AddingContents(shape, Kept(tokens));
    LowerTwice(word);
    FoundIff(shape, Adding(Kept(tokens)), Lower(word));
  }

  lemma {:induction false} TokenInLine(line: Data, i: nat, j: nat)
    requires TokenAt(line, i, j)
    ensures i <= j <= |line| && line[i..j] in Tokens(line, 0)
  {
    TokenListed(line, 0, i, j);
  }

  /** The letters after loading, with those that stay from earlier files. */
  function LettersWith(earlier: set<byte>, tokens: seq<Word>): set<byte> {
    earlier + Letters(tokens) + UpperLetters(tokens)
  }

  /** Every byte of every spelling of every kept token counts as a letter. */
  ghost predicate SpellingsAreLetters(earlier: set<byte>, tokens: seq<Word>) {
    forall t, w: Word, i | t in tokens && |t| >= MIN_WORD_LENGTH && Lower(w) == Lower(t) && 0 <= i < |w| ::
      w[i] in LettersWith(earlier, tokens)
  }

  ghost predicate LowerOccurs(earlier: set<byte>, tokens: seq<Word>, b: byte) {
    LowerByte(b) in earlier + Letters(tokens)
  }

  /**
   All spellings that are found consist of letters exactly when each letter of the text also occurs in
   lower case, there or in an earlier file: upper-case forms are added to the letters, lower-case ones
   are not.
   */
  lemma {:induction false} SpellingsIff(earlier: set<byte>, tokens: seq<Word>)
    ensures SpellingsAreLetters(earlier, tokens) <==> forall b | b in Letters(tokens) :: LowerOccurs(earlier, tokens, b)
  {
    if SpellingsAreLetters(earlier, tokens) {
      forall b | b in Letters(tokens)
        ensures LowerOccurs(earlier, tokens, b)
      {
        var t, i :| t in tokens && |t| >= MIN_WORD_LENGTH && 0 <= i < |t| && t[i] == b;
        LowerTwice(t);
        assert Lower(t)[i] in LettersWith(earlier, tokens);
      }
    }
    if forall b | b in Letters(tokens) :: LowerOccurs(earlier, tokens, b) {
      forall t, w: Word, i | t in tokens && |t| >= MIN_WORD_LENGTH && Lower(w) == Lower(t) && 0 <= i < |w|
        ensures w[i] in LettersWith(earlier, tokens)
      {
        assert Lower(w)[i] == Lower(t)[i] && |w| == |t|;
        assert t[i] in Letters(tokens) && UpperByte(t[i]) in UpperLetters(tokens);
        assert LowerOccurs(earlier, tokens, t[i]);
      }
    }
  }

  lemma {:induction false} AbcTokens()
    ensures var content: Data := [65, 66, 67];
            Lines(content, 0) == [content] && AllTokens([content]) == [content] && TokenAt(content, 0, 3)
  {
    hide AllTokens;
    var content: Data := [65, 66, 67];
    assert LineEnd(content, 0) == LineEnd(content, 1) == LineEnd(content, 2) == LineEnd(content, 3) == 3;
    assert content[0..3] == content;
    assert FindSeparator(content, 0) == FindSeparator(content, 1) == FindSeparator(content, 2) == 3;
    NoLines();
    TokensOfLine([], content);
    assert [] + [content] == [content];
  }

  lemma {:induction false} AbcLetters()
    ensures var content: Word := [65, 66, 67]; LettersWith({}, [content]) == {65, 66, 67}
  {
    var content: Word := [65, 66, 67];
    GatherOne(Gathered([], 0, {}), content);
    assert (set i | 0 <= i < |content| :: content[i]) == {content[0], content[1], content[2]};
    assert (set i | 0 <= i < |content| :: UpperByte(content[i])) == {65, 66, 67} by {
      assert forall i | 0 <= i < |content| :: UpperByte(content[i]) == content[i];
    }
  }

  /** In a file with the one word ABC, abc is found, and none of its bytes is a letter. */
  lemma {:induction false} CapitalsExample(shape: Shape)
    requires !shape.caseSensitive
    ensures var content, abc: Word := [65, 66, 67], [97, 98, 99];
            var tokens := AllTokens(Lines(content, 0));
            && Has(shape, StateOf(shape, Adding(Kept(tokens))), Lower(abc))
            && forall b | b in abc :: b !in LettersWith({}, tokens)
  {
    hide Lines, AllTokens, TokenAt, LettersWith, Has, StateOf, Kept, Adding;
    var content, abc: Word := [65, 66, 67], [97, 98, 99];
    AbcTokens();
    AbcLetters();
    assert content[0..3] == content && Lower(content) == Lower(abc);
    TokensAreFound(shape, content, 0, 0, 3, abc, 0);
  }
}
