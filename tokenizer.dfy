/** The separator set and the tokenizer of the tag-cloud generator: a line of text is cut
    into maximal runs of separator characters and of non-separator characters, and the
    runs that are words (their first character is not a separator) are queued. */
module Tokenizer {

  /** The characters the generator treats as word boundaries. */
  const SeparatorStr: string := " \t\n\r,-.!?[]';:/()"

  /** The set of characters occurring in `s`. */
  function Entries(s: string): set<char> {
    set i | 0 <= i < |s| :: s[i]
  }

  /** A mutable set of characters: the generator's `Set<Character>`. */
  class CharSet {
    var elems: set<char>

    constructor ()
      ensures elems == {}
    {
      elems := {};
    }
  }

  /** A mutable first-in first-out queue of words: the generator's `Queue<String>`. */
  class WordQueue {
    var items: seq<string>

    constructor ()
      ensures items == []
    {
      items := [];
    }
  }

  /** Adds every character of `str` to `charSet`; nothing is removed. */
  method GenerateElements(str: string, charSet: CharSet)
    modifies charSet
    ensures charSet.elems == old(charSet.elems) + Entries(str)
  {
    var length := |str|;
    for i := 0 to length
      invariant charSet.elems == old(charSet.elems) + Entries(str[..i])
    {
      var s := str[i];
      charSet.elems := charSet.elems + {s};
      assert Entries(str[..i + 1]) == Entries(str[..i]) + {s} by {
        assert forall j :: 0 <= j < i ==> str[..i + 1][j] == str[..i][j];
      }
    }
    assert str[..length] == str;
  }

  /** `k` is the length of the maximal run at the start of `s` whose characters all share
      the separator membership of `s[0]`: either the run reaches the end of `s`, or the
      character after it has the opposite membership. */
  predicate IsMaximalRun(s: string, k: int, separators: set<char>) {
    && 0 < k <= |s|
    && (forall j :: 0 <= j < k ==> (s[j] in separators <==> s[0] in separators))
    && (k == |s| || (s[k] in separators <==> s[0] !in separators))
  }

  /** The length of the maximal homogeneous run at the start of a non-empty `s`. */
  function RunLength(s: string, separators: set<char>): (k: nat)
    requires s != []
    ensures 0 < k <= |s|
    decreases |s|
  {
    if |s| == 1 || (s[1] in separators) != (s[0] in separators) then 1
    else 1 + RunLength(s[1..], separators)
  }

  lemma {:induction false} RunLengthIsMaximalRun(s: string, separators: set<char>)
    requires s != []
    ensures IsMaximalRun(s, RunLength(s, separators), separators)
    decreases |s|
  {
    if |s| == 1 || (s[1] in separators) != (s[0] in separators) {
    } else {
      var t := s[1..];
      RunLengthIsMaximalRun(t, separators);
      var k := RunLength(s, separators);
      assert k == 1 + RunLength(t, separators);
      forall j | 0 <= j < k
        ensures s[j] in separators <==> s[0] in separators
      {
        if j > 0 {
          assert s[j] == t[j - 1];
        }
      }
      if k < |s| {
        assert s[k] == t[k - 1];
      }
    }
  }

  /** A maximal run is determined by its start: `RunLength` is the only length that is one. */
  lemma MaximalRunUnique(s: string, k: int, separators: set<char>)
    requires IsMaximalRun(s, k, separators)
    ensures k == RunLength(s, separators)
  {
    RunLengthIsMaximalRun(s, separators);
  }

  /** The first word or separator string of `text` at `position`: the maximal run starting
      there whose characters all have the separator membership of `text[position]`. */
  method NextWordOrSeparator(text: string, position: int, separators: CharSet) returns (token: string)
    requires 0 <= position < |text|
    ensures 0 < |token| && position + |token| <= |text|
    ensures token == text[position..position + |token|]
    ensures forall j :: 0 <= j < |token| ==>
              (token[j] in separators.elems <==> text[position] in separators.elems)
    ensures position + |token| == |text|
         || (text[position + |token|] in separators.elems <==> text[position] !in separators.elems)
  {
    var character := text[position] in separators.elems;
    var i := position;
    while i < |text| && character == (text[i] in separators.elems)
      invariant position <= i <= |text|
      invariant forall j :: position <= j < i ==> (text[j] in separators.elems) == character
    {
      i := i + 1;
    }
    token := text[position..i];
  }

  /** The tokens of `s`: its maximal homogeneous runs, left to right. */
  function Tokens(s: string, separators: set<char>): seq<string>
    decreases |s|
  {
    if s == [] then []
    else
      var k := RunLength(s, separators);
      [s[..k]] + Tokens(s[k..], separators)
  }

  /** A token is a word when its first character is not a separator. */
  predicate IsWord(token: string, separators: set<char>) {
    token != [] && token[0] !in separators
  }

  /** The words among `tokens`, in order. */
  function WordsOf(tokens: seq<string>, separators: set<char>): seq<string> {
    if tokens == [] then []
    else (if IsWord(tokens[0], separators) then [tokens[0]] else []) + WordsOf(tokens[1..], separators)
  }

  /** The words of one line. */
  function Words(s: string, separators: set<char>): seq<string> {
    WordsOf(Tokens(s, separators), separators)
  }

  /** The words of a sequence of lines, line after line. */
  function LinesWords(lines: seq<string>, separators: set<char>): seq<string>
    decreases |lines|
  {
    if lines == [] then []
    else LinesWords(lines[..|lines| - 1], separators) + Words(lines[|lines| - 1], separators)
  }

  function Concat(parts: seq<string>): string {
    if parts == [] then [] else parts[0] + Concat(parts[1..])
  }

  /** The tokens of `s` put back together give `s`: no gap, no overlap. */
  lemma {:induction false} TokensConcat(s: string, separators: set<char>)
    ensures Concat(Tokens(s, separators)) == s
    decreases |s|
  {
    if s != [] {
      var k := RunLength(s, separators);
      TokensConcat(s[k..], separators);
      assert Tokens(s, separators)[1..] == Tokens(s[k..], separators);
      assert s[..k] + s[k..] == s;
    }
  }

  /** Every token is non-empty, all of its characters share one separator membership, and
      consecutive tokens have opposite memberships (so each token is maximal). */
  lemma {:induction false} TokensAreMaximalRuns(s: string, separators: set<char>)
    ensures forall i :: 0 <= i < |Tokens(s, separators)| ==>
              var t := Tokens(s, separators)[i];
              t != [] && forall j :: 0 <= j < |t| ==> (t[j] in separators <==> t[0] in separators)
    ensures forall i :: 0 <= i < |Tokens(s, separators)| - 1 ==>
              (Tokens(s, separators)[i][0] in separators <==> Tokens(s, separators)[i + 1][0] !in separators)
    decreases |s|
  {
    if s != [] {
      var k := RunLength(s, separators);
      var rest := s[k..];
      RunLengthIsMaximalRun(s, separators);
      TokensAreMaximalRuns(rest, separators);
      var ts := Tokens(s, separators);
      assert ts == [s[..k]] + Tokens(rest, separators);
      if rest != [] {
        var k' := RunLength(rest, separators);
        assert Tokens(rest, separators)[0] == rest[..k'];
        assert rest[0] == s[k];
      }
      forall i | 0 <= i < |ts|
        ensures ts[i] != [] && forall j :: 0 <= j < |ts[i]| ==> (ts[i][j] in separators <==> ts[i][0] in separators)
      {
        if i > 0 {
          assert ts[i] == Tokens(rest, separators)[i - 1];
        }
      }
      forall i | 0 <= i < |ts| - 1
        ensures ts[i][0] in separators <==> ts[i + 1][0] !in separators
      {
        if i > 0 {
          assert ts[i] == Tokens(rest, separators)[i - 1];
          assert ts[i + 1] == Tokens(rest, separators)[i];
        }
      }
    }
  }

  /** The words of a line are non-empty and hold no separator character at all. */
  lemma {:induction false} WordsHaveNoSeparators(s: string, separators: set<char>)
    ensures forall i :: 0 <= i < |Words(s, separators)| ==>
              var w := Words(s, separators)[i];
              w != [] && forall j :: 0 <= j < |w| ==> w[j] !in separators
  {
    TokensAreMaximalRuns(s, separators);
    WordsOfAreTokens(Tokens(s, separators), separators);
  }

  lemma {:induction false} WordsOfAreTokens(tokens: seq<string>, separators: set<char>)
    ensures forall i :: 0 <= i < |WordsOf(tokens, separators)| ==>
              WordsOf(tokens, separators)[i] in tokens && IsWord(WordsOf(tokens, separators)[i], separators)
  {
    if tokens != [] {
      WordsOfAreTokens(tokens[1..], separators);
    }
  }

  /** The token at `i` is the maximal run starting there, so the words of `s[i..]` are that
      token, if it is a word, followed by the words after it. */
  lemma WordsAfterToken(s: string, i: int, token: string, separators: set<char>)
    requires 0 <= i && 0 < |token| && i + |token| <= |s| && token == s[i..i + |token|]
    requires forall j :: 0 <= j < |token| ==> (token[j] in separators <==> s[i] in separators)
    requires i + |token| == |s| || (s[i + |token|] in separators <==> s[i] !in separators)
    ensures Words(s[i..], separators) ==
              (if IsWord(token, separators) then [token] else []) + Words(s[i + |token|..], separators)
  {
    var rest := s[i..];
    assert IsMaximalRun(rest, |token|, separators);
    MaximalRunUnique(rest, |token|, separators);
    assert rest[..|token|] == token;
    assert rest[|token|..] == s[i + |token|..];
    assert Tokens(rest, separators) == [token] + Tokens(s[i + |token|..], separators);
  }

  /** The inner loop of reading a file: walks one line token by token, advancing by each
      token's length, and appends the tokens that are words to `q`. */
  method QueueLineWords(separator: CharSet, q: WordQueue, s: string)
    modifies q
    ensures q.items == old(q.items) + Words(s, separator.elems)
  {
    ghost var separators := separator.elems;
    var i := 0;
    while i < |s|
      invariant 0 <= i <= |s|
      invariant q.items + Words(s[i..], separators) == old(q.items) + Words(s, separators)
    {
      var word := NextWordOrSeparator(s, i, separator);
      WordsAfterToken(s, i, word, separators);
      if word[0] !in separator.elems {
        q.items := q.items + [word];
      }
      i := i + |word|;
    }
    assert s[i..] == [];
  }

  /** Reads the lines of `input` and appends the words of each line to `q`, in order. */
  method ReadFileAndCreateQueue(separator: CharSet, q: WordQueue, input: seq<string>)
    modifies q
    ensures q.items == old(q.items) + LinesWords(input, separator.elems)
  {
    var line := 0;
    while line < |input|
      invariant 0 <= line <= |input|
      invariant q.items == old(q.items) + LinesWords(input[..line], separator.elems)
    {
      var s := input[line];
      QueueLineWords(separator, q, s);
      assert input[..line + 1][..line] == input[..line];
      line := line + 1;
    }
    assert input[..line] == input;
  }
}
