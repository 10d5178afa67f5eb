/** The frequency counter of the tag-cloud generator: it drains the queue of words into a
    map from word to number of occurrences, and leaves in the queue each distinct word
    once, in the order of its first occurrence. */
module Counting {
  import opened Tokenizer

  /** A mutable map from word to count: the generator's `Map<String, Integer>`. */
  class CountMap {
    var counts: map<string, int>

    constructor ()
      ensures counts == map[]
    {
      counts := map[];
    }
  }

  /** `m` after one more occurrence of `word`: its count goes up by one, or it is
      inserted with count 1. */
  function Bump(m: map<string, int>, word: string): (r: map<string, int>)
    ensures word in r && r[word] == (if word in m then m[word] else 0) + 1
    ensures r - {word} == m - {word}
  {
    if word in m then m[word := m[word] + 1] else m[word := 1]
  }

  /** `m` after counting every word of `words`, left to right. */
  function Tally(m: map<string, int>, words: seq<string>): map<string, int>
    decreases |words|
  {
    if words == [] then m
    else Bump(Tally(m, words[..|words| - 1]), words[|words| - 1])
  }

  /** The words of `words` that were not yet keys when they were met, in that order:
      what the counter puts back in the queue. */
  function Requeued(m: map<string, int>, words: seq<string>): seq<string>
    decreases |words|
  {
    if words == [] then []
    else
      var init := words[..|words| - 1];
      var last := words[|words| - 1];
      Requeued(m, init) + (if last in Tally(m, init) then [] else [last])
  }

  /** The frequency map of `words`, counted from an empty map. */
  function Counts(words: seq<string>): map<string, int> {
    Tally(map[], words)
  }

  /** The sum of all the counts of `m`. */
  ghost function SumCounts(m: map<string, int>): int
    decreases |m.Keys|
  {
    if m == map[] then 0
    else
      var k :| k in m;
      m[k] + SumCounts(m - {k})
  }

  /** Drains the `|q|` words initially in `q` into `wordMap`; each word that was not yet a
      key is inserted with count 1 and put back at the end of `q`, each other word has its
      count incremented. */
  method CreateMap(wordMap: CountMap, q: WordQueue)
    modifies wordMap, q
    ensures wordMap.counts == Tally(old(wordMap.counts), old(q.items))
    ensures q.items == Requeued(old(wordMap.counts), old(q.items))
  {
    ghost var words := q.items;
    ghost var m0 := wordMap.counts;
    var length := |q.items|;
    var count := 1;
    ghost var p := 0;

    while length > 0
      invariant 0 <= p <= |words| && length == |words| - p
      invariant wordMap.counts == Tally(m0, words[..p])
      invariant q.items == words[p..] + Requeued(m0, words[..p])
    {
      ghost var queued := Requeued(m0, words[..p]);
      CountStep(m0, words, p);
      Dequeue(words, p, queued);
      var word := q.items[0];
      q.items := q.items[1..];
      if word in wordMap.counts {
        count := wordMap.counts[word];
        count := count + 1;
        wordMap.counts := wordMap.counts[word := count];
      } else {
        count := 1;
        wordMap.counts := wordMap.counts[word := count];
        q.items := q.items + [word];
        assert q.items == words[p + 1..] + (queued + [word]);
      }
      length := length - 1;
      p := p + 1;
    }
    assert words[..|words|] == words;
  }

  /** Taking the front of a queue that holds the rest of `words` from `p` on, then `queued`. */
  lemma Dequeue(words: seq<string>, p: int, queued: seq<string>)
    requires 0 <= p < |words|
    ensures (words[p..] + queued)[0] == words[p]
    ensures (words[p..] + queued)[1..] == words[p + 1..] + queued
  {
    assert words[p..][1..] == words[p + 1..];
  }

  /** Counting one more word of `words`: the map gets one more occurrence of it, and it is
      requeued iff it was not yet a key. */
  lemma CountStep(m: map<string, int>, words: seq<string>, p: int)
    requires 0 <= p < |words|
    ensures var t := Tally(m, words[..p]);
            Tally(m, words[..p + 1]) ==
              if words[p] in t then t[words[p] := t[words[p]] + 1] else t[words[p] := 1]
    ensures Requeued(m, words[..p + 1]) ==
              Requeued(m, words[..p]) + (if words[p] in Tally(m, words[..p]) then [] else [words[p]])
  {
    assert words[..p + 1][..p] == words[..p];
  }

  /** A word is a key after counting iff it was a key before or occurs in `words`; its count
      is its old count (0 if absent) plus its number of occurrences in `words`. */
  lemma {:induction false} TallyCount(m: map<string, int>, words: seq<string>, k: string)
    ensures k in Tally(m, words) <==> k in m || k in words
    ensures k in Tally(m, words) ==>
              Tally(m, words)[k] == (if k in m then m[k] else 0) + multiset(words)[k]
    decreases |words|
  {
    if words != [] {
      var init := words[..|words| - 1];
      var last := words[|words| - 1];
      TallyCount(m, init, k);
      assert words == init + [last];
      assert multiset(words) == multiset(init) + multiset{last};
    }
  }

  lemma {:induction false} SumCountsRemove(m: map<string, int>, x: string)
    requires x in m
    ensures SumCounts(m) == m[x] + SumCounts(m - {x})
    decreases |m.Keys|
  {
    var k :| k in m && SumCounts(m) == m[k] + SumCounts(m - {k});
    if k != x {
      SumCountsRemove(m - {k}, x);
      SumCountsRemove(m - {x}, k);
      assert m - {k} - {x} == m - {x} - {k};
    }
  }

  /** One more occurrence adds exactly one to the sum of the counts. */
  lemma SumCountsBump(m: map<string, int>, word: string)
    ensures SumCounts(Bump(m, word)) == SumCounts(m) + 1
  {
    var m' := Bump(m, word);
    SumCountsRemove(m', word);
    if word in m {
      SumCountsRemove(m, word);
      assert m' - {word} == m - {word};
    } else {
      assert m' - {word} == m;
    }
  }

  /** Counting `words` adds `|words|` to the sum of the counts. */
  lemma {:induction false} TallySum(m: map<string, int>, words: seq<string>)
    ensures SumCounts(Tally(m, words)) == SumCounts(m) + |words|
    decreases |words|
  {
    if words != [] {
      var init := words[..|words| - 1];
      TallySum(m, init);
      SumCountsBump(Tally(m, init), words[|words| - 1]);
    }
  }

  /** The requeued words are exactly the words of `words` that were not keys of `m`. */
  lemma {:induction false} RequeuedElements(m: map<string, int>, words: seq<string>, x: string)
    ensures x in Requeued(m, words) <==> x in words && x !in m
    decreases |words|
  {
    if words != [] {
      var init := words[..|words| - 1];
      var last := words[|words| - 1];
      RequeuedElements(m, init, x);
      TallyCount(m, init, last);
      assert words == init + [last];
    }
  }

  /** No word is requeued twice. */
  lemma {:induction false} RequeuedDistinct(m: map<string, int>, words: seq<string>)
    ensures forall a, b :: 0 <= a < b < |Requeued(m, words)| ==> Requeued(m, words)[a] != Requeued(m, words)[b]
    decreases |words|
  {
    if words != [] {
      var init := words[..|words| - 1];
      var last := words[|words| - 1];
      RequeuedDistinct(m, init);
      TallyCount(m, init, last);
      RequeuedElements(m, init, last);
    }
  }

  /** Every occurrence of `y` in `w` comes after some occurrence of `x`. */
  ghost predicate OccursBefore(w: seq<string>, x: string, y: string) {
    forall j :: 0 <= j < |w| && w[j] == y ==> exists i :: 0 <= i < j && w[i] == x
  }

  /** The requeued words are in the order of their first occurrences in `words`. */
  lemma {:induction false} RequeuedInFirstOccurrenceOrder(m: map<string, int>, words: seq<string>)
    ensures forall a, b :: 0 <= a < b < |Requeued(m, words)| ==>
              OccursBefore(words, Requeued(m, words)[a], Requeued(m, words)[b])
    decreases |words|
  {
    if words != [] {
      var init := words[..|words| - 1];
      RequeuedInFirstOccurrenceOrder(m, init);
      assert words == init + [words[|words| - 1]];
      forall a, b | 0 <= a < b < |Requeued(m, words)|
        ensures OccursBefore(words, Requeued(m, words)[a], Requeued(m, words)[b])
      {
        RequeuedPairInOrder(m, init, words[|words| - 1], a, b);
      }
    }
  }

  /** The induction step of `RequeuedInFirstOccurrenceOrder` for one pair of requeued words. */
  lemma RequeuedPairInOrder(m: map<string, int>, init: seq<string>, last: string, a: int, b: int)
    requires forall a, b :: 0 <= a < b < |Requeued(m, init)| ==>
               OccursBefore(init, Requeued(m, init)[a], Requeued(m, init)[b])
    requires 0 <= a < b < |Requeued(m, init + [last])|
    ensures OccursBefore(init + [last], Requeued(m, init + [last])[a], Requeued(m, init + [last])[b])
  {
    var words := init + [last];
    assert words[..|words| - 1] == init;
    var r := Requeued(m, words);
    var r0 := Requeued(m, init);
    TallyCount(m, init, last);
    RequeuedElements(m, init, r[a]);
    if b < |r0| {
      RequeuedElements(m, init, r[b]);
      assert r[a] == r0[a] && r[b] == r0[b];
      OccursBeforeExtended(init, last, r[a], r[b]);
    } else {
      OccursBeforeNewWord(init, last, r[a]);
    }
  }

  /** Appending a word keeps `x` before `y` when `y` already occurred. */
  lemma OccursBeforeExtended(init: seq<string>, last: string, x: string, y: string)
    requires OccursBefore(init, x, y) && y in init
    ensures OccursBefore(init + [last], x, y)
  {
    var w := init + [last];
    forall j | 0 <= j < |w| && w[j] == y
      ensures exists i :: 0 <= i < j && w[i] == x
    {
      var j' := j;
      if j == |init| {
        j' :| 0 <= j' < |init| && init[j'] == y;
      }
      assert init[j'] == y;
      var i :| 0 <= i < j' && init[i] == x;
      assert w[i] == x;
    }
  }

  /** A word met for the first time at the end comes after every earlier word. */
  lemma OccursBeforeNewWord(init: seq<string>, last: string, x: string)
    requires x in init && last !in init
    ensures OccursBefore(init + [last], x, last)
  {
    var w := init + [last];
    var i :| 0 <= i < |init| && init[i] == x;
    assert w[i] == x;
    assert forall j :: 0 <= j < |init| ==> w[j] == init[j];
  }

  /** Counting from an empty map: the keys are exactly the words, each count is the word's
      number of occurrences, the counts add up to the number of words, and the queue holds
      every distinct word once, in first-occurrence order. */
  lemma CountsSpec(words: seq<string>)
    ensures forall k :: k in Counts(words) <==> k in words
    ensures forall k :: k in Counts(words) ==> Counts(words)[k] == multiset(words)[k]
    ensures SumCounts(Counts(words)) == |words|
    ensures forall k :: k in Requeued(map[], words) <==> k in Counts(words)
    ensures forall a, b :: 0 <= a < b < |Requeued(map[], words)| ==>
              Requeued(map[], words)[a] != Requeued(map[], words)[b]
              && OccursBefore(words, Requeued(map[], words)[a], Requeued(map[], words)[b])
  {
    forall k ensures (k in Counts(words) <==> k in words)
      && (k in Counts(words) ==> Counts(words)[k] == multiset(words)[k])
      && (k in Requeued(map[], words) <==> k in Counts(words))
    {
      TallyCount(map[], words, k);
      RequeuedElements(map[], words, k);
    }
    TallySum(map[], words);
    RequeuedDistinct(map[], words);
    RequeuedInFirstOccurrenceOrder(map[], words);
  }

  /** A word occurs at most as many times as there are words. */
  lemma {:induction false} OccurrencesAtMost(words: seq<string>, k: string)
    ensures multiset(words)[k] <= |words|
    decreases |words|
  {
    if words != [] {
      OccurrencesAtMost(words[1..], k);
      assert words == [words[0]] + words[1..];
      assert multiset(words) == multiset{words[0]} + multiset(words[1..]);
    }
  }
}
