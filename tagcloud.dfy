/** The tag-cloud pipeline: separator set, tokenizing, counting, ranking, scaling and
    rendering, in the order the generator's entry point runs them, once the input file has
    been read into lines and the number of words to show has been read. */
module TagCloud {
  import opened Tokenizer
  import opened Counting
  import opened Ranking
  import opened Cloud

  /** The separator set the generator builds from its separator string. */
  function Separators(): set<char> {
    Entries(SeparatorStr)
  }

  /** All the words of the input, line after line. */
  function InputWords(lines: seq<string>): seq<string> {
    LinesWords(lines, Separators())
  }

  /** The first half of the generator: builds the separator set, queues the words of every
      line and counts them. */
  method CountInput(lines: seq<string>) returns (counts: map<string, int>)
    ensures counts == Counts(InputWords(lines))
  {
    var separator := new CharSet();
    GenerateElements(SeparatorStr, separator);
    assert separator.elems == Separators();
    var q := new WordQueue();
    ReadFileAndCreateQueue(separator, q, lines);
    assert q.items == InputWords(lines);
    var wordMap := new CountMap();
    CreateMap(wordMap, q);
    counts := wordMap.counts;
  }

  /** The state of the entry list after the ranking: `byCount` is the list sorted by count,
      `list` is `byCount` with its first `n` entries re-sorted alphabetically. */
  ghost predicate Ranked(counts: map<string, int>, list: seq<Entry>, n: int, byCount: seq<Entry>) {
    && 0 <= n <= |list| == |byCount|
    && multiset(byCount) == multiset(EntrySet(counts)) && Sorted(IntOrder, byCount)
    && multiset(list[..n]) == multiset(byCount[..n]) && list[n..] == byCount[n..]
    && Sorted(StringOrder, list[..n])
    && multiset(list) == multiset(EntrySet(counts))
  }

  /** The spans written for the first `n` entries of a list holding the entries of `counts`
      show keys of `counts` with their counts, each key once. */
  lemma DisplayedCounts(counts: map<string, int>, list: seq<Entry>, n: int, out: seq<Piece>)
    requires multiset(list) == multiset(EntrySet(counts))
    requires 0 <= n <= |list| && |out| == n + 2
    requires forall i :: 1 <= i < |out| - 1 ==>
               out[i].Span? && out[i].count == list[i - 1].count && out[i].key == list[i - 1].key
    ensures forall i :: 1 <= i < |out| - 1 ==>
              out[i].Span? && out[i].key in counts && out[i].count == counts[out[i].key]
    ensures forall i, j :: 1 <= i < j < |out| - 1 ==> out[i].key != out[j].key
  {
    EntriesOfMap(list, counts);
  }

  /** The spans written for an alphabetically sorted prefix are in ascending
      case-insensitive order. */
  lemma DisplayedSorted(list: seq<Entry>, n: int, out: seq<Piece>)
    requires 0 <= n <= |list| && |out| == n + 2
    requires Sorted(StringOrder, list[..n])
    requires forall i :: 1 <= i < |out| - 1 ==> out[i].Span? && out[i].key == list[i - 1].key
    ensures forall i, j :: 1 <= i < j < |out| - 1 ==> CompareToIgnoreCase(out[i].key, out[j].key) <= 0
  {
    forall i, j | 1 <= i < j < |out| - 1
      ensures CompareToIgnoreCase(out[i].key, out[j].key) <= 0
    {
      assert InOrder(StringOrder, list[..n][i - 1], list[..n][j - 1]);
    }
  }

  /** No key left out of the spans written for the first `n` entries of a ranked list has a
      larger count than a key shown. */
  lemma DisplayedTop(counts: map<string, int>, list: seq<Entry>, n: int, byCount: seq<Entry>, out: seq<Piece>)
    requires Ranked(counts, list, n, byCount)
    requires |out| == n + 2
    requires forall i :: 1 <= i < |out| - 1 ==>
               out[i].Span? && out[i].count == list[i - 1].count && out[i].key == list[i - 1].key
    ensures forall i, k :: 1 <= i < |out| - 1 && k in counts
              && (forall j :: 1 <= j < |out| - 1 ==> out[j].key != k)
              ==> counts[k] <= out[i].count
  {
    EntriesOfMap(list, counts);
    PrefixKeepsTopCounts(byCount, list, n);
    forall i, k | 1 <= i < |out| - 1 && k in counts && (forall j :: 1 <= j < |out| - 1 ==> out[j].key != k)
      ensures counts[k] <= out[i].count
    {
      forall i' | 0 <= i' < n
        ensures list[i'].key != k
      {
        assert out[i' + 1].key == list[i'].key;
      }
      var idx :| 0 <= idx < |list| && list[idx] == Entry(k, counts[k]);
    }
  }

  /** The folds from `Integer.MAX_VALUE` and `Integer.MIN_VALUE` over a list holding the
      entries of `counts`, whose values are Java `int`s, give the smallest and the largest
      count, or leave the starting values when the map is empty. */
  lemma ExtremeCounts(counts: map<string, int>, list: seq<Entry>, min: int, max: int)
    requires forall k :: k in counts ==> IntMin <= counts[k] <= IntMax
    requires multiset(list) == multiset(EntrySet(counts))
    requires forall i :: 0 <= i < |list| ==> min <= list[i].count <= max
    requires min == IntMax || exists i :: 0 <= i < |list| && list[i].count == min
    requires max == IntMin || exists i :: 0 <= i < |list| && list[i].count == max
    requires min <= IntMax && IntMin <= max
    ensures counts == map[] ==> min == IntMax && max == IntMin
    ensures counts != map[] ==>
              && (forall k :: k in counts ==> min <= counts[k] <= max)
              && (exists k :: k in counts && counts[k] == min)
              && (exists k :: k in counts && counts[k] == max)
  {
    EntriesOfMap(list, counts);
    if counts == map[] {
      assert EntrySet(counts) == {};
      assert |multiset(list)| == 0;
    } else {
      forall k | k in counts
        ensures min <= counts[k] <= max
      {
        var i :| 0 <= i < |list| && list[i] == Entry(k, counts[k]);
      }
      var k0 :| k0 in counts;
      if min == IntMax {
        assert counts[k0] == min;
      } else {
        var i :| 0 <= i < |list| && list[i].count == min;
        assert list[i].key in counts;
      }
      if max == IntMin {
        assert counts[k0] == max;
      } else {
        var i :| 0 <= i < |list| && list[i].count == max;
        assert list[i].key in counts;
      }
    }
  }

  /** The end of the generator: finds the smallest and largest counts of `list` and writes
      the header, one span for each of the first `n` entries and the closing. */
  method WriteCloud(inputFile: string, list: seq<Entry>, n: int) returns (out: seq<Piece>, min: int, max: int)
    requires 0 <= n <= |list|
    ensures |out| == n + 2
    ensures out[0] == Header(inputFile, n) && out[n + 1] == Close
    ensures forall i :: 1 <= i <= n ==>
              out[i] == Span(Font(list[i - 1].count, min, max), list[i - 1].count, list[i - 1].key)
    ensures forall i :: 1 <= i <= n ==> FontMin <= out[i].font <= FontMin + Diff
    ensures forall i :: 0 <= i < |list| ==> min <= list[i].count <= max
    ensures min <= IntMax && IntMin <= max
    ensures min == IntMax || exists i :: 0 <= i < |list| && list[i].count == min
    ensures max == IntMin || exists i :: 0 <= i < |list| && list[i].count == max
  {
    min := MinCount(list);
    max := MaxCount(list);
    var cloud := OutputCloud(list, n, max, min);
    out := [Header(inputFile, n)] + cloud;
  }

  /** The tag cloud of a word-count map for the `num` most frequent words: ranks the
      entries, finds the extreme counts and writes the cloud.
      - the header names the input file and the number of words shown, `num` clamped to
        the number of keys, and is followed by that many spans and the closing;
      - each span carries a key and its count, no key twice;
      - the spans are in ascending case-insensitive order;
      - no key left out of the cloud has a larger count than any key in it;
      - each span's font size is the linear scaling of its count between `min` and `max`,
        the smallest and largest counts, from 11 to 48. */
  method CloudOf(inputFile: string, counts: map<string, int>, num: int) returns (out: seq<Piece>, min: int, max: int)
    requires 0 <= num
    requires forall k :: k in counts ==> IntMin <= counts[k] <= IntMax
    ensures |out| >= 2
    ensures |out| - 2 == if |counts| < num then |counts| else num
    ensures out[0] == Header(inputFile, |out| - 2) && out[|out| - 1] == Close
    ensures forall i :: 1 <= i < |out| - 1 ==>
              out[i].Span? && out[i].key in counts && out[i].count == counts[out[i].key]
    ensures forall i, j :: 1 <= i < j < |out| - 1 ==> out[i].key != out[j].key
    ensures forall i, j :: 1 <= i < j < |out| - 1 ==> CompareToIgnoreCase(out[i].key, out[j].key) <= 0
    ensures forall i, k :: 1 <= i < |out| - 1 && k in counts
              && (forall j :: 1 <= j < |out| - 1 ==> out[j].key != k)
              ==> counts[k] <= out[i].count
    ensures forall i :: 1 <= i < |out| - 1 ==>
              out[i].font == Font(out[i].count, min, max) && FontMin <= out[i].font <= FontMin + Diff
    ensures counts == map[] ==> min == IntMax && max == IntMin
    ensures counts != map[] ==>
              && (forall k :: k in counts ==> min <= counts[k] <= max)
              && (exists k :: k in counts && counts[k] == min)
              && (exists k :: k in counts && counts[k] == max)
  {
    var list, n, byCount := Rank(counts, num);
    out, min, max := WriteRanked(inputFile, counts, list, n, byCount);
  }

  /** Writes the cloud of a ranked list of the entries of `counts`. */
  method WriteRanked(inputFile: string, counts: map<string, int>, list: seq<Entry>, n: int, ghost byCount: seq<Entry>)
    returns (out: seq<Piece>, min: int, max: int)
    requires Ranked(counts, list, n, byCount)
    requires forall k :: k in counts ==> IntMin <= counts[k] <= IntMax
    ensures |out| == n + 2
    ensures out[0] == Header(inputFile, n) && out[n + 1] == Close
    ensures forall i :: 1 <= i < |out| - 1 ==>
              out[i].Span? && out[i].key in counts && out[i].count == counts[out[i].key]
    ensures forall i, j :: 1 <= i < j < |out| - 1 ==> out[i].key != out[j].key
    ensures forall i, j :: 1 <= i < j < |out| - 1 ==> CompareToIgnoreCase(out[i].key, out[j].key) <= 0
    ensures forall i, k :: 1 <= i < |out| - 1 && k in counts
              && (forall j :: 1 <= j < |out| - 1 ==> out[j].key != k)
              ==> counts[k] <= out[i].count
    ensures forall i :: 1 <= i < |out| - 1 ==>
              out[i].font == Font(out[i].count, min, max) && FontMin <= out[i].font <= FontMin + Diff
    ensures counts == map[] ==> min == IntMax && max == IntMin
    ensures counts != map[] ==>
              && (forall k :: k in counts ==> min <= counts[k] <= max)
              && (exists k :: k in counts && counts[k] == min)
              && (exists k :: k in counts && counts[k] == max)
  {
    out, min, max := WriteCloud(inputFile, list, n);
    Displayed(counts, list, n, byCount, out);
    ExtremeCounts(counts, list, min, max);
  }

  /** What the spans written for the first `n` entries of a ranked list show. */
  lemma Displayed(counts: map<string, int>, list: seq<Entry>, n: int, byCount: seq<Entry>, out: seq<Piece>)
    requires Ranked(counts, list, n, byCount)
    requires |out| == n + 2
    requires forall i :: 1 <= i < |out| - 1 ==>
               out[i].Span? && out[i].count == list[i - 1].count && out[i].key == list[i - 1].key
    ensures forall i :: 1 <= i < |out| - 1 ==>
              out[i].Span? && out[i].key in counts && out[i].count == counts[out[i].key]
    ensures forall i, j :: 1 <= i < j < |out| - 1 ==> out[i].key != out[j].key
    ensures forall i, j :: 1 <= i < j < |out| - 1 ==> CompareToIgnoreCase(out[i].key, out[j].key) <= 0
    ensures forall i, k :: 1 <= i < |out| - 1 && k in counts
              && (forall j :: 1 <= j < |out| - 1 ==> out[j].key != k)
              ==> counts[k] <= out[i].count
  {
    DisplayedCounts(counts, list, n, out);
    DisplayedSorted(list, n, out);
    DisplayedTop(counts, list, n, byCount, out);
  }

  /** No word occurs more often than there are words, so when `37` times the number of
      words fits in an `int` every count is a positive `int`. */
  lemma CountsAreInts(words: seq<string>)
    requires Diff * |words| <= IntMax
    ensures forall k :: k in Counts(words) ==> 0 < Counts(words)[k] <= IntMax
  {
    CountsSpec(words);
    forall k | k in Counts(words)
      ensures 0 < Counts(words)[k] <= IntMax
    {
      OccurrencesAtMost(words, k);
    }
  }

  /** Builds the tag cloud of the input `lines` for the `num` most frequent words: the
      cloud of the word counts of the input, in which each span's count is the number of
      occurrences of its word, and `min` and `max` are the smallest and the largest number
      of occurrences of a word. The bound on the number of words keeps every count and
      every font computation within Java's `int`. */
  method Generate(inputFile: string, lines: seq<string>, num: int) returns (out: seq<Piece>, min: int, max: int)
    requires 0 <= num
    requires Diff * |InputWords(lines)| <= IntMax
    ensures |out| >= 2
    ensures |out| - 2 == if |Counts(InputWords(lines))| < num then |Counts(InputWords(lines))| else num
    ensures out[0] == Header(inputFile, |out| - 2) && out[|out| - 1] == Close
    ensures forall i :: 1 <= i < |out| - 1 ==>
              && out[i].Span?
              && out[i].key in InputWords(lines)
              && out[i].count == multiset(InputWords(lines))[out[i].key]
    ensures forall i, j :: 1 <= i < j < |out| - 1 ==> out[i].key != out[j].key
    ensures forall i, j :: 1 <= i < j < |out| - 1 ==> CompareToIgnoreCase(out[i].key, out[j].key) <= 0
    ensures forall i, k :: 1 <= i < |out| - 1 && k in InputWords(lines)
              && (forall j :: 1 <= j < |out| - 1 ==> out[j].key != k)
              ==> multiset(InputWords(lines))[k] <= out[i].count
    ensures forall i :: 1 <= i < |out| - 1 ==>
              out[i].font == Font(out[i].count, min, max) && FontMin <= out[i].font <= FontMin + Diff
    ensures InputWords(lines) == [] ==> min == IntMax && max == IntMin
    ensures InputWords(lines) != [] ==>
              && (forall k :: k in InputWords(lines) ==> min <= multiset(InputWords(lines))[k] <= max)
              && (exists k :: k in InputWords(lines) && multiset(InputWords(lines))[k] == min)
              && (exists k :: k in InputWords(lines) && multiset(InputWords(lines))[k] == max)
  {
    ghost var words := InputWords(lines);
    var counts := CountInput(lines);
    CountsAreInts(words);
    out, min, max := CloudOf(inputFile, counts, num);
    CountsSpec(words);
  }
}
