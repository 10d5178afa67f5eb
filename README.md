# Tag cloud generator, modelled in Dafny

This project models the word-frequency pipeline of the tag cloud generator
`TagCloud3` and proves what its code and its doc comments promise. The pipeline has six stages:

1. It builds the set of separator characters from the literal `" \t\n\r,-.!?[]';:/()"`.
2. It cuts every input line into maximal runs of separator and non-separator characters, and queues the runs that are words.
3. It counts the words into a map, and leaves each distinct word once in the queue.
4. It copies the map's entries into a list and sorts the list by count, largest first. It then clamps the requested number of words to the list's size and sorts that prefix alphabetically, ignoring case.
5. It finds the smallest and largest count over all entries.
6. It writes one span per displayed word. The span's font size is the count scaled linearly from 11 to 48 with truncating integer division.

Modules, in pipeline order:

- `Tokenizer` (`tokenizer.dfy`) covers `generateElements`, `nextWordOrSeparator` and the reading loop of `readFileAndCreateQueue`.
  - `CharSet` and `WordQueue` are classes for the `Set<Character>` and `Queue<String>` that these methods change in place.
  - `Tokens`, `Words` and `LinesWords` are the reference definitions the loops are proved against.
- `Counting` (`counting.dfy`) covers `createMap`.
  - It works on a `CountMap` class (the `Map<String, Integer>`) and the `WordQueue`.
  - `Tally` and `Requeued` specify it, with lemmas for occurrence counts, the sum of the counts, and the first-occurrence order of the requeued words.
- `Ranking` (`ranking.dfy`) covers the comparators `StringLT` and `IntegerLT`, case-insensitive comparison, and the copy/sort/clamp/sort section of `main`.
  - The sorts work on an `array` in place.
  - The minimum and maximum folds start from `Integer.MAX_VALUE` and `Integer.MIN_VALUE`.
- `Cloud` (`cloud.dfy`) covers Java's truncating division, the font formula and its range, and the span loop of `outputCloud`.
- `TagCloud` (`tagcloud.dfy`) runs the stages in the order `main` does and proves the end-to-end properties of the written cloud.
  - The input file is a `seq<string>` of lines.
  - The output file is a `seq<Piece>`: a header, the spans, and the closing tags.

## Model

| member | source | states |
|---|---|---|
| Tokenizer.GenerateElements | TagCloudGenerator3/src/TagCloud3.java:102-110 | the set afterwards is its old contents plus exactly the characters of `str`; nothing is removed |
| Tokenizer.NextWordOrSeparator | TagCloudGenerator3/src/TagCloud3.java:144-159 | for `0 <= position < |text|` the result is a non-empty `text[position, position + k)`; all its characters share the separator membership of `text[position]`; it ends at the end of `text` or before a character of the opposite membership |
| Tokenizer.RunLengthIsMaximalRun | TagCloudGenerator3/src/TagCloud3.java:127-142 | the reference run length at the start of a string gives a maximal homogeneous run |
| Tokenizer.MaximalRunUnique | TagCloudGenerator3/src/TagCloud3.java:127-142 | a maximal homogeneous run is determined by its start, so the token returned is the reference token |
| Tokenizer.TokensConcat | TagCloudGenerator3/src/TagCloud3.java:179-189 | the tokens of a line put back together give the line exactly: no gap and no overlap |
| Tokenizer.TokensAreMaximalRuns | TagCloudGenerator3/src/TagCloud3.java:179-189 | every token is non-empty and homogeneous, and consecutive tokens have opposite separator membership |
| Tokenizer.WordsHaveNoSeparators | TagCloudGenerator3/src/TagCloud3.java:185-187 | every queued word is non-empty and holds no separator character |
| Tokenizer.WordsOfAreTokens | TagCloudGenerator3/src/TagCloud3.java:185-187 | every queued word is one of the line's tokens and starts with a non-separator |
| Tokenizer.WordsAfterToken | TagCloudGenerator3/src/TagCloud3.java:182-187 | the words of the rest of a line are the token found at the current position, if it is a word, followed by the words after it |
| Tokenizer.QueueLineWords | TagCloudGenerator3/src/TagCloud3.java:179-189 | the queue afterwards is its old contents followed by the words of the line, in order |
| Tokenizer.ReadFileAndCreateQueue | TagCloudGenerator3/src/TagCloud3.java:176-192 | the queue afterwards is its old contents followed by the words of every line, line after line |
| Counting.CreateMap | TagCloudGenerator3/src/TagCloud3.java:213-235 | the map afterwards is the old map with every dequeued word counted once more; the queue holds the dequeued words that were not yet keys, in the order they were met |
| Counting.Bump | TagCloudGenerator3/src/TagCloud3.java:222-230 | one more occurrence of a word: it becomes a key, its count is its old count (0 if absent) plus one, and every other key and count is unchanged |
| Counting.CountStep | TagCloudGenerator3/src/TagCloud3.java:221-231 | one iteration counts one more word, and requeues it iff it was not yet a key |
| Counting.TallyCount | TagCloudGenerator3/src/TagCloud3.java:220-233 | a word is a key afterwards iff it was a key or occurs in the queue; its count is its old count plus its number of occurrences |
| Counting.SumCountsBump | TagCloudGenerator3/src/TagCloud3.java:222-230 | incrementing a count, or inserting a word with count 1, adds exactly 1 to the sum of the counts |
| Counting.TallySum | TagCloudGenerator3/src/TagCloud3.java:220-233 | counting a queue adds its length to the sum of the counts |
| Counting.RequeuedElements | TagCloudGenerator3/src/TagCloud3.java:227-231 | a word is requeued iff it occurs in the queue and was not a key beforehand |
| Counting.RequeuedDistinct | TagCloudGenerator3/src/TagCloud3.java:227-231 | no word is requeued twice |
| Counting.RequeuedInFirstOccurrenceOrder | TagCloudGenerator3/src/TagCloud3.java:220-233 | the requeued words appear in the order of their first occurrences |
| Counting.RequeuedPairInOrder | TagCloudGenerator3/src/TagCloud3.java:227-231 | appending one word keeps every earlier requeued pair in first-occurrence order, and a new word comes after all earlier ones |
| Counting.CountsSpec | TagCloudGenerator3/src/TagCloud3.java:208-233 | starting from an empty map: the keys are exactly the words; each count is the word's number of occurrences; the counts sum to the number of words; the queue holds every distinct word once, in first-occurrence order |
| Counting.OccurrencesAtMost | TagCloudGenerator3/src/TagCloud3.java:220-233 | no word occurs more often than there are words |
| Ranking.LowerFoldsEach | TagCloudGenerator3/src/TagCloud3.java:48 | folding a key keeps its length and folds each character in place |
| Ranking.CompareToIgnoreCase | TagCloudGenerator3/src/TagCloud3.java:48 | case-insensitive comparison of two keys is zero exactly when both fold to the same string |
| Ranking.StringLT | TagCloudGenerator3/src/TagCloud3.java:43-50 | the alphabetical comparator is zero exactly when the keys fold to the same string, and swapping the entries negates it |
| Ranking.CompareToIgnoreCaseAntisymmetric | TagCloudGenerator3/src/TagCloud3.java:43-50 | swapping the keys negates the comparison |
| Ranking.CompareToIgnoreCaseTransitive | TagCloudGenerator3/src/TagCloud3.java:43-50 | "not after" in case-insensitive order is transitive |
| Ranking.IntegerLT | TagCloudGenerator3/src/TagCloud3.java:58-65 | the count comparator returns -1, 0 or 1; it is negative iff the first count is larger and zero iff the counts are equal, so larger counts come first |
| Ranking.InOrderTotal | TagCloudGenerator3/src/TagCloud3.java:43-65 | under either comparator, of two entries one may precede the other |
| Ranking.InOrderTransitive | TagCloudGenerator3/src/TagCloud3.java:43-65 | under either comparator, "may precede" is transitive |
| Ranking.Sort | TagCloudGenerator3/src/TagCloud3.java:340-345 | sorting the first `hi` entries in place leaves them sorted under the comparator and a permutation of what they were; the entries from `hi` on are untouched |
| Ranking.Insert | TagCloudGenerator3/src/TagCloud3.java:340-345 | inserting one more entry into a sorted prefix keeps it sorted, permutes the array and touches nothing after it |
| Ranking.InsertingStep | TagCloudGenerator3/src/TagCloud3.java:340-345 | swapping the moving entry with an out-of-order left neighbour keeps the insertion invariant |
| Ranking.InsertingDone | TagCloudGenerator3/src/TagCloud3.java:340-345 | once the moving entry's left neighbour may precede it, the prefix is sorted |
| Ranking.SplitMultiset | TagCloudGenerator3/src/TagCloud3.java:344-345 | two permutations that agree from `hi` on are permutations of each other before `hi` |
| Ranking.EntryList | TagCloudGenerator3/src/TagCloud3.java:329-336 | the list holds every entry of the map exactly once, in an order left open |
| Ranking.EntriesOfMap | TagCloudGenerator3/src/TagCloud3.java:329-336 | each list position carries a key of the map with the map's count; every key has a position; no key occurs twice |
| Ranking.PrefixKeepsTopCounts | TagCloudGenerator3/src/TagCloud3.java:340-345 | after re-sorting the first `num` entries of the count-sorted list, every entry of the prefix has a count at least that of every entry after it |
| Ranking.Rank | TagCloudGenerator3/src/TagCloud3.java:329-345 | `num` is clamped to the number of entries. The list between the sorts is a permutation of the entries, sorted by count, largest first. Afterwards the prefix is a sorted permutation of that list's prefix, the rest is untouched, and the whole list is still a permutation of the entries |
| Ranking.MinCount | TagCloudGenerator3/src/TagCloud3.java:347-352 | the fold from `Integer.MAX_VALUE` is at most every count and is either one of the counts or `Integer.MAX_VALUE` |
| Ranking.MaxCount | TagCloudGenerator3/src/TagCloud3.java:348-355 | the fold from `Integer.MIN_VALUE` is at least every count and is either one of the counts or `Integer.MIN_VALUE` |
| Cloud.JavaDiv | TagCloudGenerator3/src/TagCloud3.java:268 | Java's `/` truncates: the remainder is smaller than the divisor in magnitude and has the dividend's sign |
| Cloud.TruncatedRemainder | TagCloudGenerator3/src/TagCloud3.java:268 | the truncated quotient leaves the magnitude remainder, with the dividend's sign |
| Cloud.Font | TagCloudGenerator3/src/TagCloud3.java:261-269 | the font size of a count between the smallest and the largest count gets a font size from 11 to 48 |
| Cloud.FontAtEnds | TagCloudGenerator3/src/TagCloud3.java:261-269 | when the counts differ, the smallest count gets size 11 and the largest size 48 |
| Cloud.FontMonotone | TagCloudGenerator3/src/TagCloud3.java:261-269 | a larger count never gets a smaller font |
| Cloud.OutputCloud | TagCloudGenerator3/src/TagCloud3.java:257-279 | exactly `n` spans, in list order, each with its entry's font size, count and key, then the closing. All fonts are 11 when the smallest and largest counts are equal, and lie in 11..48 when every count is between them |
| TagCloud.CountInput | TagCloudGenerator3/src/TagCloud3.java:322-327 | building the separator set, queuing the words of the input and counting them gives the frequency map of the input's words |
| TagCloud.DisplayedCounts | TagCloudGenerator3/src/TagCloud3.java:329-359 | each written span shows a key of the map with its count, and no key twice |
| TagCloud.DisplayedSorted | TagCloudGenerator3/src/TagCloud3.java:344-345 | the written spans are in ascending case-insensitive order |
| TagCloud.Displayed | TagCloudGenerator3/src/TagCloud3.java:340-359 | the spans written for a ranked list show keys of the map with their counts, no key twice, in case-insensitive order, and no omitted key has a larger count than a shown one |
| TagCloud.DisplayedTop | TagCloudGenerator3/src/TagCloud3.java:340-345 | no key left out of the cloud has a larger count than any key shown |
| TagCloud.ExtremeCounts | TagCloudGenerator3/src/TagCloud3.java:347-355 | over a non-empty map, `min` and `max` bound every count and are attained; over an empty map they stay `Integer.MAX_VALUE` and `Integer.MIN_VALUE` |
| TagCloud.WriteCloud | TagCloudGenerator3/src/TagCloud3.java:347-359 | header with `n`, then `n` spans for the first `n` entries with fonts in 11..48, then the closing; `min` and `max` bound every count of the list |
| TagCloud.WriteRanked | TagCloudGenerator3/src/TagCloud3.java:347-359 | for a ranked list: `n` spans, each a key of the map with its count, no key twice, in case-insensitive order, none less frequent than an omitted key; fonts on the linear scale in 11..48; `min`/`max` the extreme counts, or the fold starts for an empty map |
| TagCloud.CloudOf | TagCloudGenerator3/src/TagCloud3.java:329-359 | the cloud of a count map shows `num` clamped words. Each span shows its count, no word twice, in case-insensitive order, and no omitted word is more frequent than a shown one. Fonts follow the linear scale in 11..48, and `min`/`max` are the extreme counts |
| TagCloud.CountsAreInts | TagCloudGenerator3/src/TagCloud3.java:220-233 | if 37 times the number of words fits in an `int`, every count is a positive `int` |
| TagCloud.Generate | TagCloudGenerator3/src/TagCloud3.java:316-359 | the whole pipeline. The header names the file and the number of words shown. Each span is an input word with its number of occurrences, no word twice, in case-insensitive order. No omitted word occurs more often than a shown one. Each font is the linear scaling of its count between `min` and `max`, in 11..48, where `min` and `max` are the smallest and the largest number of occurrences of an input word, or `Integer.MAX_VALUE` and `Integer.MIN_VALUE` when the input has no words |

## Left out

- Console and file I/O are not modelled: the `Scanner` prompts, opening and closing the files, `readLine`, and the `IOException` handlers. The input file is a sequence of lines, which contain no line terminators. The output file is a sequence of pieces.
- The HTML text is not modelled: the constant text of `outputHeader` and the exact span string, including its malformed `title` quoting. A span is modelled as the record (font, count, key), the header as (file, number of words), and the closing as one piece.
- Counting.CreateMap: the `assert q.size() > 1` at its start is not modelled. Java assertions are off unless the program runs with `-ea`; with them on, a file of fewer than two words would stop the program there.
- Counting.CreateMap: the doc comment says the map is replaced, but the code does not clear it. The model counts on top of whatever the map holds, as the code does; the pipeline passes an empty map.
- Tokenizer.GenerateElements: likewise it adds to the set without clearing it, as the code does.
- Tokenizer.ReadFileAndCreateQueue: likewise it appends to the queue without clearing it, as the code does; the pipeline passes an empty queue.
- Ranking.CompareToIgnoreCase: case folding is ASCII only; Java folds every Unicode letter. Java also compares UTF-16 code units, while a Dafny `char` is a Unicode scalar value, so a key holding a character above U+FFFF may sort the other way against one holding a character in U+E000..U+FFFF. Tokenizing and counting do not depend on this, since every separator is ASCII.
- Ranking.Sort: Java's `List.sort` algorithm is not modelled. An insertion sort stands in for it, specified only by sortedness and permutation. The order among entries with equal counts comes from the `HashMap` iteration order. That order is left open (`EntryList` may produce any order), so which count-tied words make the top `num` is not pinned down.
- Ranking.Rank: a negative `num` makes `subList` throw. This is a precondition (`0 <= num`) rather than a modelled exception.
- Cloud.OutputCloud: fonts are computed on unbounded integers. `37 * (count - min)` overflows a Java `int` only for counts above about 58 million.
- TagCloud.Generate: it requires 37 times the number of input words to fit in an `int`, which rules out that overflow and the overflow of the counts themselves.
- Counting.CreateMap: counts are unbounded integers; the bound on Generate keeps them within `int`.
