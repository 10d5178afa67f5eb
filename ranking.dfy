/** The ranker of the tag-cloud generator: the map's entries are copied to a list, the list
    is sorted by count (largest first), the requested number of entries is clamped to the
    list's size, and that prefix of the list is re-sorted alphabetically ignoring case.
    The smallest and largest counts over all entries are computed for the font scaler. */
module Ranking {

  /** Java's `Integer.MAX_VALUE` and `Integer.MIN_VALUE`, the starting points of the folds
      that compute the smallest and largest counts. */
  const IntMax: int := 0x7fff_ffff
  const IntMin: int := -0x8000_0000

  /** An immutable map entry: a word and its count. */
  datatype Entry = Entry(key: string, count: int)

  /** The case folding of `compareToIgnoreCase`, on ASCII letters. */
  function Fold(c: char): char {
    if 'A' <= c <= 'Z' then (c as int + 32) as char else c
  }

  /** `s` with every character folded. */
  function Lower(s: string): string {
    if s == [] then [] else [Fold(s[0])] + Lower(s[1..])
  }

  /** Folding keeps the length and folds each character in place. */
  lemma {:induction false} LowerFoldsEach(s: string)
    ensures |Lower(s)| == |s|
    ensures forall i :: 0 <= i < |s| ==> Lower(s)[i] == Fold(s[i])
  {
    if s != [] {
      LowerFoldsEach(s[1..]);
    }
  }

  /** Case-insensitive lexicographic comparison: the difference of the first pair of folded
      characters that differ, or else the difference of the lengths. It is zero exactly when
      both strings fold to the same string. */
  function CompareToIgnoreCase(a: string, b: string): (r: int)
    ensures r == 0 <==> Lower(a) == Lower(b)
  {
    LowerFoldsEach(a);
    LowerFoldsEach(b);
    if a == [] || b == [] then |a| - |b|
    else if Fold(a[0]) != Fold(b[0]) then
      assert Lower(a)[0] != Lower(b)[0];
      Fold(a[0]) as int - Fold(b[0]) as int
    else
      assert Lower(a)[1..] == Lower(a[1..]) && Lower(b)[1..] == Lower(b[1..]);
      CompareToIgnoreCase(a[1..], b[1..])
  }

  /** Swapping the arguments negates the comparison. */
  lemma {:induction false} CompareToIgnoreCaseAntisymmetric(a: string, b: string)
    ensures CompareToIgnoreCase(a, b) == -CompareToIgnoreCase(b, a)
  {
    if a != [] && b != [] && Fold(a[0]) == Fold(b[0]) {
      CompareToIgnoreCaseAntisymmetric(a[1..], b[1..]);
    }
  }

  /** "Not after" is transitive. */
  lemma {:induction false} CompareToIgnoreCaseTransitive(a: string, b: string, c: string)
    requires CompareToIgnoreCase(a, b) <= 0 && CompareToIgnoreCase(b, c) <= 0
    ensures CompareToIgnoreCase(a, c) <= 0
  {
    if a != [] && b != [] && c != [] && Fold(a[0]) == Fold(b[0]) && Fold(b[0]) == Fold(c[0]) {
      CompareToIgnoreCaseTransitive(a[1..], b[1..], c[1..]);
    }
  }

  /** The comparator that orders entries alphabetically, ignoring case: zero exactly when
      the keys fold to the same string, and swapping the entries negates it. */
  function StringLT(o1: Entry, o2: Entry): (r: int)
    ensures r == 0 <==> Lower(o1.key) == Lower(o2.key)
    ensures r == -CompareToIgnoreCase(o2.key, o1.key)
  {
    CompareToIgnoreCaseAntisymmetric(o1.key, o2.key);
    CompareToIgnoreCase(o1.key, o2.key)
  }

  /** The comparator that orders entries by count, largest first (`Integer.compareTo` with
      the arguments swapped). */
  function IntegerLT(o1: Entry, o2: Entry): (r: int)
    ensures -1 <= r <= 1
    ensures r < 0 <==> o1.count > o2.count
    ensures r == 0 <==> o1.count == o2.count
  {
    if o2.count < o1.count then -1 else if o2.count == o1.count then 0 else 1
  }

  /** The two comparators the generator sorts with. */
  datatype Comparator = StringOrder | IntOrder

  function Compare(c: Comparator, o1: Entry, o2: Entry): int {
    match c
    case StringOrder => StringLT(o1, o2)
    case IntOrder => IntegerLT(o1, o2)
  }

  /** `x` may stand before `y` in a list sorted with `c`. */
  predicate InOrder(c: Comparator, x: Entry, y: Entry) {
    Compare(c, x, y) <= 0
  }

  predicate Sorted(c: Comparator, s: seq<Entry>) {
    forall i, j :: 0 <= i < j < |s| ==> InOrder(c, s[i], s[j])
  }

  /** Both comparators are total ... */
  lemma InOrderTotal(c: Comparator, x: Entry, y: Entry)
    ensures InOrder(c, x, y) || InOrder(c, y, x)
  {
    if c == StringOrder {
      CompareToIgnoreCaseAntisymmetric(x.key, y.key);
    }
  }

  /** ... and transitive. */
  lemma InOrderTransitive(c: Comparator, x: Entry, y: Entry, z: Entry)
    requires InOrder(c, x, y) && InOrder(c, y, z)
    ensures InOrder(c, x, z)
  {
    if c == StringOrder {
      CompareToIgnoreCaseTransitive(x.key, y.key, z.key);
    }
  }

  /** Sorts the first `hi` elements of `a` in place with comparator `c` (`List.sort`, also on
      the view `subList(0, hi)`); the elements from `hi` on are left alone. The library's
      algorithm is not part of the model; this is an insertion sort. */
  method Sort(a: array<Entry>, hi: int, c: Comparator)
    requires 0 <= hi <= a.Length
    modifies a
    ensures Sorted(c, a[..hi])
    ensures multiset(a[..hi]) == multiset(old(a[..hi]))
    ensures a[hi..] == old(a[hi..])
    ensures multiset(a[..]) == multiset(old(a[..]))
  {
    var i := 0;
    while i < hi
      invariant 0 <= i <= hi
      invariant Sorted(c, a[..i])
      invariant multiset(a[..]) == multiset(old(a[..]))
      invariant a[hi..] == old(a[hi..])
    {
      ghost var before := a[..];
      Insert(a, i, c);
      assert a[hi..] == a[i + 1..][hi - i - 1..];
      assert before[hi..] == before[i + 1..][hi - i - 1..];
      i := i + 1;
    }
    SplitMultiset(old(a[..]), a[..], hi);
  }

  /** Moves `a[i]` left past every element it must precede, so that `a[..i + 1]` is sorted. */
  method Insert(a: array<Entry>, i: int, c: Comparator)
    requires 0 <= i < a.Length
    requires Sorted(c, a[..i])
    modifies a
    ensures Sorted(c, a[..i + 1])
    ensures multiset(a[..]) == multiset(old(a[..]))
    ensures a[i + 1..] == old(a[i + 1..])
  {
    var j := i;
    InsertingStart(c, a[..], i);
    while j > 0 && !InOrder(c, a[j - 1], a[j])
      invariant 0 <= j <= i
      invariant Inserting(c, a[..], i, j)
      invariant multiset(a[..]) == multiset(old(a[..]))
      invariant a[i + 1..] == old(a[i + 1..])
    {
      InsertingStep(c, a[..], i, j);
      Swap(a, j - 1, j);
      j := j - 1;
    }
    InsertingDone(c, a[..], i, j);
  }

  /** While `s[j]` moves left to its place in `s[..i + 1]`: the other elements of
      `s[..i + 1]` are in order, and `s[j]` may precede everything after it. */
  ghost predicate Inserting(c: Comparator, s: seq<Entry>, i: int, j: int) {
    && 0 <= j <= i < |s|
    && (forall k, l :: 0 <= k < l <= i && k != j && l != j ==> InOrder(c, s[k], s[l]))
    && (forall l :: j < l <= i ==> InOrder(c, s[j], s[l]))
  }

  lemma InsertingStart(c: Comparator, s: seq<Entry>, i: int)
    requires 0 <= i < |s| && Sorted(c, s[..i])
    ensures Inserting(c, s, i, i)
  {
    forall k, l | 0 <= k < l <= i && k != i && l != i
      ensures InOrder(c, s[k], s[l])
    {
      assert s[k] == s[..i][k] && s[l] == s[..i][l];
    }
  }

  /** Exchanging `s[j]` with an out-of-order left neighbour moves it one place left. */
  lemma InsertingStep(c: Comparator, s: seq<Entry>, i: int, j: int)
    requires Inserting(c, s, i, j) && 0 < j && !InOrder(c, s[j - 1], s[j])
    ensures Inserting(c, s[j - 1 := s[j]][j := s[j - 1]], i, j - 1)
  {
    InOrderTotal(c, s[j - 1], s[j]);
  }

  /** Once `s[j]`'s left neighbour may precede it, `s[..i + 1]` is sorted. */
  lemma InsertingDone(c: Comparator, s: seq<Entry>, i: int, j: int)
    requires Inserting(c, s, i, j) && (j == 0 || InOrder(c, s[j - 1], s[j]))
    ensures Sorted(c, s[..i + 1])
  {
    forall k | 0 <= k < j - 1
      ensures InOrder(c, s[k], s[j])
    {
      InOrderTransitive(c, s[k], s[j - 1], s[j]);
    }
  }

  /** Exchanges `a[i]` and `a[j]`. */
  method Swap(a: array<Entry>, i: int, j: int)
    requires 0 <= i < j < a.Length
    modifies a
    ensures a[..] == old(a[..])[i := old(a[j])][j := old(a[i])]
    ensures multiset(a[..]) == multiset(old(a[..]))
  {
    a[i], a[j] := a[j], a[i];
  }

  /** Two sequences that are permutations of each other and agree from `hi` on are
      permutations of each other before `hi`. */
  lemma SplitMultiset(s: seq<Entry>, t: seq<Entry>, hi: int)
    requires 0 <= hi <= |s| == |t|
    requires multiset(s) == multiset(t)
    requires s[hi..] == t[hi..]
    ensures multiset(s[..hi]) == multiset(t[..hi])
  {
    assert s == s[..hi] + s[hi..];
    assert t == t[..hi] + t[hi..];
    assert multiset(s) == multiset(s[..hi]) + multiset(s[hi..]);
    assert multiset(t) == multiset(t[..hi]) + multiset(t[hi..]);
    assert multiset(s[..hi]) == multiset(s) - multiset(s[hi..]);
  }

  /** The entries of `m`, one per key. */
  function EntrySet(m: map<string, int>): set<Entry> {
    set k | k in m :: Entry(k, m[k])
  }

  /** Copies the entries of `m` into a new list, in the map's iteration order, which is left
      open (any order may come out). */
  method EntryList(m: map<string, int>) returns (entries: seq<Entry>)
    ensures |entries| == |m|
    ensures multiset(entries) == multiset(EntrySet(m))
  {
    entries := [];
    var rest := m.Keys;
    while rest != {}
      invariant rest <= m.Keys
      invariant |entries| + |rest| == |m|
      invariant multiset(entries) == multiset(set k | k in m && k !in rest :: Entry(k, m[k]))
      decreases rest
    {
      var k :| k in rest;
      ghost var done := set k' | k' in m && k' !in rest :: Entry(k', m[k']);
      assert Entry(k, m[k]) !in done;
      assert (set k' | k' in m && k' !in rest - {k} :: Entry(k', m[k'])) == done + {Entry(k, m[k])};
      entries := entries + [Entry(k, m[k])];
      rest := rest - {k};
    }
    assert (set k | k in m && k !in rest :: Entry(k, m[k])) == EntrySet(m);
  }

  /** A list that holds the entries of `m`, each once, gives every key of `m` its own
      position and each position's count is the map's count for its key. */
  lemma EntriesOfMap(s: seq<Entry>, m: map<string, int>)
    requires multiset(s) == multiset(EntrySet(m))
    ensures forall i :: 0 <= i < |s| ==> s[i].key in m && s[i].count == m[s[i].key]
    ensures forall k :: k in m ==> exists i :: 0 <= i < |s| && s[i] == Entry(k, m[k])
    ensures forall i, j :: 0 <= i < j < |s| ==> s[i].key != s[j].key
  {
    forall i | 0 <= i < |s|
      ensures s[i].key in m && s[i].count == m[s[i].key]
    {
      assert s[i] in multiset(s);
    }
    forall k | k in m
      ensures exists i :: 0 <= i < |s| && s[i] == Entry(k, m[k])
    {
      assert Entry(k, m[k]) in multiset(EntrySet(m));
      assert Entry(k, m[k]) in s;
    }
    forall i, j | 0 <= i < j < |s|
      ensures s[i].key != s[j].key
    {
      if s[i].key == s[j].key {
        assert s[i] == s[j] && s[i] in EntrySet(m);
        TwiceInSeq(s, i, j);
      }
    }
  }

  /** An element found at two positions occurs at least twice. */
  lemma TwiceInSeq(s: seq<Entry>, i: int, j: int)
    requires 0 <= i < j < |s| && s[i] == s[j]
    ensures multiset(s)[s[i]] >= 2
  {
    assert s == s[..j] + s[j..];
    assert s[i] in s[..j];
    assert s[j..][0] == s[j];
    assert multiset(s) == multiset(s[..j]) + multiset(s[j..]);
  }

  /** Re-sorting the first `n` entries of a list sorted by count, without touching the rest,
      keeps every entry of the prefix at least as frequent as every entry after it. */
  lemma {:induction false} PrefixKeepsTopCounts(byCount: seq<Entry>, s: seq<Entry>, n: int)
    requires 0 <= n <= |byCount| == |s|
    requires Sorted(IntOrder, byCount)
    requires multiset(s[..n]) == multiset(byCount[..n])
    requires s[n..] == byCount[n..]
    ensures forall i, j :: 0 <= i < n <= j < |s| ==> s[i].count >= s[j].count
    ensures forall i, j :: n <= i < j < |s| ==> s[i].count >= s[j].count
  {
    forall i, j | 0 <= i < n <= j < |s|
      ensures s[i].count >= s[j].count
    {
      assert s[i] == s[..n][i];
      assert s[i] in multiset(byCount[..n]);
      var k :| 0 <= k < n && byCount[..n][k] == s[i];
      assert s[j] == byCount[j] by {
        assert s[j] == s[n..][j - n];
      }
      assert InOrder(IntOrder, byCount[k], byCount[j]);
    }
    forall i, j | n <= i < j < |s|
      ensures s[i].count >= s[j].count
    {
      assert s[i] == s[n..][i - n] && s[j] == s[n..][j - n];
      assert InOrder(IntOrder, byCount[i], byCount[j]);
    }
  }

  /** The ranking section of the generator: copies the entries of `m` to a list, sorts it by
      count, largest first, clamps `num` to the list's size, and sorts that many entries at
      the front of the list alphabetically ignoring case. `byCount` is the list between the
      two sorts. */
  method Rank(m: map<string, int>, num: int) returns (ranked: seq<Entry>, n: int, ghost byCount: seq<Entry>)
    requires 0 <= num
    ensures n == if |ranked| < num then |ranked| else num
    ensures |ranked| == |m| == |byCount|
    ensures multiset(byCount) == multiset(EntrySet(m)) && Sorted(IntOrder, byCount)
    ensures multiset(ranked[..n]) == multiset(byCount[..n]) && ranked[n..] == byCount[n..]
    ensures Sorted(StringOrder, ranked[..n])
    ensures multiset(ranked) == multiset(EntrySet(m))
  {
    var entries := EntryList(m);
    var list := new Entry[|entries|](i => if 0 <= i < |entries| then entries[i] else Entry([], 0));
    assert list[..] == entries;

    Sort(list, list.Length, IntOrder);
    byCount := list[..];
    assert byCount == list[..list.Length];
    n := num;
    if list.Length < n {
      n := list.Length;
    }
    Sort(list, n, StringOrder);
    ranked := list[..];
  }

  /** The smallest count in `list`, folded from `Integer.MAX_VALUE`. */
  method MinCount(list: seq<Entry>) returns (min: int)
    ensures min <= IntMax
    ensures forall i :: 0 <= i < |list| ==> min <= list[i].count
    ensures min == IntMax || exists i :: 0 <= i < |list| && list[i].count == min
  {
    min := IntMax;
    for i := 0 to |list|
      invariant min <= IntMax
      invariant forall k :: 0 <= k < i ==> min <= list[k].count
      invariant min == IntMax || exists k :: 0 <= k < i && list[k].count == min
    {
      if list[i].count < min {
        min := list[i].count;
      }
    }
  }

  /** The largest count in `list`, folded from `Integer.MIN_VALUE`. */
  method MaxCount(list: seq<Entry>) returns (max: int)
    ensures max >= IntMin
    ensures forall i :: 0 <= i < |list| ==> list[i].count <= max
    ensures max == IntMin || exists i :: 0 <= i < |list| && list[i].count == max
  {
    max := IntMin;
    for i := 0 to |list|
      invariant max >= IntMin
      invariant forall k :: 0 <= k < i ==> list[k].count <= max
      invariant max == IntMin || exists k :: 0 <= k < i && list[k].count == max
    {
      if list[i].count > max {
        max := list[i].count;
      }
    }
  }
}
