/** Per-group word frequencies: counting the tokens of a text and normalising by the token count. */
module Frequencies {
  import opened Tokens
  import opened Ratios

  /** `Counter(words)` in `generateTwoGroupWordCloud`: every token maps to how often it occurs. */
  method CountWords(words: seq<string>) returns (counts: map<string, nat>)
    ensures forall w :: w in counts <==> w in words
    ensures forall w :: w in counts ==> counts[w] == multiset(words)[w] > 0
  {
    counts := map[];
    var i := 0;
    while i < |words|
      invariant 0 <= i <= |words|
      invariant forall w :: w in counts <==> w in words[..i]
      invariant forall w :: w in counts ==> counts[w] == multiset(words[..i])[w] > 0
    {
      var w := words[i];
      assert words[..i + 1] == words[..i] + [w];
      counts := counts[w := (if w in counts then counts[w] else 0) + 1];
      i := i + 1;
    }
    assert words[..i] == words;
  }

  /** Divides every count by the group's token count (the dictionary comprehension). */
  function Normalize(counts: map<string, nat>, total: nat): map<string, real>
    requires total > 0
  {
    map w | w in counts :: counts[w] as real / total as real
  }

  /** Reading a frequency table that defaults to 0.0 for absent words (defaultdict(float)). */
  function Lookup(table: map<string, real>, w: string): real
  {
    if w in table then table[w] else 0.0
  }

  /** The reference meaning of a frequency: occurrences of w over the number of tokens. */
  function Frequency(words: seq<string>, w: string): (f: real)
    requires |words| > 0
    ensures 0.0 <= f <= 1.0
    ensures f > 0.0 <==> w in words
    ensures f == 0.0 <==> w !in words
  {
    var c, n := multiset(words)[w] as real, |words| as real;
    OccurrencesAtMostLength(words, w);
    DivSign(c, n);
    DivOrder(n, c, n);
    DivSelf(n);
    c / n
  }

  lemma {:induction false} OccurrencesAtMostLength(words: seq<string>, w: string)
    ensures multiset(words)[w] <= |words|
  {
    if |words| > 0 {
      var init := words[..|words| - 1];
      assert words == init + [words[|words| - 1]];
      OccurrencesAtMostLength(init, w);
    }
  }

  /** One group's frequency table, built as `generateTwoGroupWordCloud` does: split, count, normalise. */
  method FrequencyTable(text: string) returns (words: seq<string>, table: map<string, real>)
    ensures words == Split(text)
    ensures table.Keys == Vocabulary(text)
    ensures forall w :: w in table ==> table[w] > 0.0
    ensures forall w :: Lookup(table, w) == Frequency(words, w)
  {
    words := Split(text);
    var counts := CountWords(words);
    table := Normalize(counts, |words|);
    forall w ensures Lookup(table, w) == Frequency(words, w) {
      if w in counts {
        assert table[w] == counts[w] as real / |words| as real;
      }
    }
    forall w | w in table ensures table[w] > 0.0 {
      assert Lookup(table, w) == table[w];
    }
  }

  /** No two positions of ds hold the same word. */
  predicate NoDuplicates(ds: seq<string>)
  {
    forall i, j :: 0 <= i < j < |ds| ==> ds[i] != ds[j]
  }

  /** The distinct words of a token list in order of first occurrence: the Counter's keys. */
  function Distinct(words: seq<string>): (ds: seq<string>)
    ensures forall w :: w in ds <==> w in words
    ensures NoDuplicates(ds)
  {
    if |words| == 0 then []
    else
      var init, last := words[..|words| - 1], words[|words| - 1];
      var d := Distinct(init);
      if last in init then d else d + [last]
  }

  /** The sum of the counts, in m, of the words of ds. */
  function SumCounts(m: multiset<string>, ds: seq<string>): nat
  {
    if |ds| == 0 then 0 else SumCounts(m, ds[..|ds| - 1]) + m[ds[|ds| - 1]]
  }

  /** The sum of the frequencies, in the token list words, of the words of ds. */
  function SumFrequencies(words: seq<string>, ds: seq<string>): real
    requires |words| > 0
  {
    if |ds| == 0 then 0.0 else SumFrequencies(words, ds[..|ds| - 1]) + Frequency(words, ds[|ds| - 1])
  }

  lemma {:induction false} SumCountsAddOne(m: multiset<string>, x: string, ds: seq<string>)
    requires NoDuplicates(ds)
    ensures SumCounts(m + multiset{x}, ds) == SumCounts(m, ds) + (if x in ds then 1 else 0)
  {
    if |ds| > 0 {
      var init, last := ds[..|ds| - 1], ds[|ds| - 1];
      assert NoDuplicates(init);
      SumCountsAddOne(m, x, init);
      assert ds == init + [last];
      assert x in ds <==> x in init || x == last;
      assert x in init ==> x != last;
    }
  }

  /** The counts of a token list's distinct words add up to its length. */
  lemma {:induction false} CountsSumToLength(words: seq<string>)
    ensures SumCounts(multiset(words), Distinct(words)) == |words|
  {
    if |words| > 0 {
      var init, last := words[..|words| - 1], words[|words| - 1];
      assert words == init + [last];
      assert multiset(words) == multiset(init) + multiset{last};
      CountsSumToLength(init);
      var d := Distinct(init);
      SumCountsAddOne(multiset(init), last, d);
      if last !in init {
        assert Distinct(words) == d + [last];
        assert (d + [last])[..|d|] == d;
        assert multiset(init)[last] == 0;
      }
    }
  }

  lemma {:induction false} SumFrequenciesScaled(words: seq<string>, ds: seq<string>)
    requires |words| > 0
    ensures SumFrequencies(words, ds) == SumCounts(multiset(words), ds) as real / |words| as real
  {
    if |ds| > 0 {
      var init, last := ds[..|ds| - 1], ds[|ds| - 1];
      SumFrequenciesScaled(words, init);
      var n, a, b := |words| as real, SumCounts(multiset(words), init) as real, multiset(words)[last] as real;
      assert SumCounts(multiset(words), ds) as real == a + b;
      assert Frequency(words, last) == b / n;
      DivAdd(a, b, n);
    }
  }

  /** The frequencies of a group's distinct words add up to exactly 1. */
  lemma {:induction false} FrequenciesSumToOne(words: seq<string>)
    requires |words| > 0
    ensures SumFrequencies(words, Distinct(words)) == 1.0
  {
    SumFrequenciesScaled(words, Distinct(words));
    CountsSumToLength(words);
    var n := |words| as real;
    assert SumCounts(multiset(words), Distinct(words)) as real == n;
    DivSelf(n);
  }
}
