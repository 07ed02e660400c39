/** The comparative bias score of each word: its group-1 frequency over its combined frequency. */
module Scoring {
  import opened Tokens
  import opened Frequencies
  import opened Ratios

  /** The score of a word used with frequency f1 by group 1 and f2 by group 2. It is 1 for a
      word only group 1 used, 0 for one only group 2 used, and above one half exactly when
      group 1 used it more. */
  function Score(f1: real, f2: real): (s: real)
    requires f1 >= 0.0 && f2 >= 0.0 && f1 + f2 > 0.0
    ensures 0.0 <= s <= 1.0
    ensures s == 1.0 <==> f2 == 0.0
    ensures s == 0.0 <==> f1 == 0.0
    ensures s > 0.5 <==> f1 > f2
    ensures s == 0.5 <==> f1 == f2
  {
    var d := f1 + f2;
    DivAdd(f1, f2, d);
    DivSelf(d);
    DivSign(f1, d);
    DivSign(f2, d);
    DivOrder(f1, f2, d);
    DivOrder(f2, f1, d);
    f1 / d
  }

  /** A word of either group has a positive combined frequency, so its score is defined. */
  lemma DenominatorPositive(words1: seq<string>, words2: seq<string>, w: string)
    requires |words1| > 0 && |words2| > 0
    requires w in words1 || w in words2
    ensures Frequency(words1, w) + Frequency(words2, w) > 0.0
  {
  }

  /** The score `generateTwoGroupWordCloud` stores for word w (the body of its scoring loop). */
  function WordScore(words1: seq<string>, words2: seq<string>, w: string): (r: real)
    requires |words1| > 0 && |words2| > 0
    requires w in words1 || w in words2
    ensures 0.0 <= r <= 1.0
    ensures r == 1.0 <==> w !in words2
    ensures r == 0.0 <==> w !in words1
    ensures r > 0.5 <==> Frequency(words1, w) > Frequency(words2, w)
  {
    DenominatorPositive(words1, words2, w);
    Score(Frequency(words1, w), Frequency(words2, w))
  }

  /** The complete score table: one entry for every word of either group and no other. */
  function ScoreTable(words1: seq<string>, words2: seq<string>): (m: map<string, real>)
    requires |words1| > 0 && |words2| > 0
    ensures forall w :: w in m <==> w in words1 || w in words2
    ensures forall w :: w in m ==> 0.0 <= m[w] <= 1.0
  {
    map w | w in words1 + words2 :: WordScore(words1, words2, w)
  }

  /** When both groups wrote the same text, every word scores exactly one half. */
  lemma IdenticalGroupsScoreHalf(text: string, w: string)
    requires w in Split(text)
    ensures WordScore(Split(text), Split(text), w) == 0.5
  {
    var words := Split(text);
    assert Score(Frequency(words, w), Frequency(words, w)) == 0.5;
  }
}
