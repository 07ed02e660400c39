/** Splitting a text on single spaces, as Python's str.split(' ') does, and its inverse. */
module Tokens {

  /** The pieces of s between single spaces, empty pieces included; never an empty list. */
  function Split(s: string): (r: seq<string>)
    ensures |r| >= 1
    ensures forall i :: 0 <= i < |r| ==> ' ' !in r[i]
  {
    if |s| == 0 then [""]
    else
      var rest := Split(s[1..]);
      if s[0] == ' ' then [""] + rest
      else [[s[0]] + rest[0]] + rest[1..]
  }

  /** The pieces put back together with one space between neighbours: ' '.join(ts). */
  function Join(ts: seq<string>): string
    requires |ts| >= 1
  {
    if |ts| == 1 then ts[0] else ts[0] + " " + Join(ts[1..])
  }

  /** The set of distinct tokens of a text: set(text.split(' ')). */
  function Vocabulary(s: string): set<string>
  {
    set w | w in Split(s)
  }

  /** The number of pieces is one more than the number of spaces. */
  lemma {:induction false} SplitLength(s: string)
    ensures |Split(s)| == multiset(s)[' '] + 1
  {
    if |s| > 0 {
      SplitLength(s[1..]);
      assert s == [s[0]] + s[1..];
      assert multiset(s) == multiset{s[0]} + multiset(s[1..]);
    }
  }

  /** Splitting a text that starts with character c: a space opens a new empty first piece, any
      other character is prepended to the first piece. */
  lemma SplitCons(c: char, s: string)
    ensures Split([c] + s) ==
      if c == ' ' then [""] + Split(s) else [[c] + Split(s)[0]] + Split(s)[1..]
  {
    assert ([c] + s)[0] == c && ([c] + s)[1..] == s;
  }

  /** Splitting a text with one more space in it splits it into the two halves' pieces. */
  lemma {:induction false} SplitAppend(a: string, b: string)
    ensures Split(a + " " + b) == Split(a) + Split(b)
  {
    var rb := Split(b);
    if |a| == 0 {
      assert a + " " + b == [' '] + b;
      SplitCons(' ', b);
    } else {
      var c, tail := a[0], a[1..] + " " + b;
      assert a + " " + b == [c] + tail;
      assert a == [c] + a[1..];
      SplitAppend(a[1..], b);
      SplitCons(c, tail);
      SplitCons(c, a[1..]);
      if c != ' ' {
        PrependToFirst([c], Split(a[1..]), rb);
      }
    }
  }

  /** Extending the first piece commutes with appending further pieces. */
  lemma PrependToFirst(x: string, ra: seq<string>, rb: seq<string>)
    requires |ra| >= 1
    ensures [x + (ra + rb)[0]] + (ra + rb)[1..] == [x + ra[0]] + ra[1..] + rb
  {
    assert (ra + rb)[0] == ra[0];
    assert (ra + rb)[1..] == ra[1..] + rb;
  }

  /** A text without spaces is one piece. */
  lemma {:induction false} SplitNoSpace(t: string)
    requires ' ' !in t
    ensures Split(t) == [t]
  {
    if |t| > 0 {
      assert ' ' !in t[1..] by {
        forall i | 0 <= i < |t[1..]| ensures t[1..][i] != ' ' { assert t[1..][i] == t[i + 1]; }
      }
      SplitNoSpace(t[1..]);
      assert [t[0]] + t[1..] == t;
    }
  }

  /** Joining the pieces gives the text back. */
  lemma {:induction false} JoinSplit(s: string)
    ensures Join(Split(s)) == s
  {
    if |s| > 0 {
      JoinSplit(s[1..]);
      var rest := Split(s[1..]);
      if s[0] == ' ' {
        assert Split(s)[1..] == rest;
        assert s == " " + s[1..];
      } else {
        var r := Split(s);
        if |rest| == 1 {
          assert s == [s[0]] + rest[0];
        } else {
          assert r[1..] == rest[1..];
          assert Join(rest) == rest[0] + " " + Join(rest[1..]);
          assert s == [s[0]] + s[1..];
        }
      }
    }
  }

  /** Splitting a join of space-free pieces gives the pieces back. */
  lemma {:induction false} SplitJoin(ts: seq<string>)
    requires |ts| >= 1
    requires forall i :: 0 <= i < |ts| ==> ' ' !in ts[i]
    ensures Split(Join(ts)) == ts
  {
    SplitNoSpace(ts[0]);
    if |ts| > 1 {
      SplitJoin(ts[1..]);
      SplitAppend(ts[0], Join(ts[1..]));
      assert ts == [ts[0]] + ts[1..];
    }
  }
}
