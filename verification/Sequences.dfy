/** Facts about sequences that several components share. */
module Sequences {

  lemma {:induction false} Reassociate<T>(a: seq<T>, b: seq<T>, c: seq<T>)
    ensures a + b + c == a + (b + c)
  {
    assert a + b + c == a + (b + c);
  }

  /** The four parts of a concatenation, cut out again. */
  lemma {:induction false} FourParts<T>(a: seq<T>, b: seq<T>, c: seq<T>, d: seq<T>)
    ensures var s := a + b + c + d;
      var x, y, z := |a| + |b|, |a| + |b| + |c|, |a| + |b| + |c| + |d|;
      |s| == z && s[..|a|] == a && s[|a|..x] == b && s[x..y] == c && s[y..z] == d
  {
  }
}
