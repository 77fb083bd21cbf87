/** Pieces of sequences by position. */
module Sequences {

  lemma Associates<T>(a: seq<T>, b: seq<T>, c: seq<T>)
    ensures (a + b) + c == a + (b + c)
  {
  }

  /** A string is what s holds from a position on. */
  ghost predicate At(s: string, p: nat, x: string) {
    p + |x| <= |s| && forall i :: 0 <= i < |x| ==> x[i] == s[p + i]
  }

  lemma AtConcat(s: string, p: nat, x: string, y: string)
    requires At(s, p, x + y)
    ensures At(s, p, x) && At(s, p + |x|, y)
  {
    assert forall i :: 0 <= i < |x| ==> x[i] == (x + y)[i];
    assert forall i :: 0 <= i < |y| ==> y[i] == (x + y)[|x| + i];
  }

  lemma AtSlice(s: string, p: nat, x: string)
    requires At(s, p, x)
    ensures s[p..p + |x|] == x
  {
  }
}
