/** Sequences that contain a given sequence at a given position. */
module Slices {
  // b holds the elements e starting at position p.
  predicate At<T(==)>(b: seq<T>, p: nat, e: seq<T>)
    decreases |e|
  {
    p <= |b| && (e != [] ==> p < |b| && b[p] == e[0] && At(b, p + 1, e[1..]))
  }

  lemma {:induction false} AtConcat<T>(b: seq<T>, p: nat, e: seq<T>, f: seq<T>)
    ensures At(b, p, e + f) <==> At(b, p, e) && At(b, p + |e|, f)
    decreases |e|
  {
    if e == [] {
      assert e + f == f;
      if At(b, p, f) { AtInside(b, p, f); }
    } else {
      assert (e + f)[1..] == e[1..] + f;
      AtConcat(b, p + 1, e[1..], f);
    }
  }

  lemma {:induction false} AtInside<T>(b: seq<T>, p: nat, e: seq<T>)
    requires At(b, p, e)
    ensures p + |e| <= |b| && b[p..p + |e|] == e
    decreases |e|
  {
    if e != [] {
      AtInside(b, p + 1, e[1..]);
      assert b[p..p + |e|] == [b[p]] + b[p + 1..p + |e|];
      assert e == [e[0]] + e[1..];
    }
  }

  lemma {:induction false} AtSlice<T>(b: seq<T>, p: nat, n: nat)
    requires p + n <= |b|
    ensures At(b, p, b[p..p + n])
    decreases n
  {
    if n > 0 {
      AtSlice(b, p + 1, n - 1);
      assert b[p..p + n][1..] == b[p + 1..p + n];
    }
  }
}
