/** What several modules use. */
module Basics {
  datatype Option<T> = None | Some(value: T)

  function Min(a: nat, b: nat): (m: nat) {
    if a < b then a else b
  }

  // ------------------------------------------------- multisets

  lemma Cancel<T>(a: multiset<T>, b: multiset<T>, c: multiset<T>, d: multiset<T>)
    requires a + b == c + (b + d)
    ensures a == c + d
  {
    forall x ensures a[x] == (c + d)[x] {
      assert (a + b)[x] == (c + (b + d))[x];
    }
  }

  lemma CancelSame<T>(a: multiset<T>, b: multiset<T>, c: multiset<T>)
    requires a + b == c + b
    ensures a == c
  {
    Cancel(a, b, c, multiset{});
  }

  lemma Removed<T>(s: seq<T>, i: nat)
    requires i < |s|
    ensures multiset(s) == multiset(s[..i] + s[i + 1..]) + multiset{s[i]}
  {
    assert s == s[..i] + ([s[i]] + s[i + 1..]);
  }

  function Map<S, T>(f: S -> T, s: seq<S>): (r: seq<T>)
    ensures |r| == |s|
  {
    seq(|s|, i requires 0 <= i < |s| => f(s[i]))
  }

  lemma MapConcat<S, T>(f: S -> T, a: seq<S>, b: seq<S>)
    ensures Map(f, a + b) == Map(f, a) + Map(f, b)
  {
  }

  lemma MapRemoved<S, T>(f: S -> T, s: seq<S>, i: nat)
    requires i < |s|
    ensures multiset(Map(f, s)) == multiset(Map(f, s[..i] + s[i + 1..])) + multiset{f(s[i])}
  {
    Removed(Map(f, s), i);
    assert Map(f, s)[..i] + Map(f, s)[i + 1..] == Map(f, s[..i] + s[i + 1..]);
  }

  // Order does not matter to a map.
  lemma {:induction false} SameMap<S, T>(f: S -> T, a: seq<S>, b: seq<S>)
    requires multiset(a) == multiset(b)
    ensures multiset(Map(f, a)) == multiset(Map(f, b))
    decreases |a|
  {
    hide Map;
    if a == [] {
      assert |multiset(b)| == |b|;
    } else {
      var x := a[0];
      assert x in multiset(a);
      var i :| 0 <= i < |b| && b[i] == x;
      var a', b' := a[..0] + a[1..], b[..i] + b[i + 1..];
      Removed(a, 0);
      Removed(b, i);
      CancelSame(multiset(a'), multiset{x}, multiset(b'));
      SameMap(f, a', b');
      MapRemoved(f, a, 0);
      MapRemoved(f, b, i);
    }
  }
}
