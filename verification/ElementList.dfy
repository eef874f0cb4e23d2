/** HDDM_ElementList: all elements of one tag live in one host list, and every parent
    element holds a window into it, given by its first and last iterator and its size. */
module ElementList {

  // Iterators are the nodes themselves; END is the past-the-end iterator.
  const END: nat := 0

  predicate Distinct(s: seq<nat>) {
    forall i, j :: 0 <= i < j < |s| ==> s[i] != s[j]
  }

  predicate Fresh(a: seq<nat>, used: nat) {
    forall i :: 0 <= i < |a| ==> a[i] > used
  }

  // Where x is in s; |s| if nowhere, so END gets the position after the last node.
  function IndexOf(s: seq<nat>, x: nat): (i: nat)
    ensures i <= |s| && (i < |s| ==> s[i] == x)
    ensures forall j :: 0 <= j < i ==> s[j] != x
    ensures x in s ==> i < |s|
  {
    if s == [] || s[0] == x then 0 else 1 + IndexOf(s[1..], x)
  }

  lemma IndexOfNode(s: seq<nat>, i: nat)
    requires Distinct(s) && i < |s|
    ensures IndexOf(s, s[i]) == i
  {
  }

  function Spliced(s: seq<nat>, p: nat, a: seq<nat>): (r: seq<nat>)
    requires p <= |s|
  {
    s[..p] + a + s[p..]
  }

  lemma SpliceNothing(s: seq<nat>, p: nat)
    requires p <= |s|
    ensures Spliced(s, p, []) == s
  {
  }

  lemma SpliceElements(s: seq<nat>, p: nat, a: seq<nat>)
    requires p <= |s|
    ensures var r := Spliced(s, p, a);
            && |r| == |s| + |a|
            && (forall i :: 0 <= i < p ==> r[i] == s[i])
            && (forall i :: p <= i < |s| ==> r[i + |a|] == s[i])
            && (forall j :: 0 <= j < |a| ==> r[p + j] == a[j])
  {
  }

  predicate Disjoint(a: seq<nat>, s: seq<nat>) {
    forall i, j :: 0 <= i < |a| && 0 <= j < |s| ==> a[i] != s[j]
  }

  lemma SpliceDistinct(s: seq<nat>, p: nat, a: seq<nat>)
    requires Distinct(s) && Distinct(a) && p <= |s| && Disjoint(a, s)
    ensures Distinct(Spliced(s, p, a))
  {
    hide Spliced;
    SpliceElements(s, p, a);
    var r, n := Spliced(s, p, a), |a|;
    forall i, j | 0 <= i < j < |r|
      ensures r[i] != r[j]
    {
      if i < p {
        assert r[i] == s[i];
        if j < p { assert r[j] == s[j]; }
        else if j < p + n { assert r[p + (j - p)] == a[j - p]; }
        else { assert r[(j - n) + n] == s[j - n]; }
      } else if i < p + n {
        assert r[p + (i - p)] == a[i - p];
        if j < p + n { assert r[p + (j - p)] == a[j - p]; }
        else { assert r[(j - n) + n] == s[j - n]; }
      } else {
        assert r[(i - n) + n] == s[i - n] && r[(j - n) + n] == s[j - n];
      }
    }
  }

  // Inserting new nodes a shifts what is at p or after it.
  lemma SplicePosition(s: seq<nat>, p: nat, a: seq<nat>, x: nat)
    requires Distinct(s) && Distinct(a) && p <= |s| && Disjoint(a, s) && x in s
    ensures x in Spliced(s, p, a)
    ensures IndexOf(Spliced(s, p, a), x) == IndexOf(s, x) + if IndexOf(s, x) < p then 0 else |a|
  {
    hide Spliced;
    SpliceElements(s, p, a);
    SpliceDistinct(s, p, a);
    var i := IndexOf(s, x);
    IndexOfNode(Spliced(s, p, a), if i < p then i else i + |a|);
  }

  lemma SplicedMembers(s: seq<nat>, p: nat, a: seq<nat>)
    requires p <= |s|
    ensures forall x :: x in Spliced(s, p, a) ==> x in s || x in a
  {
  }

  lemma NewPosition(s: seq<nat>, p: nat, a: seq<nat>, j: nat)
    requires Distinct(s) && Distinct(a) && p <= |s| && Disjoint(a, s) && j < |a|
    ensures a[j] in Spliced(s, p, a) && IndexOf(Spliced(s, p, a), a[j]) == p + j
  {
    hide Spliced;
    SpliceElements(s, p, a);
    SpliceDistinct(s, p, a);
    IndexOfNode(Spliced(s, p, a), p + j);
  }

  predicate Moves(s: seq<nat>, r: seq<nat>, p: nat, n: int) {
    forall x :: x in s ==> x in r && IndexOf(r, x) == IndexOf(s, x) + if IndexOf(s, x) < p then 0 else n
  }

  predicate Placed(r: seq<nat>, p: nat, a: seq<nat>) {
    forall j :: 0 <= j < |a| ==> a[j] in r && IndexOf(r, a[j]) == p + j
  }

  lemma SpliceFacts(s: seq<nat>, p: nat, a: seq<nat>)
    requires Distinct(s) && Distinct(a) && p <= |s| && Disjoint(a, s)
    ensures Distinct(Spliced(s, p, a)) && |Spliced(s, p, a)| == |s| + |a|
    ensures Moves(s, Spliced(s, p, a), p, |a|) && Placed(Spliced(s, p, a), p, a)
    ensures forall x :: x in Spliced(s, p, a) ==> x in s || x in a
  {
    hide IndexOf, Spliced, Distinct, Disjoint;
    SpliceDistinct(s, p, a);
    SpliceElements(s, p, a);
    SplicedMembers(s, p, a);
    forall j | 0 <= j < |a|
      ensures a[j] in Spliced(s, p, a) && IndexOf(Spliced(s, p, a), a[j]) == p + j
    {
      NewPosition(s, p, a, j);
    }
    forall x | x in s
      ensures x in Spliced(s, p, a)
      ensures IndexOf(Spliced(s, p, a), x) == IndexOf(s, x) + if IndexOf(s, x) < p then 0 else |a|
    {
      SplicePosition(s, p, a, x);
    }
  }

  // The next n numbers after u.
  function NewNodes(u: nat, n: nat): (a: seq<nat>)
    ensures |a| == n && Distinct(a) && Fresh(a, u)
    ensures forall x :: x in a <==> u < x <= u + n
  {
    if n == 0 then
      []
    else
      var a := NewNodes(u, n - 1);
      assert forall i :: 0 <= i < |a| ==> a[i] in a;
      a + [u + n]
  }

  // Erasing the nodes from p up to q shifts what is at q or after it.
  lemma CutPosition(s: seq<nat>, p: nat, q: nat, x: nat)
    requires Distinct(s) && p <= q <= |s| && x in s && !(p <= IndexOf(s, x) < q)
    ensures Distinct(s[..p] + s[q..]) && x in s[..p] + s[q..]
    ensures IndexOf(s[..p] + s[q..], x) == IndexOf(s, x) - if IndexOf(s, x) < p then 0 else q - p
  {
    var r, i := s[..p] + s[q..], IndexOf(s, x);
    CutDistinct(s, p, q);
    IndexOfNode(r, if i < p then i else i - (q - p));
  }

  lemma CutDistinct(s: seq<nat>, p: nat, q: nat)
    requires Distinct(s) && p <= q <= |s|
    ensures Distinct(s[..p] + s[q..])
  {
    var r := s[..p] + s[q..];
    forall i, j | 0 <= i < j < |r|
      ensures r[i] != r[j]
    {
      assert r[i] == s[if i < p then i else i + (q - p)];
      assert r[j] == s[if j < p then j else j + (q - p)];
    }
  }

  lemma CutFacts<T>(s: seq<nat>, p: nat, q: nat, vals: map<nat, T>, used: nat)
    requires Distinct(s) && Known(s, vals, used) && p <= q <= |s|
    ensures var r := s[..p] + s[q..];
            && Distinct(r) && Known(r, vals, used) && IndexOf(s, END) == |s| && IndexOf(r, END) == |r|
            && forall x :: x in s && !(p <= IndexOf(s, x) < q) ==>
                 x in r && IndexOf(r, x) == IndexOf(s, x) - if IndexOf(s, x) < p then 0 else q - p
  {
    hide IndexOf, Distinct;
    var r := s[..p] + s[q..];
    CutDistinct(s, p, q);
    assert forall x :: x in r ==> x in s;
    EndIsLast(s, vals, used);
    EndIsLast(r, vals, used);
    forall x | x in s && !(p <= IndexOf(s, x) < q)
      ensures x in r && IndexOf(r, x) == IndexOf(s, x) - if IndexOf(s, x) < p then 0 else q - p
    {
      CutPosition(s, p, q, x);
    }
  }

  lemma NotThere(s: seq<nat>, x: nat)
    requires x !in s
    ensures IndexOf(s, x) == |s|
  {
  }

  function Part(s: seq<nat>, i: nat, j: nat): (r: seq<nat>)
    requires i <= j <= |s|
    ensures |r| == j - i
  {
    s[i..j]
  }

  lemma PartOfPart(s: seq<nat>, i: nat, n: nat, k: nat, c: nat)
    requires i + n <= |s| && k + c <= n
    ensures |Part(s, i, i + n)| == n
    ensures Part(s, i + k, i + k + c) == Part(Part(s, i, i + n), k, k + c)
  {
    var w, v, t := s[i..i + n], s[i..i + n][k..k + c], s[i + k..i + k + c];
    forall j | 0 <= j < c ensures v[j] == t[j] {
      assert w[k + j] == s[i + (k + j)];
    }
  }

  lemma SplitPart(s: seq<nat>, i: nat, j: nat, k: nat)
    requires i <= j <= k <= |s|
    ensures Part(s, i, k) == Part(s, i, j) + Part(s, j, k)
  {
  }

  lemma EmptyPart(s: seq<nat>, i: nat)
    requires i <= |s|
    ensures Part(s, i, i) == []
  {
  }

  predicate Known<T>(s: seq<nat>, vals: map<nat, T>, used: nat) {
    forall x :: x in s ==> END < x <= used && x in vals
  }

  lemma KnownNodes<T>(s: seq<nat>, vals: map<nat, T>, used: nat, n: nat, value: T, r: seq<nat>)
    requires Known(s, vals, used) && forall x :: x in r ==> x in s || x in NewNodes(used, n)
    ensures Known(r, Assigned(vals, NewNodes(used, n), value), used + n)
  {
    NewValues(s, vals, used, n, value);
  }

  lemma EndIsLast<T>(s: seq<nat>, vals: map<nat, T>, used: nat)
    requires Known(s, vals, used)
    ensures IndexOf(s, END) == |s|
  {
    NotThere(s, END);
  }

  ghost predicate Kept<T>(s: seq<nat>, vals: map<nat, T>, vals': map<nat, T>) {
    forall x :: x in s ==> x in vals && x in vals' && vals'[x] == vals[x]
  }

  function ValuesOf<T>(s: seq<nat>, vals: map<nat, T>): (vs: seq<T>)
    requires forall x :: x in s ==> x in vals
    ensures |vs| == |s| && forall i :: 0 <= i < |s| ==> vs[i] == vals[s[i]]
  {
    seq(|s|, i requires 0 <= i < |s| => vals[s[i]])
  }

  function Assigned<T>(vals: map<nat, T>, a: seq<nat>, v: T): (vals': map<nat, T>) {
    vals + map x | x in a :: v
  }

  function Copies<T>(n: nat, v: T): (vs: seq<T>) {
    seq(n, _ => v)
  }

  lemma NewValues<T>(s: seq<nat>, vals: map<nat, T>, used: nat, n: nat, value: T)
    requires Known(s, vals, used)
    ensures Disjoint(NewNodes(used, n), s)
    ensures var vals' := Assigned(vals, NewNodes(used, n), value);
            Kept(s, vals, vals') && forall x :: x in s || x in NewNodes(used, n) ==> END < x <= used + n && x in vals'
  {
    hide NewNodes, Distinct, Fresh;
    assert forall j :: 0 <= j < |s| ==> s[j] in s;
    assert forall j :: 0 <= j < n ==> NewNodes(used, n)[j] in NewNodes(used, n);
  }

  // std::list: nodes keep their identity when others are inserted or erased around them.
  class StdList<T> {
    var nodes: seq<nat>
    var vals: map<nat, T>
    var used: nat

    predicate Valid()
      reads this
    {
      Distinct(nodes) && Known(nodes, vals, used)
    }

    constructor ()
      ensures Valid() && nodes == []
    {
      nodes, vals, used := [], map[], 0;
    }

    function Pos(it: nat): (p: nat)
      reads this`nodes
      ensures p <= |nodes| && (p < |nodes| <==> it in nodes)
    {
      IndexOf(nodes, it)
    }

    function NodeAt(p: nat): (it: nat)
      reads this`nodes
    {
      if p < |nodes| then nodes[p] else END
    }

    predicate IsIterator(it: nat)
      reads this`nodes
    {
      it == END || it in nodes
    }

    function Begin(): nat
      reads this`nodes
    {
      NodeAt(0)
    }

    function Next(it: nat): (r: nat)
      requires Valid() && it in nodes
      reads this
      ensures IsIterator(r) && Pos(r) == Pos(it) + 1
    {
      PosOfNode(Pos(it) + 1);
      NodeAt(Pos(it) + 1)
    }

    function Prev(it: nat): (r: nat)
      requires Valid() && IsIterator(it) && Pos(it) > 0
      reads this
      ensures r in nodes && Pos(r) == Pos(it) - 1
    {
      PosOfNode(Pos(it) - 1);
      NodeAt(Pos(it) - 1)
    }

    lemma PosOfNode(p: nat)
      requires Valid() && p <= |nodes|
      ensures IsIterator(NodeAt(p)) && Pos(NodeAt(p)) == p
    {
      if p < |nodes| {
        IndexOfNode(nodes, p);
      } else {
        assert END !in nodes;
      }
    }

    // The elements themselves, in list order.
    ghost function Values(): (vs: seq<T>)
      requires Valid()
      reads this
    {
      ValuesOf(nodes, vals)
    }

    // operator+= of the iterator class: step by step in either direction.
    method Plus(it: nat, offset: int) returns (r: nat)
      requires Valid() && IsIterator(it) && 0 <= Pos(it) + offset <= |nodes|
      ensures IsIterator(r) && Pos(r) == Pos(it) + offset
    {
      r := it;
      var i := 0;
      if offset > 0 {
        while i < offset
          invariant 0 <= i <= offset && IsIterator(r) && Pos(r) == Pos(it) + i
        {
          r := Next(r);
          i := i + 1;
        }
      } else if offset < 0 {
        while i > offset
          invariant offset <= i <= 0 && IsIterator(r) && Pos(r) == Pos(it) + i
        {
          r := Prev(r);
          i := i - 1;
        }
      }
    }

    // insert(it, count, value): count new nodes before it.
    method Insert(it: nat, count: nat, value: T) returns (ghost added: seq<nat>)
      requires Valid() && IsIterator(it)
      modifies this
      ensures Valid() && |added| == count && Fresh(added, old(used)) && |nodes| == old(|nodes|) + count
      ensures nodes == Spliced(old(nodes), old(Pos(it)), added)
      ensures Shifted(old(Pos(it)), count)
      ensures forall j :: 0 <= j < count ==> added[j] in nodes && Pos(added[j]) == old(Pos(it)) + j
    {
      hide IndexOf, Spliced, Distinct, NewNodes, Disjoint, Fresh, Kept, Known, ValuesOf, Assigned;
      var p := Pos(it);
      var nodes' := NewNodes(used, count);
      added := nodes';
      NewValues(nodes, vals, used, count, value);
      SpliceFacts(nodes, p, nodes');
      KnownNodes(nodes, vals, used, count, value, Spliced(nodes, p, nodes'));
      EndIsLast(nodes, vals, used);
      vals := Assigned(vals, nodes', value);
      nodes := Spliced(nodes, p, nodes');
      used := used + count;
      EndIsLast(nodes, vals, used);
    }

    // All iterators are still good: those at p or after it have moved by count.
    twostate predicate Shifted(p: nat, count: int)
      reads this
    {
      && (forall x :: x in old(nodes) ==> x in nodes && Pos(x) == old(Pos(x)) + (if old(Pos(x)) < p then 0 else count))
      && Kept(old(nodes), old(vals), vals)
      && old(Pos(END)) == |old(nodes)| && Pos(END) == |nodes|
    }

    // erase(a, b): the nodes from a up to b.
    method Erase(a: nat, b: nat)
      requires Valid() && IsIterator(a) && IsIterator(b) && Pos(a) <= Pos(b)
      modifies this`nodes
      ensures Valid() && nodes == old(nodes)[..old(Pos(a))] + old(nodes)[old(Pos(b))..]
      ensures forall x :: x in old(nodes) && !(old(Pos(a)) <= old(Pos(x)) < old(Pos(b))) ==>
                && x in nodes
                && Pos(x) == old(Pos(x)) - (if old(Pos(x)) < old(Pos(a)) then 0 else old(Pos(b)) - old(Pos(a)))
      ensures old(Pos(END)) == |old(nodes)| && Pos(END) == |nodes|
    {
      hide IndexOf, Distinct, Known;
      var p, q := Pos(a), Pos(b);
      ghost var s, r := nodes, nodes[..p] + nodes[q..];
      CutFacts(nodes, p, q, vals, used);
      nodes := nodes[..p] + nodes[q..];
      assert forall x :: x in s && !(p <= IndexOf(s, x) < q) ==>
        x in r && IndexOf(r, x) == IndexOf(s, x) - if IndexOf(s, x) < p then 0 else q - p;
    }

    lemma BeginIsZero(it: nat)
      requires Valid() && IsIterator(it)
      ensures it == Begin() <==> Pos(it) == 0
    {
      PosOfNode(0);
    }

    // A node is known by its position.
    lemma SameNode(x: nat, y: nat)
      requires Valid() && x in nodes && y in nodes
      ensures x == y <==> Pos(x) == Pos(y)
    {
    }

    lemma SameIterator(x: nat, y: nat)
      requires Valid() && IsIterator(x) && IsIterator(y)
      ensures x == y <==> Pos(x) == Pos(y)
    {
      NotThere(nodes, END);
    }

    // The nodes that a loop from one iterator to another passes.
    method Walk(start: nat, stop: nat) returns (passed: seq<nat>)
      requires Valid() && IsIterator(start) && IsIterator(stop) && Pos(start) <= Pos(stop)
      ensures passed == Part(nodes, Pos(start), Pos(stop))
    {
      hide IndexOf;
      passed := [];
      var iter := start;
      SameIterator(iter, stop);
      while iter != stop
        invariant IsIterator(iter) && Pos(start) <= Pos(iter) <= Pos(stop)
        invariant passed == Part(nodes, Pos(start), Pos(iter))
        invariant iter == stop <==> Pos(iter) == Pos(stop)
        decreases Pos(stop) - Pos(iter)
      {
        passed := passed + [iter];
        iter := Next(iter);
        SameIterator(iter, stop);
      }
    }

    // The first and the last of n elements from number k on.
    method Ends(k: nat, n: nat) returns (first: nat, last: nat)
      requires Valid() && k + n <= |nodes|
      ensures IsIterator(first) && Pos(first) == k
      ensures IsIterator(last) && Pos(last) == k + if n == 0 then 0 else n - 1
    {
      hide Pos, NodeAt, Distinct, Known;
      PosOfNode(0);
      first := Plus(Begin(), k);
      last := Plus(first, n);
      if n != 0 { last := Prev(last); }
    }

    // Give the count elements from it on the same value.
    method Fill(it: nat, count: nat, value: T)
      requires Valid() && IsIterator(it) && Pos(it) + count <= |nodes|
      modifies this`vals
      ensures Valid() && Filled(old(vals), vals, Part(nodes, Pos(it), Pos(it) + count), value)
    {
      hide IndexOf;
      var iter := it;
      for n := 0 to count
        invariant Valid() && IsIterator(iter) && Pos(iter) == Pos(it) + n
        invariant Filled(old(vals), vals, Part(nodes, Pos(it), Pos(it) + n), value)
      {
        var x := iter;
        iter := Next(iter);
        assert nodes[Pos(it)..Pos(it) + n + 1] == nodes[Pos(it)..Pos(it) + n] + [x];
        vals := vals[x := value];
      }
    }
  }

  // The values of the nodes a are now v, and nothing else has changed.
  ghost predicate Filled<T>(vals: map<nat, T>, vals': map<nat, T>, a: seq<nat>, v: T) {
    vals'.Keys == vals.Keys && forall x :: x in vals ==> vals'[x] == if x in a then v else vals[x]
  }

  lemma FilledKeeps<T>(s: seq<nat>, used: nat, vals0: map<nat, T>, vals1: map<nat, T>, vals2: map<nat, T>,
                       a: seq<nat>, v: T)
    requires Known(s, vals0, used) && Kept(s, vals0, vals1) && Fresh(a, used) && Filled(vals1, vals2, a, v)
    ensures Kept(s, vals0, vals2)
  {
  }

  lemma FilledValues<T>(s: seq<nat>, used: nat, i: nat, vals: map<nat, T>, vals': map<nat, T>, a: seq<nat>, v: T)
    requires i + |a| <= |s| && Part(s, i, i + |a|) == a && Filled(vals, vals', a, v) && Known(s, vals', used)
    ensures forall x :: x in s ==> x in vals'
    ensures ValuesOf(s, vals')[i..i + |a|] == Copies(|a|, v)
  {
    var vs := ValuesOf(s, vals')[i..i + |a|];
    forall j | 0 <= j < |a| ensures vs[j] == v {
      assert s[i + j] == a[j] && s[i + j] in s;
    }
  }

  // The parts of a host list around and in a window of n nodes at i, after a cut of c at k.
  lemma ShrunkParts(s: seq<nat>, i: nat, n: nat, k: nat, c: nat)
    requires i + n <= |s| && k + c <= n
    ensures var r, w := s[..i + k] + s[i + k + c..], Part(s, i, i + n);
            && |r| == |s| - c && |w| == n
            && Part(r, 0, i) == Part(s, 0, i)
            && Part(r, i + n - c, |r|) == Part(s, i + n, |s|)
            && Part(r, i, i + n - c) == w[..k] + w[k + c..]
  {
    hide Part;
    var w, front, back := Part(s, i, i + n), Part(s, 0, i), Part(s, i + n, |s|);
    PartsAround(s, i, n, k);
    PartsAround(s, i, n, k + c);
    Weave(front, w[..k], [], w[k + c..], back);
    assert w[..k] + [] == w[..k] && s[..i + k] + [] == s[..i + k];
    Middle(front, w[..k] + w[k + c..], back);
  }

  // A window of n nodes at i, and what is before and after its element number k.
  lemma PartsAround(s: seq<nat>, i: nat, n: nat, k: nat)
    requires i + n <= |s| && k <= n
    ensures var w := Part(s, i, i + n);
            s[..i + k] == Part(s, 0, i) + w[..k] && s[i + k..] == w[k..] + Part(s, i + n, |s|)
  {
    SplitPart(s, 0, i, i + k);
    SplitPart(s, i + k, i + n, |s|);
    PartOfPart(s, i, n, 0, k);
    PartOfPart(s, i, n, k, n - k);
  }

  lemma Weave(a: seq<nat>, b: seq<nat>, x: seq<nat>, c: seq<nat>, d: seq<nat>)
    ensures (a + b) + x + (c + d) == a + (b + x + c) + d
  {
  }

  lemma Middle(a: seq<nat>, b: seq<nat>, c: seq<nat>)
    ensures var r := a + b + c;
            && Part(r, 0, |a|) == a && Part(r, |a|, |a| + |b|) == b && Part(r, |a| + |b|, |r|) == c
  {
  }

  // The parts of a host list around and in a window of n nodes at i, after a splice at k.
  lemma GrownParts(s: seq<nat>, i: nat, n: nat, k: nat, a: seq<nat>)
    requires i + n <= |s| && k <= n
    ensures var r, w := Spliced(s, i + k, a), Part(s, i, i + n);
            && |r| == |s| + |a| && |w| == n
            && Part(r, 0, i) == Part(s, 0, i)
            && Part(r, i + n + |a|, |r|) == Part(s, i + n, |s|)
            && Part(r, i, i + n + |a|) == w[..k] + a + w[k..]
            && Part(r, i + k, i + k + |a|) == a
  {
    hide Part;
    var w, front, back := Part(s, i, i + n), Part(s, 0, i), Part(s, i + n, |s|);
    PartsAround(s, i, n, k);
    Weave(front, w[..k], a, w[k..], back);
    Middle(front, w[..k] + a + w[k..], back);
    Middle(s[..i + k], a, s[i + k..]);
  }

  lemma PartIsSlice(s: seq<nat>, i: nat, j: nat)
    requires i <= j <= |s|
    ensures Part(s, i, j) == s[i..j] && (j == |s| ==> s[i..j] == s[i..])
  {
  }

  // Where a window of n elements is cut for an insertion at start.
  function CutAt(n: nat, start: int): (k: int) {
    if n == 0 || start == 0 then 0 else if start > 0 then start else n + start + 1
  }

  class Window<T> {
    const host: StdList<T>
    var first: nat
    var last: nat
    var size: nat

    predicate Valid()
      reads this, host
    {
      && host.Valid() && host.IsIterator(first) && host.IsIterator(last)
      && host.Pos(first) + size <= |host.nodes|
      && host.Pos(last) == host.Pos(first) + (if size == 0 then 0 else size - 1)
    }

    // The three parts of the host list.
    ghost function Before(): seq<nat>
      requires Valid()
      reads this, host
    {
      Part(host.nodes, 0, host.Pos(first))
    }

    ghost function Elements(): seq<nat>
      requires Valid()
      reads this, host
    {
      Part(host.nodes, host.Pos(first), host.Pos(first) + size)
    }

    ghost function After(): seq<nat>
      requires Valid()
      reads this, host
    {
      Part(host.nodes, host.Pos(first) + size, |host.nodes|)
    }

    // The window of an element under construction: empty, at the end of the host list.
    constructor (plist: StdList<T>)
      requires plist.Valid()
      ensures host == plist && Valid() && Elements() == [] && After() == [] && Before() == plist.nodes
    {
      host := plist;
      first, last, size := END, END, 0;
      new;
      NotThere(host.nodes, END);
    }

    // The list constructor: the range from start up to stop.
    constructor Range(plist: StdList<T>, start: nat, stop: nat)
      requires plist.Valid() && plist.IsIterator(start) && plist.IsIterator(stop)
      requires plist.Pos(start) <= plist.Pos(stop)
      ensures host == plist && Valid()
      ensures Elements() == Part(plist.nodes, plist.Pos(start), plist.Pos(stop))
      ensures first == start && size == plist.Pos(stop) - plist.Pos(start)
    {
      hide StdList.Pos, Distinct, Known, Part;
      host := plist;
      first, last, size := start, stop, 0;
      new;
      var begin := start;
      host.SameIterator(begin, stop);
      while begin != stop
        invariant host == plist && first == start && last == stop
        invariant host.IsIterator(begin) && host.Pos(begin) == host.Pos(start) + size <= host.Pos(stop)
        decreases host.Pos(stop) - host.Pos(begin)
      {
        host.SameIterator(begin, stop);
        begin := host.Next(begin);
        size := size + 1;
        host.SameIterator(begin, stop);
      }
      if size != 0 { last := host.Prev(last); }
    }

    function Begin(): (it: nat)
      reads this
    {
      first
    }

    function End(): (it: nat)
      requires Valid()
      reads this, host
      ensures host.IsIterator(it) && host.Pos(it) == host.Pos(first) + size
    {
      if size != 0 then host.Next(last) else last
    }

    // The elements of the window.
    ghost function Contents(): (vs: seq<T>)
      requires Valid()
      reads this, host
    {
      host.Values()[host.Pos(first)..host.Pos(first) + size]
    }

    // deflate: the distance of the window from the start of the host list.
    method Deflate() returns (ref: nat)
      requires Valid()
      ensures ref == |Before()|
    {
      ref := 0;
      var iter := host.Begin();
      host.PosOfNode(0);
      while iter != first
        invariant host.IsIterator(iter) && host.Pos(iter) == ref <= host.Pos(first)
        decreases host.Pos(first) - ref
      {
        host.SameIterator(iter, first);
        iter := host.Next(iter);
        ref := ref + 1;
      }
    }

    // inflate: a window from its distance and size.
    constructor Inflate(plist: StdList<T>, ref: nat, size: nat)
      requires plist.Valid() && ref + size <= |plist.nodes|
      ensures host == plist && Valid() && this.size == size && |Before()| == ref
      ensures Elements() == Part(plist.nodes, ref, ref + size)
    {
      hide StdList.Pos, StdList.NodeAt, StdList.IsIterator, StdList.Valid, Part;
      host := plist;
      this.size := size;
      var f, l := plist.Ends(ref, size);
      first, last := f, l;
    }

    /** deflate, then inflate on a list that holds the same elements: the new window has
        the contents of this one and lies between the same contents. */
    method Restore(copy: StdList<T>) returns (w: Window<T>)
      requires Valid() && copy.Valid() && copy.Values() == host.Values()
      ensures fresh(w) && w.host == copy && w.Valid()
      ensures w.Contents() == Contents()
      ensures |w.Before()| == |Before()| && |w.After()| == |After()|
      ensures copy == host ==> w.first == first && w.last == last
    {
      hide StdList.Pos, StdList.NodeAt, StdList.IsIterator, ValuesOf, Distinct, Known;
      var ref := Deflate();
      w := new Window.Inflate(copy, ref, size);
      if copy == host {
        host.SameIterator(w.first, first);
        host.SameIterator(w.last, last);
      }
    }

    // r is s with the nodes a between its first k and the rest.
    predicate Woven(s: seq<nat>, r: seq<nat>, k: nat, a: seq<nat>) {
      k <= |s| && r == s[..k] + a + s[k..]
    }

    // The window now is the old one with the nodes a between its first k and the rest.
    twostate predicate Grown(k: int, a: seq<nat>)
      reads this, host
    {
      && old(Valid()) && Valid() && 0 <= k <= old(size)
      && Before() == old(Before()) && After() == old(After()) && size == old(size) + |a|
      && Woven(old(Elements()), Elements(), k, a)
    }

    // insert(start, count) of the list class: where the new nodes go depends on start.
    method Insert(start: int, count: int, value: T) returns (it: nat, ghost added: seq<nat>)
      requires Valid() && (size == 0 || -(size as int) <= start <= size)
      modifies this`first, this`last, this`size, host
      ensures Valid()
      ensures |added| == (if count > 0 then count else 0) && Fresh(added, old(host.used))
      ensures Grown(CutAt(old(size), start), added)
      ensures && host.IsIterator(it) && host.Pos(it) + |added| <= |host.nodes|
              && Part(host.nodes, host.Pos(it), host.Pos(it) + |added|) == added
      ensures count > 0 ==> it == added[0] && host.Pos(it) == host.Pos(first) + CutAt(old(size), start)
      ensures KeepsValues()
    {
      hide StdList.Pos, StdList.Valid, Part, Spliced, KeepsValues, CutAt;
      it, added := InsertBranches(start, count, value);
      EmptyPart(host.nodes, host.Pos(it));
      GrownParts(old(host.nodes), old(host.Pos(first)), old(size), CutAt(old(size), start), added);
    }

    // add(count, start): new elements in place of the null pointers that insert leaves.
    method Add(count: nat, start: int, none: T, value: T) returns (sub: Window<T>, ghost added: seq<nat>)
      requires Valid() && (size == 0 || -(size as int) <= start <= size)
      modifies this`first, this`last, this`size, host
      ensures fresh(sub) && sub.host == host && sub.Valid() && sub.Elements() == added
      ensures |added| == count && Fresh(added, old(host.used))
      ensures Grown(CutAt(old(size), start), added) && KeepsValues() && sub.size == count
      ensures count > 0 ==> host.Pos(sub.first) == host.Pos(first) + CutAt(old(size), start)
      ensures sub.Contents() == Copies(count, value)
    {
      hide StdList.Pos, StdList.IsIterator, Part, CutAt, Filled, Kept, ValuesOf, Distinct, Known, Fresh, Copies, Grown;
      ghost var vals;
      sub, added, vals := AddNew(count, start, none, value);
      FilledValues(host.nodes, host.used, host.Pos(sub.first), vals, host.vals, added, value);
    }

    method AddNew(count: nat, start: int, none: T, value: T)
      returns (sub: Window<T>, ghost added: seq<nat>, ghost vals: map<nat, T>)
      requires Valid() && (size == 0 || -(size as int) <= start <= size)
      modifies this`first, this`last, this`size, host
      ensures fresh(sub) && sub.host == host && sub.Valid() && sub.Elements() == added && sub.size == count
      ensures |added| == count && Fresh(added, old(host.used))
      ensures Grown(CutAt(old(size), start), added) && KeepsValues()
      ensures count > 0 ==> host.Pos(sub.first) == host.Pos(first) + CutAt(old(size), start)
      ensures Filled(vals, host.vals, added, value)
    {
      hide StdList.Pos, StdList.IsIterator, Part, CutAt, Filled, Kept, Distinct, Known, Fresh, Woven;
      var it;
      it, added := Insert(start, count, none);
      vals := host.vals;
      sub := Renew(it, count, value);
      FilledKeeps(old(host.nodes), old(host.used), old(host.vals), vals, host.vals, added, value);
    }

    // The rest of add: elements for the new nodes, and the window of these.
    method Renew(it: nat, count: nat, value: T) returns (sub: Window<T>)
      requires Valid() && host.IsIterator(it) && host.Pos(it) + count <= |host.nodes|
      modifies host`vals
      ensures Valid() && fresh(sub) && sub.host == host && sub.Valid() && sub.first == it && sub.size == count
      ensures sub.Elements() == Part(host.nodes, host.Pos(it), host.Pos(it) + count)
      ensures Filled(old(host.vals), host.vals, Part(host.nodes, host.Pos(it), host.Pos(it) + count), value)
    {
      hide StdList.Pos, Part, Filled, Distinct, Known;
      var stop := host.Plus(it, count);
      host.Fill(it, count, value);
      sub := new Window.Range(host, it, stop);
    }

    method InsertBranches(start: int, count: int, value: T) returns (it: nat, ghost added: seq<nat>)
      requires Valid() && (size == 0 || -(size as int) <= start <= size)
      modifies this`first, this`last, this`size, host
      ensures Valid()
      ensures |added| == (if count > 0 then count else 0) && Fresh(added, old(host.used))
      ensures Inserted(CutAt(old(size), start), added) && host.IsIterator(it)
      ensures count > 0 ==> it == added[0] && host.Pos(it) == host.Pos(first) + CutAt(old(size), start)
      ensures KeepsValues()
    {
      hide StdList.Pos, Distinct, Spliced;
      if count <= 0 {
        it, added := InsertNothing(start);
      } else if size == 0 || start == 0 {
        it, added := InsertFront(count, value);
      } else if start == -1 {
        it, added := InsertBack(count, value);
      } else if start > 0 {
        it, added := InsertAfter(start, count, value);
      } else {
        it, added := InsertBeforeEnd(start, count, value);
      }
    }

    // The host list is the old one with the nodes a at position k of this window.
    twostate predicate Inserted(k: int, a: seq<nat>)
      reads this, host
    {
      && old(Valid()) && Valid() && 0 <= k <= old(size)
      && host.nodes == Spliced(old(host.nodes), old(host.Pos(first)) + k, a)
      && host.Pos(first) == old(host.Pos(first)) && size == old(size) + |a|
    }

    twostate predicate KeepsValues()
      reads this, host
    {
      Kept(old(host.nodes), old(host.vals), host.vals)
    }

    // What insert returns when there is nothing to insert.
    method At0(start: int) returns (it: nat)
      requires Valid() && (size == 0 || -(size as int) <= start <= size)
      ensures host.IsIterator(it)
      ensures host.Pos(it) == host.Pos(first) + if start >= 0 || size == 0 then (if size == 0 then 0 else start)
                                                else if start == -1 then size - 1 else size + start
    {
      if size == 0 || start == 0 {
        it := first;
      } else if start == -1 {
        it := last;
      } else if start > 0 {
        it := host.Plus(first, start);
      } else {
        it := host.Plus(last, start + 1);
      }
    }

    method InsertNothing(start: int) returns (it: nat, ghost added: seq<nat>)
      requires Valid() && (size == 0 || -(size as int) <= start <= size)
      ensures added == [] && host.IsIterator(it)
      ensures Inserted(CutAt(size, start), [])
    {
      hide StdList.Pos, StdList.IsIterator, StdList.Valid, Spliced;
      added := [];
      it := At0(start);
      SpliceNothing(host.nodes, host.Pos(first) + CutAt(size, start));
    }

    // The first two branches: the window is empty, or the new nodes go to its front.
    method InsertFront(count: nat, value: T) returns (it: nat, ghost added: seq<nat>)
      requires Valid() && count > 0
      modifies this`first, this`last, this`size, host
      ensures Valid() && |added| == count && Fresh(added, old(host.used)) && KeepsValues()
      ensures Inserted(0, added) && it == first == added[0]
    {
      hide StdList.Pos, StdList.NodeAt, Distinct, Known, Spliced, Kept, StdList.Next, StdList.Prev;
      added := PutFront(count, value);
      if size == 0 { last := host.Prev(last); }
      size := size + count;
      return first, added;
    }

    // The new nodes, by way of the node in front of the window, if there is one.
    method PutFront(count: nat, value: T) returns (ghost added: seq<nat>)
      requires Valid() && count > 0
      modifies this`first, host
      ensures host.Valid() && |added| == count && Fresh(added, old(host.used)) && KeepsValues()
      ensures host.nodes == Spliced(old(host.nodes), old(host.Pos(first)), added)
      ensures first == added[0] && first in host.nodes && host.Pos(first) == old(host.Pos(first))
      ensures |host.nodes| == old(|host.nodes|) + count
      ensures host.IsIterator(last) && host.Pos(last) == old(host.Pos(last)) + count
    {
      hide StdList.Pos, StdList.NodeAt, Distinct, Known, Spliced, Kept, StdList.Next, StdList.Prev;
      host.BeginIsZero(first);
      if first == host.Begin() {
        added := host.Insert(first, count, value);
        first := host.Begin();
        host.PosOfNode(0);
      } else {
        var at := first;
        first := host.Prev(first);
        added := host.Insert(at, count, value);
        first := host.Next(first);
      }
      host.SameNode(first, added[0]);
    }

    // The third branch: behind the last element.
    method InsertBack(count: nat, value: T) returns (it: nat, ghost added: seq<nat>)
      requires Valid() && count > 0 && size > 0
      modifies this`first, this`last, this`size, host
      ensures Valid() && |added| == count && Fresh(added, old(host.used)) && KeepsValues()
      ensures Inserted(old(size), added) && it == added[0] && host.Pos(it) == host.Pos(first) + old(size)
    {
      hide StdList.Pos, Distinct, Spliced, StdList.Next, StdList.Prev, StdList.NodeAt, Known, Kept;
      var pos := last;
      last := host.Next(last);
      added := host.Insert(last, count, value);
      last := host.Prev(last);
      size := size + count;
      pos := host.Next(pos);
      host.SameNode(pos, added[0]);
      return pos, added;
    }

    // The fourth branch: in front of element number start, counted from the front.
    method InsertAfter(start: nat, count: nat, value: T) returns (it: nat, ghost added: seq<nat>)
      requires Valid() && count > 0 && 0 < start <= size
      modifies this`first, this`last, this`size, host
      ensures Valid() && |added| == count && Fresh(added, old(host.used)) && KeepsValues()
      ensures Inserted(start, added) && it == added[0] && host.Pos(it) == host.Pos(first) + start
    {
      hide StdList.Pos, Distinct, Spliced, StdList.Next, StdList.Prev, StdList.NodeAt, Known, Kept;
      var pos := host.Plus(first, start - 1);
      var pos2 := pos;
      pos := host.Next(pos);
      host.SameNode(last, pos2);
      added := host.Insert(pos, count, value);
      if last == pos2 {
        pos := host.Prev(pos);
        last := pos;
      }
      size := size + count;
      pos2 := host.Next(pos2);
      host.SameNode(pos2, added[0]);
      return pos2, added;
    }

    // The last branch: in front of element number start + 1, counted from the back.
    method InsertBeforeEnd(start: int, count: nat, value: T) returns (it: nat, ghost added: seq<nat>)
      requires Valid() && count > 0 && -(size as int) <= start < -1
      modifies this`first, this`last, this`size, host
      ensures Valid() && |added| == count && Fresh(added, old(host.used)) && KeepsValues()
      ensures Inserted(old(size) + start + 1, added)
      ensures it == added[0] && host.Pos(it) == host.Pos(first) + old(size) + start + 1
    {
      hide StdList.Pos, Distinct, Spliced, StdList.Next, StdList.Prev, StdList.NodeAt, Known, Kept;
      var pos := host.Plus(last, start + 1);
      var pos2 := pos;
      pos := host.Next(pos);
      added := host.Insert(pos, count, value);
      size := size + count;
      pos2 := host.Next(pos2);
      host.SameNode(pos2, added[0]);
      return pos2, added;
    }

    // How erase reads its arguments.
    function EraseStart(start: int): int
      reads this
    {
      if start < 0 then start + size else if start < size then start else size
    }

    function EraseCount(start: int, count: int): int
      reads this
    {
      if count == -1 then size - EraseStart(start) else count
    }

    // Elements from start on, or from the end if start is negative: count of them, or with
    // count -1 all that are left.  This is what the assert statement of erase asks for.
    predicate Erasable(start: int, count: int)
      reads this
    {
      && -(size as int) <= start
      && if count == -1 then start < size
         else count > 0 && if start < 0 then start + count <= 0 else start + count <= size
    }

    lemma EraseArguments(start: int, count: int)
      ensures Erasable(start, count) <==>
                && EraseStart(start) >= 0 && EraseCount(start, count) > 0
                && EraseStart(start) + EraseCount(start, count) <= size
      ensures Erasable(start, count) ==>
                && EraseStart(start) == (if start < 0 then size + start else start)
                && EraseStart(start) + EraseCount(start, count)
                   == if count == -1 then size else if start < 0 then size + start + count else start + count
    {
    }

    // erase(start, count)
    method Erase(start: int, count: int) returns (it: nat)
      requires Valid() && Erasable(start, count)
      modifies this`first, this`last, this`size, host`nodes
      ensures Valid() && Before() == old(Before()) && After() == old(After())
      ensures var n := old(size);
              var k := if start < 0 then n + start else start;
              && 0 <= k < n && host.IsIterator(it) && host.Pos(it) == host.Pos(first) + k
              && if count == -1 then size == k && Elements() == old(Elements())[..k]
                 else
                   && count > 0 && k + count <= n && size == n - count
                   && Elements() == old(Elements())[..k] + old(Elements())[k + count..]
    {
      hide StdList.Pos, StdList.Valid, Part;
      EraseArguments(start, count);
      it := EraseBranches(EraseStart(start), EraseCount(start, count));
      ShrunkParts(old(host.nodes), old(host.Pos(first)), old(size), old(EraseStart(start)),
                  old(EraseCount(start, count)));
    }

    // del(count, start): the elements erased are exactly those destroyed before.
    method Del(count: int, start: int) returns (doomed: seq<nat>)
      requires Valid() && (size != 0 && count != 0 ==> Erasable(start, count))
      modifies this`first, this`last, this`size, host`nodes
      ensures Valid() && Before() == old(Before()) && After() == old(After())
      ensures old(size) == 0 || count == 0 ==> doomed == [] && unchanged(this) && unchanged(host)
      ensures old(size) != 0 && count != 0 ==>
                var n := old(size);
                var k := if start < 0 then n + start else start;
                && 0 <= k < n
                && if count == -1 then Elements() == old(Elements())[..k] && doomed == old(Elements())[k..]
                   else
                     && count > 0 && k + count <= n
                     && Elements() == old(Elements())[..k] + old(Elements())[k + count..]
                     && doomed == old(Elements())[k..k + count]
    {
      hide StdList.Pos, StdList.NodeAt, StdList.IsIterator, Distinct, Known, Part;
      doomed := [];
      if size == 0 || count == 0 { return; }
      EraseArguments(start, count);
      doomed := Destroyed(count, start);
      PartOfPart(host.nodes, host.Pos(first), size, EraseStart(start), EraseCount(start, count));
      PartIsSlice(Elements(), EraseStart(start), EraseStart(start) + EraseCount(start, count));
      var _ := Erase(start, count);
    }

    // The loop of del over the elements to destroy.
    method Destroyed(count: int, start: int) returns (doomed: seq<nat>)
      requires Valid() && count != 0 && EraseStart(start) >= 0 && EraseCount(start, count) > 0
      requires EraseStart(start) + EraseCount(start, count) <= size
      ensures var p := host.Pos(first) + EraseStart(start);
              doomed == Part(host.nodes, p, p + EraseCount(start, count))
    {
      hide StdList.Pos, Distinct, Known, Part;
      var iterBegin, iterEnd := Begin(), End();
      if start < 0 {
        iterBegin := host.Plus(iterEnd, start);
      } else {
        iterBegin := host.Plus(iterBegin, start);
      }
      if count >= 0 { iterEnd := host.Plus(iterBegin, count); }
      doomed := host.Walk(iterBegin, iterEnd);
    }

    method EraseBranches(k: nat, c: nat) returns (it: nat)
      requires Valid() && c > 0 && k + c <= size
      modifies this`first, this`last, this`size, host`nodes
      ensures Valid() && Erased(k, c) && host.IsIterator(it) && host.Pos(it) == host.Pos(first) + k
    {
      hide StdList.Pos, Distinct;
      if c == size {
        it := EraseAll();
      } else if k > 0 && c + k == size {
        it := EraseTail(k, c);
      } else {
        it := EraseInside(k, c);
      }
    }

    // The host list is the old one without c nodes from position k of this window on.
    twostate predicate Erased(k: nat, c: nat)
      reads this, host
    {
      && old(Valid()) && Valid() && k + c <= old(size)
      && var q := old(host.Pos(first)) + k;
      && host.nodes == old(host.nodes)[..q] + old(host.nodes)[q + c..]
      && host.Pos(first) == old(host.Pos(first)) && size == old(size) - c
    }

    method EraseAll() returns (it: nat)
      requires Valid() && size > 0
      modifies this`first, this`last, this`size, host`nodes
      ensures Valid() && Erased(0, old(size)) && it == first
    {
      hide StdList.Pos, Distinct, StdList.Next, StdList.Prev, StdList.NodeAt, Known;
      last := host.Next(last);
      host.Erase(first, last);
      first := last;
      size := 0;
      return first;
    }

    // Take c elements out of the host list, from number k of the window on.
    method CutOut(k: nat, c: nat) returns (stop: nat)
      requires Valid() && 0 < c && k + c <= size
      modifies host`nodes
      ensures host.Valid() && host.IsIterator(stop) && host.Pos(stop) == old(host.Pos(first)) + k
      ensures var q := old(host.Pos(first)) + k; host.nodes == old(host.nodes)[..q] + old(host.nodes)[q + c..]
      ensures k > 0 ==> host.IsIterator(first) && host.Pos(first) == old(host.Pos(first))
      ensures k + c < size ==> host.IsIterator(last) && host.Pos(last) == old(host.Pos(last)) - c
      ensures k + c < size ==> stop in host.nodes
    {
      hide StdList.Pos, StdList.NodeAt, Distinct, Known, StdList.Next, StdList.Prev;
      var pos := host.Plus(first, k);
      stop := host.Plus(pos, c);
      host.Erase(pos, stop);
    }

    method EraseTail(k: nat, c: nat) returns (it: nat)
      requires Valid() && 0 < k && 0 < c && k + c == size
      modifies this`first, this`last, this`size, host`nodes
      ensures Valid() && Erased(k, c) && host.IsIterator(it) && host.Pos(it) == host.Pos(first) + k
    {
      hide StdList.Pos, StdList.NodeAt, Distinct, Known, StdList.Next, StdList.Prev;
      var stop := CutOut(k, c);
      last := stop;
      var pos2 := last;
      if last != first { last := host.Prev(last); }
      size := size - c;
      return pos2;
    }

    // The two remaining branches differ in whether the first element goes.
    method EraseInside(k: nat, c: nat) returns (it: nat)
      requires Valid() && 0 < c && k + c < size
      modifies this`first, this`last, this`size, host`nodes
      ensures Valid() && Erased(k, c) && host.IsIterator(it) && host.Pos(it) == host.Pos(first) + k
    {
      hide StdList.Pos, StdList.NodeAt, Distinct, Known, StdList.Next, StdList.Prev;
      var stop := CutOut(k, c);
      if k == 0 { first := stop; }
      size := size - c;
      return stop;
    }
  }

  lemma {:induction false} IndexOfPrefix(s: seq<nat>, a: seq<nat>, x: nat)
    requires x in s
    ensures IndexOf(s + a, x) == IndexOf(s, x)
  {
    if s[0] != x {
      assert (s + a)[1..] == s[1..] + a;
      IndexOfPrefix(s[1..], a, x);
    }
  }

  // The windows ws divide the host list: number i lies between starts[i] and starts[i + 1].
  ghost predicate SideBySide<T>(plist: StdList<T>, ws: seq<Window<T>>, starts: seq<nat>)
    reads plist, ws
  {
    && plist.Valid() && |starts| == |ws| + 1 && starts[0] == 0 && starts[|ws|] == |plist.nodes|
    && forall i :: 0 <= i < |ws| ==> Lies(plist, ws[i], starts[i], starts[i + 1])
  }

  ghost predicate Lies<T>(plist: StdList<T>, w: Window<T>, start: nat, stop: nat)
    reads plist, w
  {
    w.host == plist && w.Valid() && w.size > 0 && plist.Pos(w.first) == start && start + w.size == stop
  }

  /** Every list of a new element starts as an empty window at the end of the host list.
      Filling it adds to the end of the list, leaves the other windows where they are, and
      puts the new window behind them. */
  method Append<T>(plist: StdList<T>, ghost ws: seq<Window<T>>, ghost starts: seq<nat>, count: nat, none: T, value: T)
    returns (w: Window<T>)
    requires SideBySide(plist, ws, starts) && count > 0
    modifies plist
    ensures fresh(w) && SideBySide(plist, ws + [w], starts + [|plist.nodes|])
    ensures plist.Values() == old(plist.Values()) + Copies(count, value)
  {
    hide StdList.Pos, StdList.Valid, Copies;
    ghost var nodes := plist.nodes;
    w := AppendWindow(plist, count, none, value);
    forall i | 0 <= i < |ws| ensures Lies(plist, ws[i], starts[i], starts[i + 1]) {
      assert old(Lies(plist, ws[i], starts[i], starts[i + 1]));
      assert ws[i].first in nodes && ws[i].last in nodes;
    }
  }

  method AppendWindow<T>(plist: StdList<T>, count: nat, none: T, value: T) returns (w: Window<T>)
    requires plist.Valid() && count > 0
    modifies plist
    ensures plist.Valid() && fresh(w) && Lies(plist, w, |old(plist.nodes)|, |plist.nodes|)
    ensures forall x :: x in old(plist.nodes) ==> x in plist.nodes && plist.Pos(x) == old(plist.Pos(x))
    ensures plist.Values() == old(plist.Values()) + Copies(count, value)
  {
    hide StdList.Pos, StdList.NodeAt, StdList.IsIterator, IndexOf, Copies, Distinct, Known, Kept, Part, ValuesOf;
    ghost var s, vals, used := plist.nodes, plist.vals, plist.used;
    AtTheEnd(plist, s);
    w := new Window(plist);
    FillEmpty(w, count, none, value);
    AtTheEnd(plist, s);
    ExtendedValues(s, used, vals, plist.nodes, plist.used, plist.vals, count, value);
  }

  // Add to an empty window at the end of its host list.
  method FillEmpty<T>(w: Window<T>, count: nat, none: T, value: T)
    requires w.Valid() && count > 0 && w.size == 0 && w.Before() == w.host.nodes && w.Elements() == w.After() == []
    modifies w`first, w`last, w`size, w.host
    ensures w.Valid() && w.size == count && w.host.Pos(w.first) == |old(w.host.nodes)|
    ensures old(w.host.nodes) <= w.host.nodes && |w.host.nodes| == |old(w.host.nodes)| + count
    ensures Kept(old(w.host.nodes), old(w.host.vals), w.host.vals)
    ensures w.Contents() == Copies(count, value)
  {
    hide StdList.Pos, StdList.NodeAt, StdList.IsIterator, IndexOf, Copies, Distinct, Known, Kept, Part, ValuesOf,
         Spliced, Fresh;
    ghost var s := w.host.nodes;
    var sub, added := w.Add(count, -1, none, value);
    assert w.Elements() == [][..0] + added + [][0..] == added;
    Rejoined(s, w.host.nodes, w.host.Pos(w.first), added);
  }

  lemma AtTheEnd<T>(plist: StdList<T>, s: seq<nat>)
    requires s <= plist.nodes
    ensures forall x :: x in s ==> x in plist.nodes && plist.Pos(x) == IndexOf(s, x)
  {
    var a := plist.nodes[|s|..];
    assert plist.nodes == s + a;
    forall x | x in s ensures IndexOf(plist.nodes, x) == IndexOf(s, x) { IndexOfPrefix(s, a, x); }
  }

  lemma Rejoined(s: seq<nat>, r: seq<nat>, n: nat, a: seq<nat>)
    requires n + |a| <= |r| && Part(r, 0, n) == s && Part(r, n, n + |a|) == a && Part(r, n + |a|, |r|) == []
    ensures s <= r && n == |s| && |r| == |s| + |a|
  {
  }

  lemma ExtendedValues<T>(s: seq<nat>, used: nat, vals: map<nat, T>, r: seq<nat>, used': nat, vals': map<nat, T>,
                          n: nat, v: T)
    requires s <= r && |r| == |s| + n && Kept(s, vals, vals') && Known(s, vals, used) && Known(r, vals', used')
    requires ValuesOf(r, vals')[|s|..|s| + n] == Copies(n, v)
    ensures ValuesOf(r, vals') == ValuesOf(s, vals) + Copies(n, v)
  {
    var vs, ws := ValuesOf(r, vals'), ValuesOf(s, vals);
    forall i | 0 <= i < |s| ensures vs[i] == ws[i] { assert r[i] == s[i] && s[i] in s; }
    assert vs == vs[..|s|] + vs[|s|..] && vs[..|s|] == ws;
  }
}
