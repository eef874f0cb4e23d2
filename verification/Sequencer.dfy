/** The reader of the generated runtime.  A codon tree says, for every tag of the file,
    which member of the reader's class takes its data.  Decoding runs in two phases that
    share one operator: while the sequencing flag is up it only registers members with
    the current codon, afterwards it decodes into them. */
module Sequencer {
  import opened Xdr
  import opened Model

  // What the schema matcher computes for one tag of the file: the position (from 1) of
  // the matching member in the reader's class, 0 if there is none, and the child tags.
  datatype Gene = Gene(order: nat, tagname: string, sequence: seq<Gene>)

  // The orders in g stay within the members of the reader's class m.
  predicate GeneFits(g: Gene, m: Tag)
    decreases g
  {
    forall i :: 0 <= i < |g.sequence| ==>
      var c := g.sequence[i];
      && c.order <= |m.children|
      && (c.order == 0 ==> c.sequence == [])
      && (c.order > 0 ==> GeneFits(c, m.children[c.order - 1]))
  }

  lemma OrderFits(g: Gene, m: Tag, i: nat)
    requires GeneFits(g, m) && i < |g.sequence|
    ensures g.sequence[i].order <= |m.children|
    ensures g.sequence[i].order > 0 ==> GeneFits(g.sequence[i], m.children[g.sequence[i].order - 1])
  {
  }

  // ------------------------------------------------- the one-phase decoder

  function ReadValue(w: Wire, b: seq<byte>, p: nat, v0: Value): (r: (Value, nat))
    ensures r.1 >= p
  {
    match w
    case Literal => (v0, p)
    case Word => var (n, q) := ReadWord(b, p, 4); (Num(n), q)
    case Quad => var (n, q) := ReadWord(b, p, 8); (Num(n), q)
    case Pair =>
      var (hi, q) := ReadWord(b, p, 4);
      var (lo, q') := ReadWord(b, q, 4);
      (Num(hi * TWO32 + lo), q')
    case Chars =>
      var (s, q) := ReadText(b, p, if v0.Text? then v0.s else []);
      (Text(s), q)
  }

  // The values from number i on, read in place of vs[i..].
  function ReadValues(ws: seq<Wire>, b: seq<byte>, p: nat, vs: seq<Value>, i: nat): (r: (seq<Value>, nat))
    requires |ws| == |vs| && i <= |ws|
    ensures |r.0| == |ws| - i && r.1 >= p
    decreases |ws| - i
  {
    if i == |ws| then ([], p)
    else
      var (v, q) := ReadValue(ws[i], b, p, vs[i]);
      var (rest, q') := ReadValues(ws, b, q, vs, i + 1);
      ([v] + rest, q')
  }

  predicate Shaped(m: Tag, r: Rec) {
    |r.vals| == |Columns(m.attrs)| && |r.lists| == |m.children|
  }

  /** Decode one element of class m in place of r0, and return the position after it. */
  function ParseElem(g: Gene, m: Tag, b: seq<byte>, p: nat, r0: Rec): (r: (Rec, nat))
    requires GeneFits(g, m) && Shaped(m, r0)
    ensures Shaped(m, r.0) && r.1 >= p
    decreases g, 1, 0
  {
    var (vs, q) := ReadValues(Columns(m.attrs), b, p, r0.vals, 0);
    ParseChildren(g, m, b, q, Rec(vs, r0.lists), 0)
  }

  // Decode the blocks of the file's child tags from number i on.
  function ParseChildren(g: Gene, m: Tag, b: seq<byte>, p: nat, r0: Rec, i: nat): (r: (Rec, nat))
    requires GeneFits(g, m) && Shaped(m, r0) && i <= |g.sequence|
    ensures Shaped(m, r.0) && r.1 >= p && r.0.vals == r0.vals
    decreases g, 0, |g.sequence| - i
  {
    if i == |g.sequence| then (r0, p)
    else
      var (size, q) := ReadInt(b, p);
      if size <= 0 then ParseChildren(g, m, b, q, r0, i + 1)
      else ParseChildren(g, m, b, q + size, Deposit(g.sequence[i], m, b, q, r0), i + 1)
  }

  // The element after the block at q went to the member that codon c names.
  function Deposit(c: Gene, m: Tag, b: seq<byte>, q: nat, r0: Rec): (r: Rec)
    requires c.order <= |m.children| && Shaped(m, r0)
    requires c.order > 0 ==> GeneFits(c, m.children[c.order - 1])
    ensures Shaped(m, r) && r.vals == r0.vals
    decreases c, 4, 0
  {
    if c.order == 0 then r0
    else r0.(lists := r0.lists[c.order - 1 := ParseList(c, m.children[c.order - 1], b, q).0])
  }

  function ParseList(g: Gene, m: Tag, b: seq<byte>, p: nat): (r: (seq<Rec>, nat))
    requires GeneFits(g, m)
    ensures r.1 >= p
    decreases g, 3, 0
  {
    if Repeats(m) then
      var (n, q) := ReadInt(b, p);
      ParseElems(g, m, b, q, if n > 0 then n else 0)
    else
      var (e, q) := ParseElem(g, m, b, p, Blank(m));
      ([e], q)
  }

  function ParseElems(g: Gene, m: Tag, b: seq<byte>, p: nat, n: nat): (r: (seq<Rec>, nat))
    requires GeneFits(g, m)
    ensures |r.0| == n && r.1 >= p
    ensures forall j :: 0 <= j < n ==> Shaped(m, r.0[j])
    decreases g, 2, n
  {
    if n == 0 then ([], p)
    else
      var (e, q) := ParseElem(g, m, b, p, Blank(m));
      var (es, q') := ParseElems(g, m, b, q, n - 1);
      ([e] + es, q')
  }

  lemma ParseStep(g: Gene, m: Tag, b: seq<byte>, p: nat, r0: Rec, i: nat, size: int, q: nat)
    requires GeneFits(g, m) && Shaped(m, r0) && i < |g.sequence| && ReadInt(b, p) == (size, q)
    ensures ParseChildren(g, m, b, p, r0, i)
            == if size <= 0 then ParseChildren(g, m, b, q, r0, i + 1)
               else ParseChildren(g, m, b, q + size, Deposit(g.sequence[i], m, b, q, r0), i + 1)
  {
  }

  lemma ParseElemsStep(g: Gene, m: Tag, b: seq<byte>, p: nat, n: nat, e: Rec, q: nat)
    requires GeneFits(g, m) && n > 0 && ParseElem(g, m, b, p, Blank(m)) == (e, q)
    ensures ParseElems(g, m, b, p, n)
            == ([e] + ParseElems(g, m, b, q, n - 1).0, ParseElems(g, m, b, q, n - 1).1)
  {
  }

  // A member to which no block goes stays as it is.
  lemma {:induction false} Untouched(g: Gene, m: Tag, b: seq<byte>, p: nat, x: Rec, i: nat, k: nat)
    requires GeneFits(g, m) && Shaped(m, x) && i <= |g.sequence| && k < |m.children|
    requires forall j :: i <= j < |g.sequence| ==> g.sequence[j].order != k + 1
    ensures ParseChildren(g, m, b, p, x, i).0.lists[k] == x.lists[k]
    decreases |g.sequence| - i
  {
    hide Columns, ParseList, GeneFits;
    if i < |g.sequence| {
      var (size, q) := ReadInt(b, p);
      OrderFits(g, m, i);
      ParseStep(g, m, b, p, x, i, size, q);
      if size <= 0 {
        Untouched(g, m, b, q, x, i + 1, k);
      } else {
        Untouched(g, m, b, q + size, Deposit(g.sequence[i], m, b, q, x), i + 1, k);
      }
    }
  }

  lemma DepositHere(c: Gene, m: Tag, b: seq<byte>, q: nat, x: Rec, k: nat)
    requires c.order == k + 1 <= |m.children| && GeneFits(c, m.children[k]) && Shaped(m, x)
    ensures Deposit(c, m, b, q, x).lists[k] == ParseList(c, m.children[k], b, q).0
  {
    hide Columns, ParseList, GeneFits;
  }

  // ------------------------------------------------- addresses in a record

  // One step down from an element: element number elem of member number list.
  datatype Step = Step(list: nat, elem: nat)

  predicate InTree(r: Rec, a: seq<Step>)
    decreases |a|
  {
    a != [] ==>
      && a[0].list < |r.lists|
      && a[0].elem < |r.lists[a[0].list]|
      && InTree(r.lists[a[0].list][a[0].elem], a[1..])
  }

  function Get(r: Rec, a: seq<Step>): (e: Rec)
    requires InTree(r, a)
    decreases |a|
  {
    if a == [] then r else Get(r.lists[a[0].list][a[0].elem], a[1..])
  }

  function Put(r: Rec, a: seq<Step>, e: Rec): (r': Rec)
    requires InTree(r, a)
    ensures InTree(r', a)
    decreases |a|
  {
    if a == [] then e
    else
      var k, n := a[0].list, a[0].elem;
      r.(lists := r.lists[k := r.lists[k][n := Put(r.lists[k][n], a[1..], e)]])
  }

  lemma {:induction false} GetPut(r: Rec, a: seq<Step>, e: Rec)
    requires InTree(r, a)
    ensures Get(Put(r, a, e), a) == e
    decreases |a|
  {
    if a != [] {
      GetPut(r.lists[a[0].list][a[0].elem], a[1..], e);
    }
  }

  lemma {:induction false} PutPut(r: Rec, a: seq<Step>, e: Rec, f: Rec)
    requires InTree(r, a)
    ensures Put(Put(r, a, e), a, f) == Put(r, a, f)
    decreases |a|
  {
    if a != [] {
      var k, n := a[0].list, a[0].elem;
      PutPut(r.lists[k][n], a[1..], e, f);
      var r1, x := Put(r, a, e), Put(r.lists[k][n], a[1..], f);
      assert r1.lists[k][n := x] == r.lists[k][n := x];
      assert r1.lists[k := r.lists[k][n := x]] == r.lists[k := r.lists[k][n := x]];
    }
  }

  lemma {:induction false} PutGet(r: Rec, a: seq<Step>)
    requires InTree(r, a)
    ensures Put(r, a, Get(r, a)) == r
    decreases |a|
  {
    if a != [] {
      var k, n := a[0].list, a[0].elem;
      PutGet(r.lists[k][n], a[1..]);
      assert r.lists[k][n := r.lists[k][n]] == r.lists[k];
      assert r.lists[k := r.lists[k]] == r.lists;
    }
  }

  // Addressing a child of the element at a is addressing the child within that element.
  lemma {:induction false} DescendGet(r: Rec, a: seq<Step>, s: Step)
    requires InTree(r, a)
    ensures InTree(r, a + [s]) <==> InTree(Get(r, a), [s])
    ensures InTree(r, a + [s]) ==> Get(r, a + [s]) == Get(r, a).lists[s.list][s.elem]
    decreases |a|
  {
    if a != [] {
      DescendGet(r.lists[a[0].list][a[0].elem], a[1..], s);
      assert (a + [s])[1..] == a[1..] + [s];
    } else {
      assert a + [s] == [s] && [s][1..] == [];
    }
  }

  lemma {:induction false} DescendPut(r: Rec, a: seq<Step>, s: Step, e: Rec)
    requires InTree(r, a) && InTree(r, a + [s])
    ensures InTree(Get(r, a), [s])
    ensures Put(r, a + [s], e) == Put(r, a, Put(Get(r, a), [s], e))
    decreases |a|
  {
    DescendGet(r, a, s);
    if a != [] {
      assert (a + [s])[1..] == a[1..] + [s];
      DescendPut(r.lists[a[0].list][a[0].elem], a[1..], s, e);
    } else {
      assert a + [s] == [s] && [s][1..] == [];
    }
  }

  function SetList(e: Rec, k: nat, es: seq<Rec>): (r: Rec)
    requires k < |e.lists|
  {
    e.(lists := e.lists[k := es])
  }

  lemma SetTwice(e: Rec, k: nat, es: seq<Rec>, fs: seq<Rec>)
    requires k < |e.lists|
    ensures SetList(SetList(e, k, es), k, fs) == SetList(e, k, fs)
  {
    assert e.lists[k := es][k := fs] == e.lists[k := fs];
  }

  // ------------------------------------------------- the two-phase machine

  // What a streamable reference can point to: nothing, an element, or the list or link
  // member number k of an element; m is the class of the element or of the members.
  datatype Target =
    | NullTarget
    | ElemTarget(at: seq<Step>, m: Tag)
    | ListTarget(at: seq<Step>, k: nat, m: Tag)

  class Codon {
    const order: nat
    const tagname: string
    const sequence: seq<Codon>
    var target: seq<Target>
    ghost const gene: Gene
    ghost const repr: set<Codon>

    ghost predicate Valid()
      decreases repr
    {
      && this in repr
      && gene.order == order && gene.tagname == tagname
      && |gene.sequence| == |sequence|
      && (forall i :: 0 <= i < |sequence| ==>
            && sequence[i].repr < repr && this !in sequence[i].repr
            && sequence[i].gene == gene.sequence[i]
            && sequence[i].Valid())
    }

    constructor (order: nat, tagname: string, sequence: seq<Codon>)
      requires forall c :: c in sequence ==> c.Valid()
      ensures Valid() && fresh(repr - set c, x | c in sequence && x in c.repr :: x)
      ensures gene == Gene(order, tagname, seq(|sequence|, i requires 0 <= i < |sequence| => sequence[i].gene))
    {
      this.order := order;
      this.tagname := tagname;
      this.sequence := sequence;
      this.target := [];
      this.gene := Gene(order, tagname, seq(|sequence|, i requires 0 <= i < |sequence| => sequence[i].gene));
      this.repr := {this} + set c, x | c in sequence && x in c.repr :: x;
      new;
      forall i | 0 <= i < |sequence|
        ensures sequence[i].repr < repr
      {
        assert sequence[i] in sequence;
        assert sequence[i].repr <= repr && this in repr && this !in sequence[i].repr;
      }
    }
  }

  // The reference can be followed: its element exists and has the members of its class.
  predicate Reachable(root: Rec, t: Target) {
    match t
    case NullTarget => true
    case ElemTarget(a, m) => InTree(root, a) && Shaped(m, Get(root, a))
    case ListTarget(a, k, m) => InTree(root, a) && k < |Get(root, a).lists|
  }

  predicate TargetFits(g: Gene, t: Target) {
    match t
    case NullTarget => g.sequence == []
    case ElemTarget(_, m) => GeneFits(g, m)
    case ListTarget(_, _, m) => GeneFits(g, m)
  }

  // The members of class m at address a, in the order in which streamer registers them.
  function Members(a: seq<Step>, m: Tag): (ts: seq<Target>)
    ensures |ts| == |m.children|
    ensures forall k :: 0 <= k < |ts| ==> ts[k] == ListTarget(a, k, m.children[k])
  {
    seq(|m.children|, k requires 0 <= k < |m.children| => ListTarget(a, k, m.children[k]))
  }

  // The effect of decoding at position p into the target t.
  function Decoded(g: Gene, t: Target, root: Rec, b: seq<byte>, p: nat): (r: (Rec, nat))
    requires Reachable(root, t) && TargetFits(g, t)
  {
    match t
    case NullTarget => (root, p)
    case ElemTarget(a, m) =>
      var (e, q) := ParseElem(g, m, b, p, Get(root, a));
      (Put(root, a, e), q)
    case ListTarget(a, k, m) =>
      var (es, q) := ParseList(g, m, b, p);
      (Put(root, a, SetList(Get(root, a), k, es)), q)
  }

  function Rank(t: Target): nat {
    match t case NullTarget => 0 case ElemTarget(_, _) => 1 case ListTarget(_, _, _) => 2
  }

  // The element whose members the first phase registers for the target t.
  function Home(t: Target): (a: seq<Step>)
  {
    match t
    case NullTarget => []
    case ElemTarget(a, _) => a
    case ListTarget(a, k, _) => a + [Step(k, 0)]
  }

  // The record after the first phase of decoding into t, and the position then.
  function Registered(t: Target, root: Rec, b: seq<byte>, p: nat): (r: (Rec, nat))
    requires Reachable(root, t)
  {
    match t
    case NullTarget => (root, p)
    case ElemTarget(a, m) =>
      var e := Get(root, a);
      var (vs, q) := ReadValues(Columns(m.attrs), b, p, e.vals, 0);
      (Put(root, a, Rec(vs, e.lists)), q)
    case ListTarget(a, k, m) =>
      var (vs, q) := ReadValues(Columns(m.attrs), b, p, Blank(m).vals, 0);
      (Put(root, a, SetList(Get(root, a), k, [Rec(vs, Blank(m).lists)])), q)
  }

  predicate TwoPhase(t: Target) {
    t.ListTarget? ==> !Repeats(t.m)
  }

  lemma HomeReached(t: Target, root: Rec, b: seq<byte>, p: nat)
    requires Reachable(root, t) && TwoPhase(t) && t != NullTarget
    ensures var r := Registered(t, root, b, p).0;
            InTree(r, Home(t)) && Shaped(t.m, Get(r, Home(t)))
  {
    var r := Registered(t, root, b, p).0;
    match t
    case ElemTarget(a, m) =>
      GetPut(root, a, Rec(ReadValues(Columns(m.attrs), b, p, Get(root, a).vals, 0).0, Get(root, a).lists));
    case ListTarget(a, k, m) =>
      var e := Rec(ReadValues(Columns(m.attrs), b, p, Blank(m).vals, 0).0, Blank(m).lists);
      GetPut(root, a, SetList(Get(root, a), k, [e]));
      DescendGet(r, a, Step(k, 0));
  }

  // Completing the registered element completes the target.
  lemma SecondPhase(g: Gene, t: Target, root: Rec, b: seq<byte>, p: nat)
    requires Reachable(root, t) && TargetFits(g, t) && TwoPhase(t) && t != NullTarget
    requires InTree(Registered(t, root, b, p).0, Home(t))
    requires Shaped(t.m, Get(Registered(t, root, b, p).0, Home(t)))
    ensures var (r, q) := Registered(t, root, b, p);
            var (e, q') := ParseChildren(g, t.m, b, q, Get(r, Home(t)), 0);
            Decoded(g, t, root, b, p) == (Put(r, Home(t), e), q')
  {
    var (r, q) := Registered(t, root, b, p);
    match t
    case ElemTarget(a, m) =>
      var e := Rec(ReadValues(Columns(m.attrs), b, p, Get(root, a).vals, 0).0, Get(root, a).lists);
      GetPut(root, a, e);
      PutPut(root, a, e, ParseChildren(g, m, b, q, e, 0).0);
    case ListTarget(a, k, m) =>
      var e := Rec(ReadValues(Columns(m.attrs), b, p, Blank(m).vals, 0).0, Blank(m).lists);
      var f := ParseChildren(g, m, b, q, e, 0).0;
      ElementInList(root, a, k, [e], 0, f);
      assert [e][0 := f] == [f];
      assert Get(r, Home(t)) == e;
      assert ParseList(g, m, b, p).0 == [f];
  }

  // The member that number order of the registered targets refers to.
  function Registrant(t: Target, order: nat): (r: Target)
    requires t == NullTarget ==> order == 0
    requires t != NullTarget ==> order <= |t.m.children|
  {
    if order == 0 then NullTarget else ListTarget(Home(t), order - 1, t.m.children[order - 1])
  }

  // Completing element number j of a list of which the elements before j are done.
  lemma ElementInList(root: Rec, a: seq<Step>, k: nat, es: seq<Rec>, j: nat, e: Rec)
    requires InTree(root, a) && k < |Get(root, a).lists| && j < |es|
    ensures var r := Put(root, a, SetList(Get(root, a), k, es));
            var s := Step(k, j);
            && InTree(r, a + [s]) && Get(r, a + [s]) == es[j]
            && Put(r, a + [s], e) == Put(root, a, SetList(Get(root, a), k, es[j := e]))
  {
    var e0 := Get(root, a);
    var r := Put(root, a, SetList(e0, k, es));
    GetPut(root, a, SetList(e0, k, es));
    DescendGet(r, a, Step(k, j));
    DescendPut(r, a, Step(k, j), e);
    assert [Step(k, j)][1..] == [];
    assert SetList(e0, k, es).lists[k := es[j := e]] == e0.lists[k := es[j := e]];
    PutPut(root, a, SetList(e0, k, es), SetList(e0, k, es[j := e]));
  }

  // The target list of a codon after phase one, with the null target in front.
  predicate Primed(targets: seq<Target>, t: Target) {
    && |targets| == (if t == NullTarget then 1 else 1 + |t.m.children|)
    && forall o :: 0 <= o < |targets| ==> targets[o] == Registrant(t, o)
  }

  // The members that the targets of a codon refer to can be reached.
  predicate HomeReady(root: Rec, t: Target) {
    t == NullTarget || (InTree(root, Home(t)) && Shaped(t.m, Get(root, Home(t))))
  }

  // What the second phase does to the record, one block at a time.
  function RunBlocks(g: Gene, t: Target, root: Rec, b: seq<byte>, pos: nat, i: nat): (r: (Rec, nat))
    requires TargetFits(g, t) && HomeReady(root, t) && i <= |g.sequence|
    decreases |g.sequence| - i
  {
    if i == |g.sequence| then (root, pos)
    else
      var c := g.sequence[i];
      var (size, q) := ReadInt(b, pos);
      if size <= 0 then RunBlocks(g, t, root, b, q, i + 1)
      else
        BlockStep(c, t, root, b, q);
        RunBlocks(g, t, Decoded(c, Registrant(t, c.order), root, b, q).0, b, q + size, i + 1)
  }

  lemma BlockStep(c: Gene, t: Target, root: Rec, b: seq<byte>, q: nat)
    requires HomeReady(root, t)
    requires t == NullTarget ==> c.order == 0
    requires t != NullTarget ==> c.order <= |t.m.children|
    requires TargetFits(c, Registrant(t, c.order))
    ensures Reachable(root, Registrant(t, c.order))
    ensures HomeReady(Decoded(c, Registrant(t, c.order), root, b, q).0, t)
    ensures t != NullTarget ==>
              var e := Deposit(c, t.m, b, q, Get(root, Home(t)));
              Decoded(c, Registrant(t, c.order), root, b, q).0 == Put(root, Home(t), e)
  {
    hide Get, Put, InTree, Columns, ParseElem, ParseList, GeneFits;
    if t != NullTarget {
      var e := Deposit(c, t.m, b, q, Get(root, Home(t)));
      GetPut(root, Home(t), e);
      PutGet(root, Home(t));
    }
  }

  // One round of the loop: the block at pos is decoded, or is empty.
  lemma RunBlocksStep(g: Gene, t: Target, root: Rec, b: seq<byte>, pos: nat, i: nat)
    requires TargetFits(g, t) && HomeReady(root, t) && i < |g.sequence|
    ensures var c := g.sequence[i];
            var to := Registrant(t, c.order);
            var (size, q) := ReadInt(b, pos);
            && Reachable(root, to) && TargetFits(c, to)
            && var (r, p) := if size <= 0 then (root, q) else (Decoded(c, to, root, b, q).0, q + size);
               && HomeReady(r, t)
               && RunBlocks(g, t, root, b, pos, i) == RunBlocks(g, t, r, b, p, i + 1)
  {
    hide Get, Put, InTree, Columns, ParseElem, ParseList, ReadInt;
    BlockStep(g.sequence[i], t, root, b, ReadInt(b, pos).1);
  }

  lemma RunBlocksEnd(g: Gene, t: Target, root: Rec, b: seq<byte>, pos: nat)
    requires TargetFits(g, t) && HomeReady(root, t)
    ensures RunBlocks(g, t, root, b, pos, |g.sequence|) == (root, pos)
  {
  }

  lemma {:induction false} BlocksAreParsed(g: Gene, t: Target, root: Rec, b: seq<byte>, pos: nat, i: nat)
    requires TargetFits(g, t) && t != NullTarget && HomeReady(root, t) && i <= |g.sequence|
    ensures var (e, q) := ParseChildren(g, t.m, b, pos, Get(root, Home(t)), i);
            RunBlocks(g, t, root, b, pos, i) == (Put(root, Home(t), e), q)
    decreases |g.sequence| - i
  {
    hide Get, Put, InTree, ParseList, Columns;
    var h, e0 := Home(t), Get(root, Home(t));
    if i == |g.sequence| {
      PutGet(root, h);
    } else {
      var c := g.sequence[i];
      var (size, q) := ReadInt(b, pos);
      if size <= 0 {
        BlocksAreParsed(g, t, root, b, q, i + 1);
      } else {
        BlockStep(c, t, root, b, q);
        var e := Deposit(c, t.m, b, q, e0);
        var r := Put(root, h, e);
        assert RunBlocks(g, t, root, b, pos, i) == RunBlocks(g, t, r, b, q + size, i + 1);
        GetPut(root, h, e);
        BlocksAreParsed(g, t, r, b, q + size, i + 1);
        var (f, q') := ParseChildren(g, t.m, b, q + size, e, i + 1);
        assert ParseChildren(g, t.m, b, pos, e0, i) == (f, q');
        PutPut(root, h, e, f);
      }
    }
  }

  // What decoding elements j to n - 1 of a list member does to the record.
  function RunElems(g: Gene, t: Target, root: Rec, b: seq<byte>, pos: nat, j: nat, n: nat): (r: (Rec, nat))
    requires t.ListTarget? && GeneFits(g, t.m) && ListReady(root, t, n) && j <= n
    decreases n - j
  {
    if j == n then (root, pos)
    else
      var et := ElemTarget(t.at + [Step(t.k, j)], t.m);
      ElemStep(g, t, root, b, pos, j, n);
      var (r, q) := Decoded(g, et, root, b, pos);
      RunElems(g, t, r, b, q, j + 1, n)
  }

  predicate ListReady(root: Rec, t: Target, n: nat)
    requires t.ListTarget?
  {
    && InTree(root, t.at) && t.k < |Get(root, t.at).lists|
    && |Get(root, t.at).lists[t.k]| == n
    && forall j :: 0 <= j < n ==> Shaped(t.m, Get(root, t.at).lists[t.k][j])
  }

  lemma ElemStep(g: Gene, t: Target, root: Rec, b: seq<byte>, pos: nat, j: nat, n: nat)
    requires t.ListTarget? && GeneFits(g, t.m) && ListReady(root, t, n) && j < n
    ensures var et := ElemTarget(t.at + [Step(t.k, j)], t.m);
            var e0 := Get(root, t.at);
            && Reachable(root, et) && Get(root, et.at) == e0.lists[t.k][j]
            && var (e, q) := ParseElem(g, t.m, b, pos, e0.lists[t.k][j]);
               var r := Decoded(g, et, root, b, pos).0;
               && ListReady(r, t, n)
               && r == Put(root, t.at, SetList(e0, t.k, e0.lists[t.k][j := e]))
  {
    var e0 := Get(root, t.at);
    var es := e0.lists[t.k];
    PutGet(root, t.at);
    assert SetList(e0, t.k, es) == e0 by { assert e0.lists[t.k := es] == e0.lists; }
    var e := ParseElem(g, t.m, b, pos, es[j]).0;
    ElementInList(root, t.at, t.k, es, j, e);
    GetPut(root, t.at, SetList(e0, t.k, es[j := e]));
  }

  lemma RunElemsStep(g: Gene, t: Target, root: Rec, b: seq<byte>, pos: nat, j: nat, n: nat)
    requires t.ListTarget? && GeneFits(g, t.m) && ListReady(root, t, n) && j < n
    ensures var et := ElemTarget(t.at + [Step(t.k, j)], t.m);
            && Reachable(root, et)
            && var (r, q) := Decoded(g, et, root, b, pos);
               ListReady(r, t, n) && RunElems(g, t, root, b, pos, j, n) == RunElems(g, t, r, b, q, j + 1, n)
  {
    ElemStep(g, t, root, b, pos, j, n);
  }

  lemma RunElemsEnd(g: Gene, t: Target, root: Rec, b: seq<byte>, pos: nat, n: nat)
    requires t.ListTarget? && GeneFits(g, t.m) && ListReady(root, t, n)
    ensures RunElems(g, t, root, b, pos, n, n) == (root, pos)
  {
  }

  // Elements j to n - 1 are blank when they are decoded, and end up as ParseElems says.
  lemma {:induction false} ElemsAreParsed(g: Gene, t: Target, root: Rec, b: seq<byte>, pos: nat, j: nat, n: nat)
    requires t.ListTarget? && GeneFits(g, t.m) && ListReady(root, t, n) && j <= n
    requires Get(root, t.at).lists[t.k][j..] == Blanks(t.m, n - j)
    ensures var e0 := Get(root, t.at);
            var (es, q) := ParseElems(g, t.m, b, pos, n - j);
            RunElems(g, t, root, b, pos, j, n) == (Put(root, t.at, SetList(e0, t.k, e0.lists[t.k][..j] + es)), q)
    decreases n - j
  {
    hide Get, Put, InTree, ParseElem, GeneFits, Columns;
    var e0 := Get(root, t.at);
    var es0 := e0.lists[t.k];
    if j == n {
      assert es0[..j] + [] == es0;
      assert e0.lists[t.k := es0] == e0.lists;
      PutGet(root, t.at);
    } else {
      ElemStep(g, t, root, b, pos, j, n);
      assert es0[j] == es0[j..][0] == Blank(t.m);
      var (e, q) := ParseElem(g, t.m, b, pos, Blank(t.m));
      var e1 := SetList(e0, t.k, es0[j := e]);
      var r := Put(root, t.at, e1);
      GetPut(root, t.at, e1);
      BlankTail(t.m, es0, j, e);
      ElemsAreParsed(g, t, r, b, q, j + 1, n);
      var es := ParseElems(g, t.m, b, q, n - j - 1).0;
      assert es0[j := e][..j + 1] + es == es0[..j] + ([e] + es);
      var last := es0[..j] + ([e] + es);
      assert e1.lists[t.k := last] == e0.lists[t.k := last];
      PutPut(root, t.at, e1, SetList(e0, t.k, last));
    }
  }

  lemma BlankTail(m: Tag, es: seq<Rec>, j: nat, e: Rec)
    requires j < |es| && es[j..] == Blanks(m, |es| - j)
    ensures es[j := e][j + 1..] == Blanks(m, |es| - j - 1)
  {
    assert es[j := e][j + 1..] == es[j..][1..];
  }

  function Blanks(m: Tag, n: nat): (es: seq<Rec>)
    ensures |es| == n
  {
    seq(n, _ => Blank(m))
  }

  // ------------------------------------------------- the lists that are filled

  // What the streamer of a list does to its host list: the list is cleared and then given
  // so many new elements, as member number member of the element at address at.
  datatype Refill = Refill(name: string, at: seq<Step>, member: nat, count: nat)

  // All of this, in order, while one element of class m is decoded.
  function ElemRefills(g: Gene, m: Tag, b: seq<byte>, p: nat, at: seq<Step>): (fs: seq<Refill>)
    requires GeneFits(g, m)
    decreases g, 1, 0
  {
    ChildRefills(g, m, b, ReadValues(Columns(m.attrs), b, p, Blank(m).vals, 0).1, at, 0)
  }

  function ChildRefills(g: Gene, m: Tag, b: seq<byte>, p: nat, at: seq<Step>, i: nat): (fs: seq<Refill>)
    requires GeneFits(g, m) && i <= |g.sequence|
    decreases g, 0, |g.sequence| - i
  {
    if i == |g.sequence| then []
    else
      var c := g.sequence[i];
      var (size, q) := ReadInt(b, p);
      if size <= 0 then ChildRefills(g, m, b, q, at, i + 1)
      else
        (if c.order == 0 then [] else ListRefills(c, m.children[c.order - 1], b, q, at, c.order - 1))
        + ChildRefills(g, m, b, q + size, at, i + 1)
  }

  function ListRefills(g: Gene, m: Tag, b: seq<byte>, p: nat, at: seq<Step>, k: nat): (fs: seq<Refill>)
    requires GeneFits(g, m)
    decreases g, 3, 0
  {
    if Repeats(m) then
      var (size, q) := ReadInt(b, p);
      var n := if size > 0 then size else 0;
      [Refill(m.name, at, k, n)] + EachRefills(g, m, b, q, at, k, 0, n)
    else
      [Refill(m.name, at, k, 1)] + ElemRefills(g, m, b, p, at + [Step(k, 0)])
  }

  function EachRefills(g: Gene, m: Tag, b: seq<byte>, p: nat, at: seq<Step>, k: nat, j: nat, n: nat)
    : (fs: seq<Refill>)
    requires GeneFits(g, m) && j <= n
    decreases g, 2, n - j
  {
    if j == n then []
    else
      ElemRefills(g, m, b, p, at + [Step(k, j)])
      + EachRefills(g, m, b, ParseElem(g, m, b, p, Blank(m)).1, at, k, j + 1, n)
  }

  function Refills(g: Gene, t: Target, b: seq<byte>, p: nat): (fs: seq<Refill>)
    requires TargetFits(g, t)
  {
    match t
    case NullTarget => []
    case ElemTarget(a, m) => ElemRefills(g, m, b, p, a)
    case ListTarget(a, k, m) => ListRefills(g, m, b, p, a, k)
  }

  // The part of the first phase, and that of the blocks from number i on.
  function Opening(t: Target): (fs: seq<Refill>) {
    if t.ListTarget? then [Refill(t.m.name, t.at, t.k, 1)] else []
  }

  function BlockRefills(g: Gene, t: Target, b: seq<byte>, p: nat, i: nat): (fs: seq<Refill>)
    requires TargetFits(g, t) && i <= |g.sequence|
  {
    if t == NullTarget then [] else ChildRefills(g, t.m, b, p, Home(t), i)
  }

  // The values that are replaced have no influence on where the new ones end.
  lemma {:induction false} ValuesEnd(ws: seq<Wire>, b: seq<byte>, p: nat, vs: seq<Value>, us: seq<Value>, i: nat)
    requires |ws| == |vs| == |us| && i <= |ws|
    ensures ReadValues(ws, b, p, vs, i).1 == ReadValues(ws, b, p, us, i).1
    decreases |ws| - i
  {
    if i < |ws| { ValuesEnd(ws, b, ReadValue(ws[i], b, p, vs[i]).1, vs, us, i + 1); }
  }

  lemma {:induction false} ChildrenEnd(g: Gene, m: Tag, b: seq<byte>, p: nat, x: Rec, y: Rec, i: nat)
    requires GeneFits(g, m) && Shaped(m, x) && Shaped(m, y) && i <= |g.sequence|
    ensures ParseChildren(g, m, b, p, x, i).1 == ParseChildren(g, m, b, p, y, i).1
    decreases |g.sequence| - i
  {
    hide Columns, GeneFits, ReadInt, Deposit;
    if i < |g.sequence| {
      var (size, q) := ReadInt(b, p);
      OrderFits(g, m, i);
      ParseStep(g, m, b, p, x, i, size, q);
      ParseStep(g, m, b, p, y, i, size, q);
      if size <= 0 {
        ChildrenEnd(g, m, b, q, x, y, i + 1);
      } else {
        ChildrenEnd(g, m, b, q + size, Deposit(g.sequence[i], m, b, q, x), Deposit(g.sequence[i], m, b, q, y), i + 1);
      }
    }
  }

  lemma ElemEnd(g: Gene, m: Tag, b: seq<byte>, p: nat, x: Rec, y: Rec)
    requires GeneFits(g, m) && Shaped(m, x) && Shaped(m, y)
    ensures ParseElem(g, m, b, p, x).1 == ParseElem(g, m, b, p, y).1
  {
    hide Columns, GeneFits, ParseChildren, ReadValues;
    var ws := Columns(m.attrs);
    ValuesEnd(ws, b, p, x.vals, y.vals, 0);
    var (vs, q) := ReadValues(ws, b, p, x.vals, 0);
    var us := ReadValues(ws, b, p, y.vals, 0).0;
    ChildrenEnd(g, m, b, q, Rec(vs, x.lists), Rec(us, y.lists), 0);
  }

  // Both phases together.
  lemma RefillPhases(g: Gene, t: Target, root: Rec, b: seq<byte>, p: nat)
    requires Reachable(root, t) && TargetFits(g, t) && TwoPhase(t)
    ensures Refills(g, t, b, p) == Opening(t) + BlockRefills(g, t, b, Registered(t, root, b, p).1, 0)
  {
    hide GeneFits, ChildRefills, ReadValues, Columns;
    match t
    case NullTarget =>
    case ElemTarget(a, m) =>
      ValuesEnd(Columns(m.attrs), b, p, Get(root, a).vals, Blank(m).vals, 0);
      assert [] + ElemRefills(g, m, b, p, a) == ElemRefills(g, m, b, p, a);
    case ListTarget(a, k, m) =>
      assert ListRefills(g, m, b, p, a, k)
          == [Refill(m.name, a, k, 1)] + ElemRefills(g, m, b, p, a + [Step(k, 0)]);
  }

  lemma BlockRefillsStep(g: Gene, t: Target, b: seq<byte>, p: nat, i: nat)
    requires TargetFits(g, t) && i < |g.sequence|
    ensures var c, (size, q) := g.sequence[i], ReadInt(b, p);
            && t != NullTarget && c.order <= |t.m.children| && TargetFits(c, Registrant(t, c.order))
            && BlockRefills(g, t, b, p, i)
               == if size <= 0 then BlockRefills(g, t, b, q, i + 1)
                  else Refills(c, Registrant(t, c.order), b, q) + BlockRefills(g, t, b, q + size, i + 1)
  {
    hide ListRefills, ReadInt;
    OrderFits(g, t.m, i);
  }

  lemma EachRefillsStep(g: Gene, t: Target, root: Rec, b: seq<byte>, p: nat, j: nat, n: nat)
    requires t.ListTarget? && GeneFits(g, t.m) && ListReady(root, t, n) && j < n
    ensures var et := ElemTarget(t.at + [Step(t.k, j)], t.m);
            && Reachable(root, et)
            && EachRefills(g, t.m, b, p, t.at, t.k, j, n)
               == Refills(g, et, b, p) + EachRefills(g, t.m, b, Decoded(g, et, root, b, p).1, t.at, t.k, j + 1, n)
  {
    hide Columns, GeneFits, ParseElem, ElemRefills, Get, Put, InTree;
    ElemStep(g, t, root, b, p, j, n);
    ElemEnd(g, t.m, b, p, Get(root, t.at).lists[t.k][j], Blank(t.m));
  }

  lemma NoRefills(g: Gene, t: Target, b: seq<byte>, p: nat)
    requires TargetFits(g, t)
    ensures BlockRefills(g, t, b, p, |g.sequence|) == []
  {
  }

  lemma NoMoreRefills(g: Gene, m: Tag, b: seq<byte>, p: nat, at: seq<Step>, k: nat, n: nat)
    requires GeneFits(g, m)
    ensures EachRefills(g, m, b, p, at, k, n, n) == []
  {
  }

  // One stored attribute, read from the xdr stream.
  method GetValue(xstr: InBuffer, w: Wire, v0: Value) returns (v: Value)
    requires w != Literal
    modifies xstr`pos
    ensures (v, xstr.pos) == ReadValue(w, xstr.data, old(xstr.pos), v0)
  {
    match w
    case Word =>
      var n := xstr.GetWord(4);
      v := Num(n);
    case Quad =>
      var n := xstr.GetWord(8);
      v := Num(n);
    case Pair =>
      var hi := xstr.GetWord(4);
      var lo := xstr.GetWord(4);
      v := Num(hi * TWO32 + lo);
    case Chars =>
      var s := xstr.GetText(if v0.Text? then v0.s else []);
      v := Text(s);
  }

  lemma ColumnsStored(m: Tag)
    ensures forall w :: w in Columns(m.attrs) ==> w != Literal
  {
  }

  // The stored attributes of an element, in place of v0.
  method GetValues(xstr: InBuffer, ws: seq<Wire>, v0: seq<Value>) returns (vs: seq<Value>)
    requires |ws| == |v0| && forall w :: w in ws ==> w != Literal
    modifies xstr`pos
    ensures (vs, xstr.pos) == ReadValues(ws, xstr.data, old(xstr.pos), v0, 0)
  {
    vs := [];
    ghost var all := ReadValues(ws, xstr.data, xstr.pos, v0, 0);
    assert [] + all.0 == all.0;
    for j := 0 to |ws|
      invariant var (rest, q) := ReadValues(ws, xstr.data, xstr.pos, v0, j); (vs + rest, q) == all
    {
      assert ws[j] in ws;
      ghost var rest := ReadValues(ws, xstr.data, xstr.pos, v0, j).0;
      var v := GetValue(xstr, ws[j], v0[j]);
      assert vs + rest == (vs + [v]) + rest[1..];
      vs := vs + [v];
    }
    assert vs + [] == vs;
  }

  class IStream {
    const xstr: InBuffer
    var codon: Codon
    var sequencing: bool
    var root: Rec
    var refills: seq<Refill>

    constructor (sbuf: InBuffer, genome: Codon, record: Rec)
      ensures xstr == sbuf && codon == genome && root == record && !sequencing && refills == []
    {
      xstr, codon, root, sequencing, refills := sbuf, genome, record, false, [];
    }

    /** operator>>(streamable): while sequencing, register the target; otherwise decode
        one block into it and leave the cursor at the end of the block. */
    method Extract(t: Target)
      requires codon.Valid()
      requires !sequencing ==> Reachable(root, t) && TargetFits(codon.gene, t)
      modifies this, xstr`pos, codon.repr
      ensures codon == old(codon) && sequencing == old(sequencing)
      ensures old(sequencing) ==> root == old(root) && xstr.pos == old(xstr.pos) && refills == old(refills)
                                  && codon.target == old(codon.target) + [t]
      ensures !old(sequencing) ==>
                var (size, q) := ReadInt(xstr.data, old(xstr.pos));
                if size <= 0 then root == old(root) && xstr.pos == q
                else root == Decoded(codon.gene, t, old(root), xstr.data, q).0 && xstr.pos == q + size
      ensures !old(sequencing) ==>
                var (size, q) := ReadInt(xstr.data, old(xstr.pos));
                refills == old(refills) + if size <= 0 then [] else Refills(codon.gene, t, xstr.data, q)
      decreases codon.repr, if sequencing then 0 else 5
    {
      if sequencing {
        codon.target := codon.target + [t];
      } else {
        var size := xstr.GetInt();
        if size > 0 {
          var start := xstr.pos;
          Sequencer(t);
          xstr.pos := start + size;
        }
      }
    }

    method Sequencer(t: Target)
      requires codon.Valid() && Reachable(root, t) && TargetFits(codon.gene, t)
      modifies this, xstr`pos, codon.repr
      ensures codon == old(codon) && !sequencing
      ensures (root, xstr.pos) == Decoded(codon.gene, t, old(root), xstr.data, old(xstr.pos))
      ensures refills == old(refills) + Refills(codon.gene, t, xstr.data, old(xstr.pos))
      decreases codon.repr, 1 + Rank(t), 1
    {
      hide Get, Put, InTree, ParseElem, ParseChildren, ParseList, ReadValues, Columns, RunBlocks, Refills, Opening,
           BlockRefills;
      sequencing := true;
      codon.target := [];
      ghost var root0, p0 := root, xstr.pos;
      Streamer(t);
      if sequencing {
        sequencing := false;
        var gene := codon;
        gene.target := [NullTarget] + gene.target;
        RefillPhases(gene.gene, t, root0, xstr.data, p0);
        if t != NullTarget {
          HomeReached(t, root0, xstr.data, p0);
          SecondPhase(gene.gene, t, root0, xstr.data, p0);
          BlocksAreParsed(gene.gene, t, root, xstr.data, xstr.pos, 0);
        } else {
          RunBlocksEnd(gene.gene, t, root, xstr.data, xstr.pos);
        }
        Sequence(gene, t);
        codon := gene;
      }
    }

    // The loop of the second phase: one block for every child tag of the file.
    method Sequence(gene: Codon, t: Target)
      requires gene.Valid() && !sequencing && TargetFits(gene.gene, t) && HomeReady(root, t)
      requires Primed(gene.target, t)
      modifies this, xstr`pos, gene.repr - {gene}
      ensures !sequencing
      ensures (root, xstr.pos) == RunBlocks(gene.gene, t, old(root), xstr.data, old(xstr.pos), 0)
      ensures refills == old(refills) + BlockRefills(gene.gene, t, xstr.data, old(xstr.pos), 0)
      decreases gene.repr, 0, 1
    {
      hide Get, Put, InTree, ParseElem, ParseList, Columns, RunBlocks, Decoded, Registered, Refills, BlockRefills,
           TargetFits, HomeReady, Reachable, ReadInt, GeneFits;
      for i := 0 to |gene.sequence|
        invariant !sequencing && gene.target == old(gene.target) && HomeReady(root, t)
        invariant RunBlocks(gene.gene, t, root, xstr.data, xstr.pos, i)
                  == RunBlocks(gene.gene, t, old(root), xstr.data, old(xstr.pos), 0)
        invariant refills + BlockRefills(gene.gene, t, xstr.data, xstr.pos, i)
                  == old(refills) + BlockRefills(gene.gene, t, xstr.data, old(xstr.pos), 0)
      {
        var c := gene.sequence[i];
        assert c.gene == gene.gene.sequence[i] && c.repr <= gene.repr - {gene};
        RunBlocksStep(gene.gene, t, root, xstr.data, xstr.pos, i);
        BlockRefillsStep(gene.gene, t, xstr.data, xstr.pos, i);
        codon := c;
        Extract(gene.target[c.order]);
      }
      RunBlocksEnd(gene.gene, t, root, xstr.data, xstr.pos);
      NoRefills(gene.gene, t, xstr.data, xstr.pos);
    }

    // The virtual streamer(istream&) of whatever the target refers to.
    method Streamer(t: Target)
      requires codon.Valid() && Reachable(root, t) && TargetFits(codon.gene, t)
      requires sequencing && codon.target == []
      modifies this, xstr`pos, codon.repr
      ensures codon == old(codon) && sequencing == TwoPhase(t)
      ensures TwoPhase(t) ==>
                && (root, xstr.pos) == Registered(t, old(root), xstr.data, old(xstr.pos))
                && codon.target == (if t == NullTarget then [] else Members(Home(t), t.m))
                && refills == old(refills) + Opening(t)
      ensures !TwoPhase(t) ==>
                && (root, xstr.pos) == Decoded(codon.gene, t, old(root), xstr.data, old(xstr.pos))
                && refills == old(refills) + Refills(codon.gene, t, xstr.data, old(xstr.pos))
      decreases codon.repr, 1 + Rank(t), 0
    {
      match t
      case NullTarget =>
      case ElemTarget(a, m) => ElementStreamer(a, m);
      case ListTarget(a, k, m) =>
        if Repeats(m) { ListStreamer(a, k, m); } else { LinkStreamer(a, k, m); }
    }

    // The generated streamer of class m: stored attributes, then the members.
    method ElementStreamer(a: seq<Step>, m: Tag)
      requires codon.Valid() && InTree(root, a) && Shaped(m, Get(root, a))
      requires sequencing && codon.target == []
      modifies this, xstr`pos, codon.repr
      ensures codon == old(codon) && sequencing && refills == old(refills)
      ensures (root, xstr.pos) == Registered(ElemTarget(a, m), old(root), xstr.data, old(xstr.pos))
      ensures codon.target == Members(a, m)
      decreases codon.repr, 1, 0
    {
      hide Get, Put, InTree, GeneFits, ReadValues;
      ColumnsStored(m);
      var vs := GetValues(xstr, Columns(m.attrs), Get(root, a).vals);
      root := Put(root, a, Rec(vs, Get(root, a).lists));
      ghost var root1, p1 := root, xstr.pos;
      for k := 0 to |m.children|
        invariant root == root1 && xstr.pos == p1 && codon == old(codon) && sequencing && refills == old(refills)
        invariant codon.target == Members(a, m)[..k]
      {
        Extract(ListTarget(a, k, m.children[k]));
      }
    }

    // HDDM_ElementLink: one new element, whose streamer registers with this codon.
    method LinkStreamer(a: seq<Step>, k: nat, m: Tag)
      requires codon.Valid() && Reachable(root, ListTarget(a, k, m)) && !Repeats(m)
      requires sequencing && codon.target == []
      modifies this, xstr`pos, codon.repr
      ensures codon == old(codon) && sequencing
      ensures (root, xstr.pos) == Registered(ListTarget(a, k, m), old(root), xstr.data, old(xstr.pos))
      ensures codon.target == Members(a + [Step(k, 0)], m)
      ensures refills == old(refills) + [Refill(m.name, a, k, 1)]
      decreases codon.repr, 2, 0
    {
      ghost var root0, p := root, xstr.pos;
      root := Put(root, a, SetList(Get(root, a), k, [Blank(m)]));
      refills := refills + [Refill(m.name, a, k, 1)];
      ghost var e := Rec(ReadValues(Columns(m.attrs), xstr.data, p, Blank(m).vals, 0).0, Blank(m).lists);
      ElementInList(root0, a, k, [Blank(m)], 0, e);
      assert [Blank(m)][0 := e] == [e];
      ElementStreamer(a + [Step(k, 0)], m);
    }

    // HDDM_ElementList: a count, then that many new elements.
    method ListStreamer(a: seq<Step>, k: nat, m: Tag)
      requires codon.Valid() && Reachable(root, ListTarget(a, k, m)) && Repeats(m)
      requires GeneFits(codon.gene, m)
      modifies this, xstr`pos, codon.repr
      ensures codon == old(codon) && !sequencing
      ensures (root, xstr.pos)
              == Decoded(codon.gene, ListTarget(a, k, m), old(root), xstr.data, old(xstr.pos))
      ensures refills == old(refills) + ListRefills(codon.gene, m, xstr.data, old(xstr.pos), a, k)
      decreases codon.repr, 2, 5
    {
      hide Get, Put, InTree, ParseElem, GeneFits, Columns, EachRefills;
      ghost var t, e0 := ListTarget(a, k, m), Get(root, a);
      root := Put(root, a, SetList(Get(root, a), k, []));
      var size := xstr.GetInt();
      refills := refills + [Refill(m.name, a, k, if size > 0 then size else 0)];
      GetPut(old(root), a, SetList(e0, k, []));
      if size != 0 {
        var n := if size > 0 then size else 0;
        PutPut(old(root), a, SetList(e0, k, []), SetList(e0, k, Blanks(m, n)));
        SetTwice(e0, k, [], Blanks(m, n));
        root := Put(root, a, SetList(Get(root, a), k, Blanks(m, n)));
        GetPut(old(root), a, SetList(e0, k, Blanks(m, n)));
        ghost var p := xstr.pos;
        Elements(a, k, m, n);
        ghost var es := ParseElems(codon.gene, m, xstr.data, p, n).0;
        assert Blanks(m, n)[..0] + es == es;
        SetTwice(e0, k, Blanks(m, n), es);
        PutPut(old(root), a, SetList(e0, k, Blanks(m, n)), SetList(e0, k, es));
        assert root == Put(old(root), a, SetList(e0, k, es));
      } else {
        assert ParseElems(codon.gene, m, xstr.data, xstr.pos, 0) == ([], xstr.pos);
        NoMoreRefills(codon.gene, m, xstr.data, xstr.pos, a, k, 0);
      }
      sequencing := false;
    }

    // The loop over the new elements, each run through its own sequencer.
    method Elements(a: seq<Step>, k: nat, m: Tag, n: nat)
      requires codon.Valid() && GeneFits(codon.gene, m)
      requires ListReady(root, ListTarget(a, k, m), n) && Get(root, a).lists[k] == Blanks(m, n)
      modifies this, xstr`pos, codon.repr
      ensures codon == old(codon)
      ensures var (es, q) := ParseElems(codon.gene, m, xstr.data, old(xstr.pos), n);
              (root, xstr.pos) == (Put(old(root), a, SetList(Get(old(root), a), k, es)), q)
      ensures refills == old(refills) + EachRefills(codon.gene, m, xstr.data, old(xstr.pos), a, k, 0, n)
      decreases codon.repr, 2, 4
    {
      hide Get, Put, InTree, ParseElem, GeneFits, Columns, RunElems, Decoded, SetList, Refills, EachRefills;
      ghost var t := ListTarget(a, k, m);
      for j := 0 to n
        invariant codon == old(codon) && ListReady(root, t, n)
        invariant RunElems(codon.gene, t, root, xstr.data, xstr.pos, j, n)
                  == RunElems(codon.gene, t, old(root), xstr.data, old(xstr.pos), 0, n)
        invariant refills + EachRefills(codon.gene, m, xstr.data, xstr.pos, a, k, j, n)
                  == old(refills) + EachRefills(codon.gene, m, xstr.data, old(xstr.pos), a, k, 0, n)
      {
        RunElemsStep(codon.gene, t, root, xstr.data, xstr.pos, j, n);
        EachRefillsStep(codon.gene, t, root, xstr.data, xstr.pos, j, n);
        Sequencer(ElemTarget(a + [Step(k, j)], m));
      }
      RunElemsEnd(codon.gene, t, root, xstr.data, xstr.pos, n);
      NoMoreRefills(codon.gene, m, xstr.data, xstr.pos, a, k, n);
      ElemsAreParsed(codon.gene, t, old(root), xstr.data, old(xstr.pos), 0, n);
      ghost var es := ParseElems(codon.gene, m, xstr.data, old(xstr.pos), n).0;
      assert Get(old(root), a).lists[k][..0] + es == es;
    }
  }
}
