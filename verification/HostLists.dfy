/** The host lists of a record that has just been decoded: one list per tag name, into
    which every list member that received elements has a window. */
module HostLists {
  import opened Slices
  import opened Xdr
  import opened Model
  import opened Sequencer
  import opened Evolution

  type Addr = seq<Step>

  // An element that the decoder meets, and the tag it belongs to.
  datatype Place = Place(name: string, at: Addr)

  // The window of member number member of the element at parent.
  datatype Window = Window(name: string, parent: Addr, member: nat, ref: nat, size: nat)

  datatype Host = Host(plists: map<string, seq<Addr>>, windows: seq<Window>)

  const EMPTY := Host(map[], [])

  function Plist(h: Host, name: string): (addrs: seq<Addr>) {
    if name in h.plists then h.plists[name] else []
  }

  function Addrs(at: Addr, k: nat, n: nat): (addrs: seq<Addr>)
    ensures |addrs| == n
  {
    seq(n, j requires 0 <= j < n => at + [Step(k, j)])
  }

  // add(n) on an empty list member: all n elements go to the end of the host list.
  function Add(h: Host, name: string, at: Addr, k: nat, n: nat): (h': Host) {
    Host(h.plists[name := Plist(h, name) + Addrs(at, k, n)],
         h.windows + [Window(name, at, k, |Plist(h, name)|, n)])
  }

  // Every element of r has the members of its class.
  predicate Deep(m: Tag, r: Rec)
    decreases m
  {
    && Shaped(m, r)
    && forall k, j :: 0 <= k < |m.children| && 0 <= j < |r.lists[k]| ==> Deep(m.children[k], r.lists[k][j])
  }

  // Decoding the child tags of the file from number i on into the element r at address
  // at: a list grows to its full length before the first of its elements is decoded.
  function Fill(g: Gene, m: Tag, r: Rec, at: Addr, h: Host, i: nat): (h': Host)
    requires GeneFits(g, m) && Deep(m, r) && i <= |g.sequence|
    decreases g, 0, |g.sequence| - i
  {
    if i == |g.sequence| then h
    else
      var c := g.sequence[i];
      if c.order == 0 || r.lists[c.order - 1] == [] then Fill(g, m, r, at, h, i + 1)
      else
        var k := c.order - 1;
        var h1 := Add(h, m.children[k].name, at, k, |r.lists[k]|);
        Fill(g, m, r, at, FillElems(c, m.children[k], r.lists[k], at, k, h1, 0), i + 1)
  }

  function FillElems(c: Gene, m: Tag, es: seq<Rec>, at: Addr, k: nat, h: Host, j: nat): (h': Host)
    requires GeneFits(c, m) && (forall j :: 0 <= j < |es| ==> Deep(m, es[j])) && j <= |es|
    decreases c, 1, |es| - j
  {
    if j == |es| then h
    else FillElems(c, m, es, at, k, Fill(c, m, es[j], at + [Step(k, j)], h, 0), j + 1)
  }

  // The elements in the order in which they are decoded; TrailIsVisits and TrailMarks below
  // say that this is the order of their bytes.
  function Visits(g: Gene, m: Tag, r: Rec, at: Addr, i: nat): (ps: seq<Place>)
    requires GeneFits(g, m) && Deep(m, r) && i <= |g.sequence|
    decreases g, 0, |g.sequence| - i
  {
    if i == |g.sequence| then []
    else
      var c := g.sequence[i];
      (if c.order == 0 then [] else VisitList(c, m.children[c.order - 1], r.lists[c.order - 1], at, c.order - 1, 0))
      + Visits(g, m, r, at, i + 1)
  }

  function VisitList(c: Gene, m: Tag, es: seq<Rec>, at: Addr, k: nat, j: nat): (ps: seq<Place>)
    requires GeneFits(c, m) && (forall j :: 0 <= j < |es| ==> Deep(m, es[j])) && j <= |es|
    decreases c, 1, |es| - j
  {
    if j == |es| then []
    else
      [Place(m.name, at + [Step(k, j)])] + Visits(c, m, es[j], at + [Step(k, j)], 0)
      + VisitList(c, m, es, at, k, j + 1)
  }

  // The addresses of the elements of one tag, in order.
  function Named(ps: seq<Place>, name: string): (addrs: seq<Addr>) {
    if ps == [] then []
    else (if ps[0].name == name then [ps[0].at] else []) + Named(ps[1..], name)
  }

  lemma {:induction false} NamedConcat(ps: seq<Place>, qs: seq<Place>, name: string)
    ensures Named(ps + qs, name) == Named(ps, name) + Named(qs, name)
  {
    if ps == [] {
      assert ps + qs == qs;
    } else {
      assert (ps + qs)[1..] == ps[1..] + qs;
      NamedConcat(ps[1..], qs, name);
    }
  }

  // Is there a tag of this name below m?
  predicate Below(m: Tag, name: string) {
    exists i :: 0 <= i < |m.children| && (m.children[i].name == name || Below(m.children[i], name))
  }

  // No tag is its own ancestor, as the rules for templates have it.
  predicate NoOwnAncestor(m: Tag) {
    !Below(m, m.name) && forall i :: 0 <= i < |m.children| ==> NoOwnAncestor(m.children[i])
  }

  lemma MemberFacts(g: Gene, m: Tag, r: Rec, i: nat)
    requires GeneFits(g, m) && Deep(m, r) && i < |g.sequence| && g.sequence[i].order > 0
    ensures MemberReady(g, m, r, i)
  {
  }

  lemma BelowMember(m: Tag, k: nat, name: string)
    requires k < |m.children| && NoOwnAncestor(m)
    ensures NoOwnAncestor(m.children[k]) && !Below(m.children[k], m.children[k].name)
    ensures !Below(m, name) ==> m.children[k].name != name && !Below(m.children[k], name)
  {
  }

  lemma NotBelowItself(m: Tag)
    requires NoOwnAncestor(m)
    ensures !Below(m, m.name)
  {
  }

  lemma FillStep(g: Gene, m: Tag, r: Rec, at: Addr, h: Host, i: nat)
    requires GeneFits(g, m) && Deep(m, r) && i < |g.sequence|
    requires g.sequence[i].order > 0 ==> MemberReady(g, m, r, i)
    ensures var c := g.sequence[i];
            Fill(g, m, r, at, h, i)
            == if c.order == 0 || r.lists[c.order - 1] == [] then Fill(g, m, r, at, h, i + 1)
               else
                 var k := c.order - 1;
                 var h1 := Add(h, m.children[k].name, at, k, |r.lists[k]|);
                 Fill(g, m, r, at, FillElems(c, m.children[k], r.lists[k], at, k, h1, 0), i + 1)
  {
    hide GeneFits, Deep, FillElems, Columns;
  }

  predicate MemberReady(g: Gene, m: Tag, r: Rec, i: nat)
    requires i < |g.sequence| && g.sequence[i].order > 0
  {
    var c := g.sequence[i];
    && c.order <= |m.children| && |r.lists| == |m.children| && GeneFits(c, m.children[c.order - 1])
    && var es := r.lists[c.order - 1];
       forall j :: 0 <= j < |es| ==> Deep(m.children[c.order - 1], es[j])
  }

  lemma VisitsStep(g: Gene, m: Tag, r: Rec, at: Addr, i: nat)
    requires GeneFits(g, m) && Deep(m, r) && i < |g.sequence|
    requires g.sequence[i].order > 0 ==> MemberReady(g, m, r, i)
    ensures var c := g.sequence[i];
            Visits(g, m, r, at, i)
            == (if c.order == 0 then []
                else VisitList(c, m.children[c.order - 1], r.lists[c.order - 1], at, c.order - 1, 0))
               + Visits(g, m, r, at, i + 1)
  {
    hide GeneFits, Deep, VisitList, Columns;
  }

  // ------------------------------------------------- order

  /** Decoding leaves in the host list of every tag exactly the elements of this tag, in
      the order in which they occur in the byte stream. */
  lemma {:induction false} ListsFollowStream(g: Gene, m: Tag, r: Rec, at: Addr, h: Host, i: nat, name: string)
    requires GeneFits(g, m) && Deep(m, r) && i <= |g.sequence| && NoOwnAncestor(m)
    ensures Plist(Fill(g, m, r, at, h, i), name) == Plist(h, name) + Named(Visits(g, m, r, at, i), name)
    ensures !Below(m, name) ==> Named(Visits(g, m, r, at, i), name) == []
    decreases g, 0, |g.sequence| - i
  {
    hide GeneFits, Deep, Below, NoOwnAncestor, Fill, FillElems, Visits, VisitList, Named, Addrs, Plist, Add;
    if i == |g.sequence| {
      NothingLeft(g, m, r, at, h, name);
    } else {
      var c := g.sequence[i];
      if c.order > 0 { MemberFacts(g, m, r, i); }
      FillStep(g, m, r, at, h, i);
      VisitsStep(g, m, r, at, i);
      if c.order == 0 || r.lists[c.order - 1] == [] {
        ListsFollowStream(g, m, r, at, h, i + 1, name);
        if c.order > 0 { EmptyList(c, m.children[c.order - 1], at, c.order - 1); }
        assert Visits(g, m, r, at, i) == Visits(g, m, r, at, i + 1);
      } else {
        var k := c.order - 1;
        var kid, es := m.children[k], r.lists[k];
        var h1 := Add(h, kid.name, at, k, |es|);
        var h2 := FillElems(c, kid, es, at, k, h1, 0);
        BelowMember(m, k, name);
        ElemsFollowStream(c, kid, es, at, k, h1, 0, name);
        ListsFollowStream(g, m, r, at, h2, i + 1, name);
        NamedConcat(VisitList(c, kid, es, at, k, 0), Visits(g, m, r, at, i + 1), name);
        AddrsFrom(at, k, |es|);
        Added(h, kid.name, at, k, |es|, name);
        Regroup(Plist(h, name), Named(VisitList(c, kid, es, at, k, 0), name), Named(Visits(g, m, r, at, i + 1), name));
      }
    }
  }

  lemma Added(h: Host, kid: string, at: Addr, k: nat, n: nat, name: string)
    ensures Plist(Add(h, kid, at, k, n), name) == Plist(h, name) + if name == kid then Addrs(at, k, n) else []
  {
  }

  lemma Regroup(a: seq<Addr>, b: seq<Addr>, c: seq<Addr>)
    ensures (a + b) + c == a + (b + c) && [] + c == c
  {
  }

  lemma Alone(a: seq<Addr>)
    ensures [] + a == a == a + []
  {
  }

  lemma NothingLeft(g: Gene, m: Tag, r: Rec, at: Addr, h: Host, name: string)
    requires GeneFits(g, m) && Deep(m, r)
    ensures Fill(g, m, r, at, h, |g.sequence|) == h && Named(Visits(g, m, r, at, |g.sequence|), name) == []
  {
  }

  lemma EmptyList(c: Gene, m: Tag, at: Addr, k: nat)
    requires GeneFits(c, m)
    ensures VisitList(c, m, [], at, k, 0) == []
  {
  }

  lemma AddrsFrom(at: Addr, k: nat, n: nat)
    ensures Addrs(at, k, n)[0..] == Addrs(at, k, n)
  {
  }

  lemma {:induction false} ElemsFollowStream(c: Gene, m: Tag, es: seq<Rec>, at: Addr, k: nat, h: Host, j: nat,
                                             name: string)
    requires GeneFits(c, m) && (forall j :: 0 <= j < |es| ==> Deep(m, es[j])) && j <= |es| && NoOwnAncestor(m)
    ensures var h', seen := FillElems(c, m, es, at, k, h, j), Named(VisitList(c, m, es, at, k, j), name);
            if name == m.name then
              Plist(h', name) == Plist(h, name) && seen == Addrs(at, k, |es|)[j..]
            else
              Plist(h', name) == Plist(h, name) + seen && (!Below(m, name) ==> seen == [])
    decreases c, 1, |es| - j
  {
    hide GeneFits, Deep, Below, NoOwnAncestor, Fill, FillElems, Visits, Columns, Named, VisitList, Addrs, Plist;
    FillElemsStep(c, m, es, at, k, h, j);
    NamedList(c, m, es, at, k, j, name);
    AddrsStep(at, k, |es|, j);
    if j < |es| {
      var a := at + [Step(k, j)];
      var h1 := Fill(c, m, es[j], a, h, 0);
      NotBelowItself(m);
      ListsFollowStream(c, m, es[j], a, h, 0, name);
      ElemsFollowStream(c, m, es, at, k, h1, j + 1, name);
      var inner, rest := Named(Visits(c, m, es[j], a, 0), name), Named(VisitList(c, m, es, at, k, j + 1), name);
      Regroup(Plist(h, name), inner, rest);
      Alone(inner);
      Alone([a]);
    }
    Alone(Plist(h, name));
  }

  lemma FillElemsStep(c: Gene, m: Tag, es: seq<Rec>, at: Addr, k: nat, h: Host, j: nat)
    requires GeneFits(c, m) && (forall j :: 0 <= j < |es| ==> Deep(m, es[j])) && j <= |es|
    ensures FillElems(c, m, es, at, k, h, j)
            == if j == |es| then h
               else FillElems(c, m, es, at, k, Fill(c, m, es[j], at + [Step(k, j)], h, 0), j + 1)
  {
    hide GeneFits, Deep, Fill, Columns;
  }

  // What is visited of one tag, element by element.
  lemma NamedList(c: Gene, m: Tag, es: seq<Rec>, at: Addr, k: nat, j: nat, name: string)
    requires GeneFits(c, m) && (forall j :: 0 <= j < |es| ==> Deep(m, es[j])) && j <= |es|
    ensures Named(VisitList(c, m, es, at, k, j), name)
            == if j == |es| then []
               else
                 (if name == m.name then [at + [Step(k, j)]] else [])
                 + Named(Visits(c, m, es[j], at + [Step(k, j)], 0), name)
                 + Named(VisitList(c, m, es, at, k, j + 1), name)
  {
    hide GeneFits, Deep, Visits, Columns;
    if j < |es| {
      var a := at + [Step(k, j)];
      var first, inner, rest := [Place(m.name, a)], Visits(c, m, es[j], a, 0), VisitList(c, m, es, at, k, j + 1);
      NamedConcat(first + inner, rest, name);
      NamedConcat(first, inner, name);
      assert Named(first, name) == if name == m.name then [a] else [];
    }
  }

  lemma AddrsStep(at: Addr, k: nat, n: nat, j: nat)
    requires j <= n
    ensures Addrs(at, k, n)[j..] == if j == n then [] else [at + [Step(k, j)]] + Addrs(at, k, n)[j + 1..]
  {
  }

  // ------------------------------------------------- windows

  // The windows of one tag, in the order in which they were filled, lie side by side from
  // the start of its host list to its end.
  predicate Tiled(ws: seq<Window>, name: string, n: nat) {
    if ws == [] then n == 0
    else
      var w, before := ws[|ws| - 1], ws[..|ws| - 1];
      if w.name == name then w.ref + w.size == n && Tiled(before, name, w.ref) else Tiled(before, name, n)
  }

  // A window shows the elements of its list member, and no others.
  predicate Shows(h: Host, w: Window) {
    && w.ref + w.size <= |Plist(h, w.name)|
    && Plist(h, w.name)[w.ref..w.ref + w.size] == Addrs(w.parent, w.member, w.size)
  }

  ghost predicate Partitioned(h: Host) {
    && (forall w :: w in h.windows ==> Shows(h, w))
    && (forall name :: Tiled(h.windows, name, |Plist(h, name)|))
  }

  lemma AddKeepsPartition(h: Host, name: string, at: Addr, k: nat, n: nat)
    requires Partitioned(h)
    ensures Partitioned(Add(h, name, at, k, n))
  {
    var h' := Add(h, name, at, k, n);
    var w0 := Window(name, at, k, |Plist(h, name)|, n);
    forall w | w in h'.windows ensures Shows(h', w) {
      if w != w0 { assert Shows(h, w); }
    }
    forall t ensures Tiled(h'.windows, t, |Plist(h', t)|) {
      assert h'.windows[..|h.windows|] == h.windows && Tiled(h.windows, t, |Plist(h, t)|);
    }
  }

  /** After decoding, the host list of every tag is divided among the windows of all its
      list members, each of which shows exactly the elements of its own parent. */
  lemma {:induction false} ListsArePartitioned(g: Gene, m: Tag, r: Rec, at: Addr, h: Host, i: nat)
    requires GeneFits(g, m) && Deep(m, r) && i <= |g.sequence| && Partitioned(h)
    ensures Partitioned(Fill(g, m, r, at, h, i))
    decreases g, 0, |g.sequence| - i
  {
    hide GeneFits, Deep, Fill, FillElems, Partitioned, Add;
    if i == |g.sequence| {
      NothingLeft(g, m, r, at, h, "");
    } else {
      var c := g.sequence[i];
      if c.order > 0 { MemberFacts(g, m, r, i); }
      FillStep(g, m, r, at, h, i);
      if c.order == 0 || r.lists[c.order - 1] == [] {
        ListsArePartitioned(g, m, r, at, h, i + 1);
      } else {
        var k := c.order - 1;
        var h1 := Add(h, m.children[k].name, at, k, |r.lists[k]|);
        AddKeepsPartition(h, m.children[k].name, at, k, |r.lists[k]|);
        ElemsArePartitioned(c, m.children[k], r.lists[k], at, k, h1, 0);
        ListsArePartitioned(g, m, r, at, FillElems(c, m.children[k], r.lists[k], at, k, h1, 0), i + 1);
      }
    }
  }

  lemma {:induction false} ElemsArePartitioned(c: Gene, m: Tag, es: seq<Rec>, at: Addr, k: nat, h: Host, j: nat)
    requires GeneFits(c, m) && (forall j :: 0 <= j < |es| ==> Deep(m, es[j])) && j <= |es| && Partitioned(h)
    ensures Partitioned(FillElems(c, m, es, at, k, h, j))
    decreases c, 1, |es| - j
  {
    hide GeneFits, Deep, Fill, Partitioned;
    if j < |es| {
      var a := at + [Step(k, j)];
      ListsArePartitioned(c, m, es[j], a, h, 0);
      ElemsArePartitioned(c, m, es, at, k, Fill(c, m, es[j], a, h, 0), j + 1);
    }
  }

  // ------------------------------------------------- completeness

  function Times(ps: seq<Place>, a: Addr): (n: nat) {
    if ps == [] then 0 else (if ps[0].at == a then 1 else 0) + Times(ps[1..], a)
  }

  lemma {:induction false} TimesConcat(ps: seq<Place>, qs: seq<Place>, a: Addr)
    ensures Times(ps + qs, a) == Times(ps, a) + Times(qs, a)
  {
    if ps == [] {
      assert ps + qs == qs;
    } else {
      assert (ps + qs)[1..] == ps[1..] + qs;
      TimesConcat(ps[1..], qs, a);
    }
  }

  // No two tags of the file go to the same member.
  predicate Injective(g: Gene) {
    && (forall i, j :: 0 <= i < j < |g.sequence| && g.sequence[i].order > 0 ==>
          g.sequence[i].order != g.sequence[j].order)
    && (forall i :: 0 <= i < |g.sequence| ==> Injective(g.sequence[i]))
  }

  // The file has a tag for the member that a goes through, at every level; at the first
  // level one from number i on.
  predicate Sequenced(g: Gene, a: Addr, i: nat)
    decreases g
  {
    a == [] || exists k :: i <= k < |g.sequence| && g.sequence[k].order == a[0].list + 1
                           && Sequenced(g.sequence[k], a[1..], 0)
  }

  predicate AllUnder(ps: seq<Place>, at: Addr) {
    forall p :: p in ps ==> |at| < |p.at| && p.at[..|at|] == at
  }

  lemma {:induction false} NotUnder(ps: seq<Place>, at: Addr, a: Addr)
    requires AllUnder(ps, at) && !(|at| < |a| && a[..|at|] == at)
    ensures Times(ps, a) == 0
  {
    if ps != [] {
      assert ps[0] in ps;
      NotUnder(ps[1..], at, a);
    }
  }

  lemma {:induction false} VisitsUnder(g: Gene, m: Tag, r: Rec, at: Addr, i: nat)
    requires GeneFits(g, m) && Deep(m, r) && i <= |g.sequence|
    ensures AllUnder(Visits(g, m, r, at, i), at)
    decreases g, 0, |g.sequence| - i
  {
    hide GeneFits, Deep, Columns, VisitList, Visits;
    if i == |g.sequence| {
      NothingVisited(g, m, r, at);
    } else {
      var c := g.sequence[i];
      VisitsUnder(g, m, r, at, i + 1);
      if c.order > 0 { MemberFacts(g, m, r, i); }
      VisitsStep(g, m, r, at, i);
      if c.order > 0 {
        ListUnder(c, m.children[c.order - 1], r.lists[c.order - 1], at, c.order - 1, 0);
      }
    }
  }

  lemma NothingVisited(g: Gene, m: Tag, r: Rec, at: Addr)
    requires GeneFits(g, m) && Deep(m, r)
    ensures Visits(g, m, r, at, |g.sequence|) == []
  {
  }

  lemma {:induction false} ListUnder(c: Gene, m: Tag, es: seq<Rec>, at: Addr, k: nat, j: nat)
    requires GeneFits(c, m) && (forall j :: 0 <= j < |es| ==> Deep(m, es[j])) && j <= |es|
    ensures AllUnder(VisitList(c, m, es, at, k, j), at)
    decreases c, 1, |es| - j
  {
    if j < |es| {
      var a := at + [Step(k, j)];
      var inner := Visits(c, m, es[j], a, 0);
      VisitsUnder(c, m, es[j], a, 0);
      ListUnder(c, m, es, at, k, j + 1);
      forall p | p in inner ensures |at| < |p.at| && p.at[..|at|] == at {
        assert p.at[..|at|] == p.at[..|a|][..|at|];
      }
    }
  }

  /** Every element that the file has a tag for is decoded once and only once. */
  lemma {:induction false} MetOnce(g: Gene, m: Tag, r: Rec, at: Addr, i: nat, a: Addr)
    requires GeneFits(g, m) && Deep(m, r) && i <= |g.sequence| && Injective(g) && a != []
    ensures Times(Visits(g, m, r, at, i), at + a) == if InTree(r, a) && Sequenced(g, a, i) then 1 else 0
    decreases g, 0, |g.sequence| - i
  {
    hide GeneFits, Deep, Injective, Sequenced, Visits, VisitList;
    if i == |g.sequence| {
      NothingSequenced(g, m, r, at, a);
    } else {
      var c := g.sequence[i];
      MetOnce(g, m, r, at, i + 1, a);
      if c.order > 0 { MemberFacts(g, m, r, i); }
      VisitsStep(g, m, r, at, i);
      SequencedStep(g, a, i);
      if c.order > 0 {
        var k := c.order - 1;
        TimesConcat(VisitList(c, m.children[k], r.lists[k], at, k, 0), Visits(g, m, r, at, i + 1), at + a);
        MetOnceInList(c, m.children[k], r.lists[k], at, k, 0, a);
      } else {
        assert Visits(g, m, r, at, i) == Visits(g, m, r, at, i + 1);
      }
    }
  }

  lemma NothingSequenced(g: Gene, m: Tag, r: Rec, at: Addr, a: Addr)
    requires GeneFits(g, m) && Deep(m, r) && a != []
    ensures Visits(g, m, r, at, |g.sequence|) == [] && !Sequenced(g, a, |g.sequence|)
  {
  }

  lemma SequencedStep(g: Gene, a: Addr, i: nat)
    requires a != [] && i < |g.sequence| && Injective(g)
    ensures Injective(g.sequence[i])
    ensures var here := g.sequence[i].order == a[0].list + 1;
            && (Sequenced(g, a, i) <==> (here && Sequenced(g.sequence[i], a[1..], 0)) || Sequenced(g, a, i + 1))
            && (here ==> !Sequenced(g, a, i + 1))
  {
  }

  lemma SequencedHere(g: Gene)
    ensures Sequenced(g, [], 0)
  {
  }

  lemma {:induction false} MetOnceInList(c: Gene, m: Tag, es: seq<Rec>, at: Addr, k: nat, j: nat, a: Addr)
    requires GeneFits(c, m) && (forall j :: 0 <= j < |es| ==> Deep(m, es[j])) && j <= |es| && Injective(c) && a != []
    ensures Times(VisitList(c, m, es, at, k, j), at + a)
            == if a[0].list == k && j <= a[0].elem < |es| && InTree(es[a[0].elem], a[1..]) && Sequenced(c, a[1..], 0)
               then 1 else 0
    decreases c, 1, |es| - j
  {
    hide GeneFits, Deep, Injective, Sequenced, Visits, Columns;
    if j < |es| {
      var s := Step(k, j);
      var first, inner := [Place(m.name, at + [s])], Visits(c, m, es[j], at + [s], 0);
      var rest := VisitList(c, m, es, at, k, j + 1);
      TimesConcat(first + inner, rest, at + a);
      TimesConcat(first, inner, at + a);
      MetOnceInList(c, m, es, at, k, j + 1, a);
      if a[0] == s {
        assert at + a == (at + [s]) + a[1..];
        if a[1..] == [] {
          SequencedHere(c);
          VisitsUnder(c, m, es[j], at + [s], 0);
          NotUnder(inner, at + [s], at + a);
        } else {
          MetOnce(c, m, es[j], at + [s], 0, a[1..]);
        }
      } else {
        assert (at + a)[|at|] != (at + [s])[|at|];
        VisitsUnder(c, m, es[j], at + [s], 0);
        NotUnder(inner, at + [s], at + a);
      }
    }
  }

  // ------------------------------------------------- the record that a reader gets

  lemma OrdersDiffer(w: Tag, r: Tag)
    requires DistinctSiblings(w)
    ensures forall i, j :: 0 <= i < j < |w.children| && Genes(w, r)[i].order > 0 ==>
              Genes(w, r)[i].order != Genes(w, r)[j].order
  {
    hide Matched;
    forall i | 0 <= i < |w.children| && Genes(w, r)[i].order > 0
      ensures Genes(w, r)[i].order <= |r.children|
      ensures r.children[Genes(w, r)[i].order - 1].name == w.children[i].name
    {
      assert Genes(w, r)[i] == GeneFor(w.children[i], r);
    }
  }

  lemma {:induction false} GenomeIsInjective(w: Tag, r: Tag, order: nat, name: string)
    requires DistinctSiblings(w)
    ensures Injective(Gene(order, name, Genes(w, r)))
    decreases w
  {
    hide Matched;
    OrdersDiffer(w, r);
    forall i | 0 <= i < |w.children| ensures Injective(Genes(w, r)[i]) {
      var c := GeneFor(w.children[i], r);
      if c.order > 0 {
        GenomeIsInjective(w.children[i], r.children[c.order - 1], c.order, c.tagname);
      }
    }
  }

  lemma ProjectedElement(w: Tag, r: Tag, e: Rec, k: nat, j: nat)
    requires Conforms(w, e) && DistinctSiblings(r)
    requires k < |r.children| && j < |Project(w, r, e).lists[k]|
    ensures var i := Partner(w, r, k);
            && i < |w.children| && j < |e.lists[i]| && Conforms(w.children[i], e.lists[i][j])
            && Project(w, r, e).lists[k][j] == Project(w.children[i], r.children[k], e.lists[i][j])
            && FirstNamed(r.children, w.children[i].name) == k && Matched(w.children[i], r.children[k])
  {
    hide Matched;
    var i := Partner(w, r, k);
    assert Project(w, r, e).lists[k] == ProjectMember(w, r, e, k, |w.children|);
    assert ConformsList(w.children[i], e.lists[i]);
    var k' := FirstNamed(r.children, w.children[i].name);
    assert k' == k;
  }

  lemma {:induction false} ProjectionIsDeep(w: Tag, r: Tag, e: Rec)
    requires Conforms(w, e) && Agree(w, r) && DistinctSiblings(r)
    ensures Deep(r, Project(w, r, e))
    decreases w
  {
    var p := Project(w, r, e);
    forall k, j | 0 <= k < |r.children| && 0 <= j < |p.lists[k]|
      ensures Deep(r.children[k], p.lists[k][j])
    {
      var i := Partner(w, r, k);
      ProjectedElement(w, r, e, k, j);
      ProjectionIsDeep(w.children[i], r.children[k], e.lists[i][j]);
    }
  }

  // The reader's record has elements only where the file has a tag for them.
  lemma {:induction false} ProjectionIsSequenced(w: Tag, r: Tag, e: Rec, a: Addr, order: nat, name: string)
    requires Conforms(w, e) && DistinctSiblings(r) && |Project(w, r, e).lists| == |r.children|
    requires InTree(Project(w, r, e), a)
    ensures Sequenced(Gene(order, name, Genes(w, r)), a, 0)
    decreases w
  {
    if a != [] {
      var k := a[0].list;
      var i := Partner(w, r, k);
      ProjectedElement(w, r, e, k, a[0].elem);
      var c := GeneFor(w.children[i], r);
      assert Genes(w, r)[i] == c && c.order == k + 1;
      ProjectionIsSequenced(w.children[i], r.children[k], e.lists[i][a[0].elem], a[1..], c.order, c.tagname);
    }
  }

  /** What a reader holds after decoding any record of any file: for every tag, one host
      list with the elements in stream order, divided among the windows of the list
      members; and every element of the record is in one host list, once. */
  lemma HostListsOfProjection(w: Tag, r: Tag, e: Rec, name: string, a: Addr)
    requires Conforms(w, e) && TextsAgree(w, r) && DistinctSiblings(w) && DistinctSiblings(r) && NoOwnAncestor(r)
    ensures GeneFits(Genome(w, r), r) && Deep(r, Project(w, r, e))
    ensures var h, seen := Fill(Genome(w, r), r, Project(w, r, e), [], EMPTY, 0),
                           Visits(Genome(w, r), r, Project(w, r, e), [], 0);
            && Plist(h, name) == Named(seen, name)
            && Partitioned(h)
            && (a != [] ==> Times(seen, a) == if InTree(Project(w, r, e), a) then 1 else 0)
  {
    hide GeneFits, Deep, Conforms, Agree, DistinctSiblings, NoOwnAncestor, Fill, Visits, Project, Genes, Named, Times,
         InTree, InnerTags, Unmistaken;
    AgreeExactly(w, r);
    GenesFit(w, r, 0, "HDDM");
    GenomeIsInjective(w, r, 0, "HDDM");
    ProjectionIsDeep(w, r, e);
    var g, p := Genome(w, r), Project(w, r, e);
    ListsFollowStream(g, r, p, [], EMPTY, 0, name);
    ListsArePartitioned(g, r, p, [], EMPTY, 0);
    if a != [] {
      assert [] + a == a;
      MetOnce(g, r, p, [], 0, a);
      if InTree(p, a) { ProjectionIsSequenced(w, r, e, a, 0, "HDDM"); }
    }
  }

  // ------------------------------------------------- what the decoder fills

  /** The host lists after the decoder has filled lists that were empty: new elements of an
      empty list go to the end of its host list, as ElementList.Append has it. */
  function Play(h: Host, fs: seq<Refill>): (h': Host)
    decreases |fs|
  {
    if fs == [] then h
    else
      var f := fs[0];
      Play(if f.count == 0 then h else Add(h, f.name, f.at, f.member, f.count), fs[1..])
  }

  lemma {:induction false} PlayConcat(h: Host, fs: seq<Refill>, gs: seq<Refill>)
    ensures Play(h, fs + gs) == Play(Play(h, fs), gs)
    decreases |fs|
  {
    if fs == [] {
      assert fs + gs == gs;
    } else {
      var f := fs[0];
      assert (fs + gs)[1..] == fs[1..] + gs;
      PlayConcat(if f.count == 0 then h else Add(h, f.name, f.at, f.member, f.count), fs[1..], gs);
    }
  }

  lemma PlayOne(h: Host, f: Refill, gs: seq<Refill>)
    ensures Play(h, [f] + gs) == Play(if f.count == 0 then h else Add(h, f.name, f.at, f.member, f.count), gs)
  {
    assert ([f] + gs)[1..] == gs;
  }

  // The lists that blocks from number i on go to are empty.
  predicate Unfilled(g: Gene, x: Rec, i: nat) {
    forall n :: i <= n < |g.sequence| && 0 < g.sequence[n].order <= |x.lists| ==> x.lists[g.sequence[n].order - 1] == []
  }

  lemma DeepMember(m: Tag, x: Rec, k: nat, es: seq<Rec>)
    requires Deep(m, x) && k < |m.children| && forall j :: 0 <= j < |es| ==> Deep(m.children[k], es[j])
    ensures Shaped(m, x) && Deep(m, x.(lists := x.lists[k := es]))
  {
  }

  lemma DeepShape(m: Tag, x: Rec)
    requires Deep(m, x)
    ensures Shaped(m, x)
  {
  }

  lemma BlankIsDeep(m: Tag, vs: seq<Value>)
    requires |vs| == |Columns(m.attrs)|
    ensures Shaped(m, Blank(m)) && Deep(m, Rec(vs, Blank(m).lists))
    ensures forall k :: 0 <= k < |m.children| ==> Blank(m).lists[k] == []
  {
  }

  /** The lists that the decoder fills, and the order in which it fills them, are those of
      the record that it has decoded in the end. */
  lemma {:induction false} RefillsFill(g: Gene, m: Tag, b: seq<byte>, p: nat, x: Rec, at: Addr, h: Host, i: nat)
    requires GeneFits(g, m) && Injective(g) && Deep(m, x) && i <= |g.sequence| && Unfilled(g, x, i)
    ensures Shaped(m, x)
    ensures var e := ParseChildren(g, m, b, p, x, i).0;
            Deep(m, e) && Play(h, ChildRefills(g, m, b, p, at, i)) == Fill(g, m, e, at, h, i)
    decreases g, 0, |g.sequence| - i
  {
    hide Columns, GeneFits, Deep, Fill, FillElems, ReadInt, ListRefills, ParseList, Deposit, Add, Play, Injective,
         ParseChildren, Unfilled, ChildRefills;
    DeepShape(m, x);
    if i == |g.sequence| {
      NoBlocks(g, m, b, p, x, at, h);
    } else {
      var c := g.sequence[i];
      var (size, q) := ReadInt(b, p);
      OrderFits(g, m, i);
      ParseStep(g, m, b, p, x, i, size, q);
      RefillsStep(g, m, b, p, at, i);
      if c.order == 0 || size <= 0 {
        var q' := if size <= 0 then q else q + size;
        if c.order == 0 { NoDeposit(c, m, b, q, x); }
        UnfilledNext(g, m, x, i);
        RefillsFill(g, m, b, q', x, at, h, i + 1);
        var e := ParseChildren(g, m, b, q', x, i + 1).0;
        if c.order > 0 {
          Untouched(g, m, b, q', x, i + 1, c.order - 1);
          MemberFacts(g, m, e, i);
        }
        FillStep(g, m, e, at, h, i);
      } else {
        var k := c.order - 1;
        var kid, es, x' := m.children[k], ParseList(c, m.children[k], b, q).0, Deposit(c, m, b, q, x);
        InjectiveBelow(g, i);
        ListFills(c, kid, b, q, at, k, h);
        DeepMember(m, x, k, es);
        DepositIs(c, m, b, q, x, k);
        UnfilledAfter(g, m, x, i, es);
        var h' := Play(h, ListRefills(c, kid, b, q, at, k));
        RefillsFill(g, m, b, q + size, x', at, h', i + 1);
        var e := ParseChildren(g, m, b, q + size, x', i + 1).0;
        Untouched(g, m, b, q + size, x', i + 1, k);
        MemberFacts(g, m, e, i);
        FillStep(g, m, e, at, h, i);
        PlayConcat(h, ListRefills(c, kid, b, q, at, k), ChildRefills(g, m, b, q + size, at, i + 1));
      }
    }
  }

  lemma NoBlocks(g: Gene, m: Tag, b: seq<byte>, p: nat, x: Rec, at: Addr, h: Host)
    requires GeneFits(g, m) && Deep(m, x) && Shaped(m, x)
    ensures var n := |g.sequence|;
            && ParseChildren(g, m, b, p, x, n) == (x, p) && Fill(g, m, x, at, h, n) == h
            && Play(h, ChildRefills(g, m, b, p, at, n)) == h
  {
  }

  lemma NoDeposit(c: Gene, m: Tag, b: seq<byte>, q: nat, x: Rec)
    requires c.order == 0 && Shaped(m, x)
    ensures Deposit(c, m, b, q, x) == x
  {
  }

  lemma DepositIs(c: Gene, m: Tag, b: seq<byte>, q: nat, x: Rec, k: nat)
    requires c.order == k + 1 <= |m.children| && GeneFits(c, m.children[k]) && Shaped(m, x)
    ensures Deposit(c, m, b, q, x) == x.(lists := x.lists[k := ParseList(c, m.children[k], b, q).0])
  {
    hide GeneFits, ParseList, Columns;
  }

  lemma RefillsStep(g: Gene, m: Tag, b: seq<byte>, p: nat, at: Addr, i: nat)
    requires GeneFits(g, m) && i < |g.sequence|
    requires g.sequence[i].order <= |m.children|
    requires g.sequence[i].order > 0 ==> GeneFits(g.sequence[i], m.children[g.sequence[i].order - 1])
    ensures var c, (size, q) := g.sequence[i], ReadInt(b, p);
            ChildRefills(g, m, b, p, at, i)
            == if size <= 0 then ChildRefills(g, m, b, q, at, i + 1)
               else if c.order == 0 then ChildRefills(g, m, b, q + size, at, i + 1)
               else ListRefills(c, m.children[c.order - 1], b, q, at, c.order - 1)
                    + ChildRefills(g, m, b, q + size, at, i + 1)
  {
    hide GeneFits, ListRefills, ReadInt;
    var c := g.sequence[i];
    var (size, q) := ReadInt(b, p);
    if size > 0 && c.order == 0 {
      var rest := ChildRefills(g, m, b, q + size, at, i + 1);
      assert [] + rest == rest;
    }
  }

  lemma InjectiveBelow(g: Gene, i: nat)
    requires Injective(g) && i < |g.sequence|
    ensures Injective(g.sequence[i])
    ensures g.sequence[i].order > 0 ==>
              forall j :: i < j < |g.sequence| ==> g.sequence[j].order != g.sequence[i].order
  {
  }

  lemma UnfilledNext(g: Gene, m: Tag, x: Rec, i: nat)
    requires Injective(g) && Shaped(m, x) && i < |g.sequence| && Unfilled(g, x, i)
    ensures Unfilled(g, x, i + 1)
    ensures 0 < g.sequence[i].order <= |m.children| ==>
              && x.lists[g.sequence[i].order - 1] == []
              && forall j :: i + 1 <= j < |g.sequence| ==> g.sequence[j].order != g.sequence[i].order
  {
    InjectiveBelow(g, i);
  }

  lemma UnfilledAfter(g: Gene, m: Tag, x: Rec, i: nat, es: seq<Rec>)
    requires Injective(g) && Shaped(m, x) && i < |g.sequence| && Unfilled(g, x, i)
    requires 0 < g.sequence[i].order <= |m.children|
    ensures Unfilled(g, x.(lists := x.lists[g.sequence[i].order - 1 := es]), i + 1)
  {
    InjectiveBelow(g, i);
  }

  lemma {:induction false} ListFills(c: Gene, m: Tag, b: seq<byte>, p: nat, at: Addr, k: nat, h: Host)
    requires GeneFits(c, m) && Injective(c)
    ensures var es := ParseList(c, m, b, p).0;
            && (forall j :: 0 <= j < |es| ==> Deep(m, es[j]))
            && Play(h, ListRefills(c, m, b, p, at, k))
               == if es == [] then h else FillElems(c, m, es, at, k, Add(h, m.name, at, k, |es|), 0)
    decreases c, 3, 0
  {
    hide Columns, GeneFits, Deep, Fill, FillElems, ReadInt, Add, Play, Injective, ParseElem, ElemRefills, Repeats,
         EachRefills, ParseElems;
    var es := ParseList(c, m, b, p).0;
    if Repeats(m) {
      var (size, q) := ReadInt(b, p);
      var n := if size > 0 then size else 0;
      EachFills(c, m, b, q, at, k, if n == 0 then h else Add(h, m.name, at, k, n), es, 0);
      PlayOne(h, Refill(m.name, at, k, n), EachRefills(c, m, b, q, at, k, 0, n));
      if n == 0 { FillElemsStep(c, m, es, at, k, h, 0); }
    } else {
      var h1 := Add(h, m.name, at, k, 1);
      ElemFills(c, m, b, p, at + [Step(k, 0)], h1);
      PlayOne(h, Refill(m.name, at, k, 1), ElemRefills(c, m, b, p, at + [Step(k, 0)]));
      FillElemsStep(c, m, es, at, k, h1, 0);
      FillElemsStep(c, m, es, at, k, Fill(c, m, es[0], at + [Step(k, 0)], h1, 0), 1);
    }
  }

  lemma {:induction false} ElemFills(c: Gene, m: Tag, b: seq<byte>, p: nat, at: Addr, h: Host)
    requires GeneFits(c, m) && Injective(c)
    ensures var e := ParseElem(c, m, b, p, Blank(m)).0;
            Deep(m, e) && Play(h, ElemRefills(c, m, b, p, at)) == Fill(c, m, e, at, h, 0)
    decreases c, 1, 0
  {
    hide Columns, GeneFits, Deep, Fill, Play, Injective, ParseChildren, ChildRefills, ReadValues;
    var (vs, q) := ReadValues(Columns(m.attrs), b, p, Blank(m).vals, 0);
    BlankIsDeep(m, vs);
    RefillsFill(c, m, b, q, Rec(vs, Blank(m).lists), at, h, 0);
  }

  lemma {:induction false} EachFills(c: Gene, m: Tag, b: seq<byte>, p: nat, at: Addr, k: nat, h: Host, es: seq<Rec>,
                                     j: nat)
    requires GeneFits(c, m) && Injective(c) && j <= |es| && es[j..] == ParseElems(c, m, b, p, |es| - j).0
    ensures forall i :: j <= i < |es| ==> Deep(m, es[i])
    ensures (forall i :: 0 <= i < j ==> Deep(m, es[i])) ==>
              Play(h, EachRefills(c, m, b, p, at, k, j, |es|)) == FillElems(c, m, es, at, k, h, j)
    decreases c, 2, |es| - j
  {
    hide Columns, GeneFits, Deep, Fill, FillElems, Play, Injective, ParseElem, ElemRefills, ParseElems, EachRefills;
    NoMorePlay(c, m, b, p, at, k, h, |es|);
    if j < |es| {
      var (e, q) := ParseElem(c, m, b, p, Blank(m));
      var a := at + [Step(k, j)];
      ParseElemsStep(c, m, b, p, |es| - j, e, q);
      assert es[j] == es[j..][0] && es[j + 1..] == es[j..][1..];
      ElemFills(c, m, b, p, a, h);
      EachFills(c, m, b, q, at, k, Play(h, ElemRefills(c, m, b, p, a)), es, j + 1);
      EachStep(c, m, b, p, at, k, j, |es|);
      PlayConcat(h, ElemRefills(c, m, b, p, a), EachRefills(c, m, b, q, at, k, j + 1, |es|));
    }
    if forall i :: 0 <= i < |es| ==> Deep(m, es[i]) { FillElemsStep(c, m, es, at, k, h, j); }
  }

  lemma NoMorePlay(c: Gene, m: Tag, b: seq<byte>, p: nat, at: Addr, k: nat, h: Host, n: nat)
    requires GeneFits(c, m)
    ensures Play(h, EachRefills(c, m, b, p, at, k, n, n)) == h
  {
    hide GeneFits;
  }

  lemma EachStep(c: Gene, m: Tag, b: seq<byte>, p: nat, at: Addr, k: nat, j: nat, n: nat)
    requires GeneFits(c, m) && j < n
    ensures EachRefills(c, m, b, p, at, k, j, n)
            == ElemRefills(c, m, b, p, at + [Step(k, j)])
               + EachRefills(c, m, b, ParseElem(c, m, b, p, Blank(m)).1, at, k, j + 1, n)
  {
    hide GeneFits, ElemRefills, ParseElem;
  }

  // Each of these lists is filled once at most.
  predicate Once(fs: seq<Refill>) {
    forall i, j :: 0 <= i < j < |fs| ==> fs[i].at != fs[j].at || fs[i].member != fs[j].member
  }

  // The list is below the element at address at, in its member number Via.
  predicate Beneath(f: Refill, at: Addr) {
    at <= f.at
  }

  function Via(f: Refill, at: Addr): (k: nat)
    requires Beneath(f, at)
  {
    if f.at == at then f.member else f.at[|at|].list
  }

  lemma OnceConcat(fs: seq<Refill>, gs: seq<Refill>)
    requires Once(fs) && Once(gs)
    requires forall f, g :: f in fs && g in gs ==> f.at != g.at || f.member != g.member
    ensures Once(fs + gs)
  {
  }

  /** No list is filled twice.  So each is empty when it is cleared and filled, which is
      what Play takes for granted. */
  lemma {:induction false} FilledOnce(g: Gene, m: Tag, b: seq<byte>, p: nat, at: Addr, i: nat)
    requires GeneFits(g, m) && Injective(g) && i <= |g.sequence|
    ensures var fs := ChildRefills(g, m, b, p, at, i);
            && Once(fs)
            && forall f :: f in fs ==>
                 Beneath(f, at) && exists n :: i <= n < |g.sequence| && g.sequence[n].order == Via(f, at) + 1
    decreases g, 0, |g.sequence| - i
  {
    hide GeneFits, Injective, Once, Beneath, Via, ListRefills, ChildRefills, ReadInt;
    if i == |g.sequence| {
      NoneFilled(g, m, b, p, at);
    } else {
      var c := g.sequence[i];
      var (size, q) := ReadInt(b, p);
      OrderFits(g, m, i);
      InjectiveBelow(g, i);
      RefillsStep(g, m, b, p, at, i);
      FilledOnce(g, m, b, if size <= 0 then q else q + size, at, i + 1);
      if size > 0 && c.order > 0 {
        var k := c.order - 1;
        var fs, gs := ListRefills(c, m.children[k], b, q, at, k), ChildRefills(g, m, b, q + size, at, i + 1);
        ListOnce(c, m.children[k], b, q, at, k);
        forall f, g' | f in fs && g' in gs ensures f.at != g'.at || f.member != g'.member {
          SameVia(f, g', at);
        }
        OnceConcat(fs, gs);
      }
    }
  }

  lemma NoneFilled(g: Gene, m: Tag, b: seq<byte>, p: nat, at: Addr)
    requires GeneFits(g, m)
    ensures ChildRefills(g, m, b, p, at, |g.sequence|) == [] && Once([])
  {
  }

  lemma SameVia(f: Refill, g: Refill, at: Addr)
    requires Beneath(f, at) && Beneath(g, at) && Via(f, at) != Via(g, at)
    ensures f.at != g.at || f.member != g.member
  {
  }

  lemma {:induction false} ListOnce(c: Gene, m: Tag, b: seq<byte>, p: nat, at: Addr, k: nat)
    requires GeneFits(c, m) && Injective(c)
    ensures var fs := ListRefills(c, m, b, p, at, k);
            Once(fs) && forall f :: f in fs ==> Beneath(f, at) && Via(f, at) == k
    decreases c, 3, 0
  {
    hide GeneFits, Injective, ElemRefills, EachRefills, ReadInt, Repeats, Once;
    if Repeats(m) {
      var (size, q) := ReadInt(b, p);
      var n := if size > 0 then size else 0;
      EachOnce(c, m, b, q, at, k, 0, n);
      OnceFirst(Refill(m.name, at, k, n), EachRefills(c, m, b, q, at, k, 0, n));
    } else {
      var a := at + [Step(k, 0)];
      ElemOnce(c, m, b, p, a);
      assert forall f :: Beneath(f, a) ==> f.at[|at|] == a[|at|];
      OnceFirst(Refill(m.name, at, k, 1), ElemRefills(c, m, b, p, a));
    }
  }

  lemma OnceFirst(f: Refill, gs: seq<Refill>)
    requires Once(gs) && forall g :: g in gs ==> f.at < g.at
    ensures Once([f] + gs)
  {
  }

  lemma {:induction false} ElemOnce(c: Gene, m: Tag, b: seq<byte>, p: nat, at: Addr)
    requires GeneFits(c, m) && Injective(c)
    ensures var fs := ElemRefills(c, m, b, p, at);
            Once(fs) && forall f :: f in fs ==> Beneath(f, at)
    decreases c, 1, 0
  {
    hide GeneFits, Injective, ChildRefills, ReadValues, Columns, Once;
    FilledOnce(c, m, b, ReadValues(Columns(m.attrs), b, p, Blank(m).vals, 0).1, at, 0);
  }

  lemma {:induction false} EachOnce(c: Gene, m: Tag, b: seq<byte>, p: nat, at: Addr, k: nat, j: nat, n: nat)
    requires GeneFits(c, m) && Injective(c) && j <= n
    ensures var fs := EachRefills(c, m, b, p, at, k, j, n);
            Once(fs) && forall f :: f in fs ==> at < f.at && f.at[|at|].list == k && f.at[|at|].elem >= j
    decreases c, 2, n - j
  {
    hide GeneFits, Injective, ElemRefills, ParseElem, Once;
    if j == n {
      NoneFilledHere();
    } else {
      var a, q := at + [Step(k, j)], ParseElem(c, m, b, p, Blank(m)).1;
      ElemOnce(c, m, b, p, a);
      EachOnce(c, m, b, q, at, k, j + 1, n);
      EachStep(c, m, b, p, at, k, j, n);
      assert forall f :: Beneath(f, a) ==> f.at[|at|] == a[|at|];
      OnceConcat(ElemRefills(c, m, b, p, a), EachRefills(c, m, b, q, at, k, j + 1, n));
    }
  }

  lemma NoneFilledHere()
    ensures Once([])
  {
  }

  /** What the machine leaves in the host lists when it reads any record of any compatible
      file: every tag's list in stream order, divided among the windows of the members. */
  lemma HostListsOfBytes(w: Tag, r: Tag, e: Rec, b: seq<byte>, p: nat)
    requires Compatible(w, r) && |b| < TWO31 && Conforms(w, e) && At(b, p, EncodeRecord(w, e))
    requires e.vals != [] || w.children != []
    ensures GeneFits(Genome(w, r), r) && Deep(r, Project(w, r, e))
    ensures var fs := ElemRefills(Genome(w, r), r, b, ReadInt(b, p).1, []);
            var h := Play(EMPTY, fs);
            && Once(fs) && Partitioned(h)
            && (NoOwnAncestor(r) ==>
                  forall name :: Plist(h, name) == Named(Visits(Genome(w, r), r, Project(w, r, e), [], 0), name))
  {
    hide Agree, DistinctSiblings, Conforms, InnerTags, Unmistaken, LinksHaveContent, GeneFits, Fill, Play, ParseElem,
         ElemRefills, Project, Genes, At, EncodeRecord, Deep, Columns, ReadInt, Visits, Named, Partitioned, Plist,
         NoOwnAncestor, Injective, Once;
    AgreeExactly(w, r);
    GenesFit(w, r, 0, "HDDM");
    GenomeIsInjective(w, r, 0, "HDDM");
    SchemaEvolution(w, r, e, b, p);
    var g, pr, q := Genome(w, r), Project(w, r, e), ReadInt(b, p).1;
    ElemFills(g, r, b, q, [], EMPTY);
    ElemOnce(g, r, b, q, []);
    EmptyIsPartitioned();
    ListsArePartitioned(g, r, pr, [], EMPTY, 0);
    if NoOwnAncestor(r) {
      forall name ensures Plist(Fill(g, r, pr, [], EMPTY, 0), name) == Named(Visits(g, r, pr, [], 0), name) {
        ListsFollowStream(g, r, pr, [], EMPTY, 0, name);
        NothingIn(name);
        Alone(Named(Visits(g, r, pr, [], 0), name));
      }
    }
  }

  lemma EmptyIsPartitioned()
    ensures Partitioned(EMPTY)
  {
  }

  lemma NothingIn(name: string)
    ensures Plist(EMPTY, name) == []
  {
  }

  // ------------------------------------------------- the order of the bytes

  // An element of the reader, and where the bytes start from which it is decoded: those of
  // the element elem of the file's tag.
  datatype Stop = Stop(place: Place, pos: nat, tag: Tag, elem: Rec)

  // The bytes of the stored attributes of an element.
  function Head(m: Tag, e: Rec): (n: nat)
    requires Conforms(m, e)
  {
    |EncodeValues(Columns(m.attrs), e.vals)|
  }

  // The matched elements below e in the order of their bytes; p is the position of the
  // block of child tag i.
  function Trail(w: Tag, r: Tag, e: Rec, at: Addr, p: nat, i: nat): (ts: seq<Stop>)
    requires Conforms(w, e) && i <= |w.children|
    decreases w, 0, |w.children| - i
  {
    if i == |w.children| then []
    else
      var k, q := GeneFor(w.children[i], r).order, p + 4 + if Repeats(w.children[i]) then 4 else 0;
      (if k == 0 then [] else TrailList(w.children[i], r.children[k - 1], e.lists[i], at, k - 1, q, 0))
      + Trail(w, r, e, at, p + 4 + |Bodies(w, e)[i]|, i + 1)
  }

  function TrailList(w: Tag, r: Tag, es: seq<Rec>, at: Addr, k: nat, p: nat, j: nat): (ts: seq<Stop>)
    requires ConformsList(w, es) && j <= |es|
    decreases w, 1, |es| - j
  {
    if j == |es| then []
    else
      var a, q := at + [Step(k, j)], p + Head(w, es[j]);
      [Stop(Place(r.name, a), p, w, es[j])] + Trail(w, r, es[j], a, q, 0)
      + TrailList(w, r, es, at, k, p + |EncodeElem(w, es[j])|, j + 1)
  }

  function Places(ts: seq<Stop>): (ps: seq<Place>)
    ensures |ps| == |ts|
  {
    seq(|ts|, i requires 0 <= i < |ts| => ts[i].place)
  }

  lemma PlacesConcat(ts: seq<Stop>, us: seq<Stop>)
    ensures Places(ts + us) == Places(ts) + Places(us)
  {
  }

  lemma ProjectedList(w: Tag, r: Tag, e: Rec, i: nat)
    requires Conforms(w, e) && DistinctSiblings(w) && DistinctSiblings(r)
    requires i < |w.children| && GeneFor(w.children[i], r).order > 0
    ensures var k := GeneFor(w.children[i], r).order - 1;
            && i < |e.lists| && ConformsList(w.children[i], e.lists[i])
            && Project(w, r, e).lists[k] == ProjectList(w.children[i], r.children[k], e.lists[i])
  {
    hide Matched, ProjectList;
    var k := GeneFor(w.children[i], r).order - 1;
    PartnerIsOrder(w, r, i, k);
    assert Project(w, r, e).lists[k] == ProjectMember(w, r, e, k, |w.children|);
  }

  /** The trail passes the elements in the order in which they are decoded. */
  lemma {:induction false} TrailIsVisits(w: Tag, r: Tag, e: Rec, g: Gene, at: Addr, p: nat, i: nat)
    requires Conforms(w, e) && DistinctSiblings(w) && DistinctSiblings(r) && i <= |w.children|
    requires g.sequence == Genes(w, r) && GeneFits(g, r) && Deep(r, Project(w, r, e))
    ensures Places(Trail(w, r, e, at, p, i)) == Visits(g, r, Project(w, r, e), at, i)
    decreases w, 0, |w.children| - i
  {
    hide GeneFits, Deep, Conforms, DistinctSiblings, Project, Bodies, VisitList, TrailList, Columns, GeneFor, Places;
    if i == |w.children| {
      assert Places([]) == [];
    } else {
      var c, x := g.sequence[i], Project(w, r, e);
      var q := p + 4 + |Bodies(w, e)[i]|;
      TrailIsVisits(w, r, e, g, at, q, i + 1);
      if c.order > 0 {
        MemberFacts(g, r, x, i);
        VisitsStep(g, r, x, at, i);
        ProjectedList(w, r, e, i);
        SiblingsBelow(w, r, i, c.order - 1);
        var wc, rc, k := w.children[i], r.children[c.order - 1], c.order - 1;
        var start := p + 4 + if Repeats(wc) then 4 else 0;
        GeneSequence(w, r, i);
        TrailListIsVisits(wc, rc, e.lists[i], c, at, k, start, 0);
        PlacesConcat(TrailList(wc, rc, e.lists[i], at, k, start, 0), Trail(w, r, e, at, q, i + 1));
      } else {
        VisitsStep(g, r, x, at, i);
        PlacesConcat([], Trail(w, r, e, at, q, i + 1));
      }
    }
  }

  lemma GeneSequence(w: Tag, r: Tag, i: nat)
    requires i < |w.children| && Genes(w, r)[i].order > 0
    ensures Genes(w, r)[i].sequence == Genes(w.children[i], r.children[Genes(w, r)[i].order - 1])
    ensures Genes(w, r)[i] == GeneFor(w.children[i], r)
  {
  }

  lemma SiblingsBelow(w: Tag, r: Tag, i: nat, k: nat)
    requires DistinctSiblings(w) && DistinctSiblings(r) && i < |w.children| && k < |r.children|
    ensures DistinctSiblings(w.children[i]) && DistinctSiblings(r.children[k])
  {
  }

  lemma {:induction false} TrailListIsVisits(w: Tag, r: Tag, es: seq<Rec>, g: Gene, at: Addr, k: nat, p: nat, j: nat)
    requires ConformsList(w, es) && DistinctSiblings(w) && DistinctSiblings(r) && j <= |es|
    requires g.sequence == Genes(w, r) && GeneFits(g, r)
    requires forall n :: 0 <= n < |es| ==> Deep(r, ProjectList(w, r, es)[n])
    ensures Places(TrailList(w, r, es, at, k, p, j)) == VisitList(g, r, ProjectList(w, r, es), at, k, j)
    decreases w, 1, |es| - j
  {
    hide GeneFits, Deep, Conforms, DistinctSiblings, Project, Visits, Trail, Columns, EncodeElem, Head, Places,
         Genes;
    if j < |es| {
      var a, q := at + [Step(k, j)], p + Head(w, es[j]);
      var stop, inner := Stop(Place(r.name, a), p, w, es[j]), Trail(w, r, es[j], a, q, 0);
      var rest := TrailList(w, r, es, at, k, p + |EncodeElem(w, es[j])|, j + 1);
      assert ProjectList(w, r, es)[j] == Project(w, r, es[j]);
      TrailIsVisits(w, r, es[j], g, a, q, 0);
      TrailListIsVisits(w, r, es, g, at, k, p + |EncodeElem(w, es[j])|, j + 1);
      PlacesConcat([stop] + inner, rest);
      PlacesConcat([stop], inner);
      OnePlace(stop);
    } else {
      NoPlaces();
    }
  }

  lemma OnePlace(s: Stop)
    ensures Places([s]) == [s.place]
  {
  }

  lemma NoPlaces()
    ensures Places([]) == []
  {
  }

  // At this stop are the bytes of its element, whose values the reader's element has.
  predicate Marked(s: Stop, root: Rec, b: seq<byte>) {
    && Conforms(s.tag, s.elem) && At(b, s.pos, EncodeElem(s.tag, s.elem))
    && InTree(root, s.place.at) && Get(root, s.place.at).vals == s.elem.vals
  }

  // Stops from lo to hi, in this order.
  predicate Marks(ts: seq<Stop>, root: Rec, b: seq<byte>, lo: nat, hi: nat) {
    && lo <= hi
    && (forall i :: 0 <= i < |ts| ==> lo <= ts[i].pos <= hi && Marked(ts[i], root, b))
    && (forall i, j :: 0 <= i < j < |ts| ==> ts[i].pos <= ts[j].pos)
  }

  lemma MarksConcat(ts: seq<Stop>, us: seq<Stop>, root: Rec, b: seq<byte>, lo: nat, mid: nat, hi: nat)
    requires Marks(ts, root, b, lo, mid) && Marks(us, root, b, mid, hi)
    ensures Marks(ts + us, root, b, lo, hi)
  {
    hide Marked;
  }

  lemma NoMarks(root: Rec, b: seq<byte>, lo: nat, hi: nat)
    requires lo <= hi
    ensures Marks([], root, b, lo, hi)
  {
  }

  lemma OneMark(s: Stop, root: Rec, b: seq<byte>, hi: nat)
    requires Marked(s, root, b) && s.pos <= hi
    ensures Marks([s], root, b, s.pos, hi)
  {
    hide Marked;
  }

  /** The stops of the trail lie in the order of their positions, and at each of them are
      the bytes from which the element that it names is decoded. */
  lemma {:induction false} TrailMarks(w: Tag, r: Tag, e: Rec, root: Rec, at: Addr, b: seq<byte>, p: nat, i: nat)
    requires Conforms(w, e) && DistinctSiblings(w) && DistinctSiblings(r) && i <= |w.children|
    requires InTree(root, at) && Get(root, at) == Project(w, r, e) && At(b, p, Framed(Bodies(w, e), i))
    ensures Marks(Trail(w, r, e, at, p, i), root, b, p, p + |Framed(Bodies(w, e), i)|)
    decreases w, 0, |w.children| - i
  {
    hide At, Conforms, DistinctSiblings, Project, Bodies, TrailList, Columns, GeneFor, Marks, InTree, Get, EncodeList,
         ConformsList;
    var bodies := Bodies(w, e);
    var end := p + |Framed(bodies, i)|;
    if i == |w.children| {
      NoMarks(root, b, p, end);
    } else {
      var body, q, k := bodies[i], p + 4 + |bodies[i]|, GeneFor(w.children[i], r).order;
      AtConcat(b, p, Block(body), Framed(bodies, i + 1));
      AtConcat(b, p, U32(|body|), body);
      TrailMarks(w, r, e, root, at, b, q, i + 1);
      NoMarks(root, b, p, q);
      if k > 0 { MemberMarks(w, r, e, root, at, b, p, i); }
      MarksConcat(Stops(w, r, e, at, p, i), Trail(w, r, e, at, q, i + 1), root, b, p, q, end);
    }
  }

  // The part of the trail in the block of child tag i.
  function Stops(w: Tag, r: Tag, e: Rec, at: Addr, p: nat, i: nat): (ts: seq<Stop>)
    requires Conforms(w, e) && i < |w.children|
  {
    var k, q := GeneFor(w.children[i], r).order, p + 4 + if Repeats(w.children[i]) then 4 else 0;
    if k == 0 then [] else TrailList(w.children[i], r.children[k - 1], e.lists[i], at, k - 1, q, 0)
  }

  lemma {:induction false} MemberMarks(w: Tag, r: Tag, e: Rec, root: Rec, at: Addr, b: seq<byte>, p: nat, i: nat)
    requires Conforms(w, e) && DistinctSiblings(w) && DistinctSiblings(r) && i < |w.children|
    requires InTree(root, at) && Get(root, at) == Project(w, r, e) && GeneFor(w.children[i], r).order > 0
    requires At(b, p + 4, Bodies(w, e)[i])
    ensures Marks(Stops(w, r, e, at, p, i), root, b, p, p + 4 + |Bodies(w, e)[i]|)
    decreases w, 0, 0
  {
    hide At, Conforms, DistinctSiblings, Project, Bodies, TrailList, Columns, GeneFor, Marks, InTree, Get, EncodeList,
         ConformsList, Repeats;
    var k := GeneFor(w.children[i], r).order - 1;
    var ts, q := Stops(w, r, e, at, p, i), p + 4 + |Bodies(w, e)[i]|;
    ProjectedList(w, r, e, i);
    SiblingsBelow(w, r, i, k);
    BodyOfList(w, e, i);
    ListMarks(w.children[i], r.children[k], e.lists[i], root, at, k, b, p + 4);
    NoMarks(root, b, p, p + 4);
    MarksConcat([], ts, root, b, p, p + 4, q);
    assert [] + ts == ts;
  }

  lemma BodyOfList(w: Tag, e: Rec, i: nat)
    requires Conforms(w, e) && i < |w.children|
    ensures i < |e.lists| && ConformsList(w.children[i], e.lists[i])
    ensures Bodies(w, e)[i] == EncodeList(w.children[i], e.lists[i])
  {
  }

  lemma {:induction false} ListMarks(w: Tag, r: Tag, es: seq<Rec>, root: Rec, at: Addr, k: nat, b: seq<byte>, p: nat)
    requires ConformsList(w, es) && DistinctSiblings(w) && DistinctSiblings(r)
    requires InTree(root, at) && k < |Get(root, at).lists| && Get(root, at).lists[k] == ProjectList(w, r, es)
    requires At(b, p, EncodeList(w, es))
    ensures var start := p + if Repeats(w) then 4 else 0;
            Marks(TrailList(w, r, es, at, k, start, 0), root, b, p, p + |EncodeList(w, es)|)
    decreases w, 2
  {
    hide At, Conforms, DistinctSiblings, ProjectList, EncodeElem, EncodeList, Joined, Repeats, Marks, Get, InTree;
    if es == [] {
      NoBytes(w);
      NoMarks(root, b, p, p);
    } else {
      var start, body := p + (if Repeats(w) then 4 else 0), Joined(ElemParts(w, es), 0);
      ListBytes(w, es, b, p);
      ElemsMark(w, r, es, root, at, k, b, start, 0);
      NoMarks(root, b, p, start);
      var ts := TrailList(w, r, es, at, k, start, 0);
      MarksConcat([], ts, root, b, p, start, start + |body|);
      assert [] + ts == ts;
    }
  }

  lemma NoBytes(w: Tag)
    requires ConformsList(w, [])
    ensures EncodeList(w, []) == []
  {
  }

  // Behind the count, if there is one, are the elements.
  lemma ListBytes(w: Tag, es: seq<Rec>, b: seq<byte>, p: nat)
    requires ConformsList(w, es) && es != [] && At(b, p, EncodeList(w, es))
    ensures var start, body := p + (if Repeats(w) then 4 else 0), Joined(ElemParts(w, es), 0);
            At(b, start, body) && start + |body| == p + |EncodeList(w, es)|
  {
    hide At, Conforms, EncodeElem, Repeats;
    var body := Joined(ElemParts(w, es), 0);
    if !Repeats(w) { OnePart(ElemParts(w, es)); }
    assert EncodeList(w, es) == (if Repeats(w) then U32(|es|) else []) + body;
    AtConcat(b, p, if Repeats(w) then U32(|es|) else [], body);
  }

  lemma {:induction false} ElemsMark(w: Tag, r: Tag, es: seq<Rec>, root: Rec, at: Addr, k: nat, b: seq<byte>, p: nat,
                                     j: nat)
    requires ConformsList(w, es) && DistinctSiblings(w) && DistinctSiblings(r) && j <= |es|
    requires InTree(root, at) && k < |Get(root, at).lists| && Get(root, at).lists[k] == ProjectList(w, r, es)
    requires At(b, p, Joined(ElemParts(w, es), j))
    ensures Marks(TrailList(w, r, es, at, k, p, j), root, b, p, p + |Joined(ElemParts(w, es), j)|)
    decreases w, 1, |es| - j
  {
    hide At, Conforms, DistinctSiblings, Columns, Trail, Head, Framed, Bodies, Marks, Get, InTree, Project,
         EncodeElem;
    var parts := ElemParts(w, es);
    if j == |es| {
      NoMarks(root, b, p, p);
    } else {
      var e, a := es[j], at + [Step(k, j)];
      var head, q, end := Head(w, e), p + |EncodeElem(w, e)|, p + |Joined(parts, j)|;
      AtConcat(b, p, parts[j], Joined(parts, j + 1));
      ElemsMark(w, r, es, root, at, k, b, q, j + 1);
      ElemAt(w, r, es, root, at, k, j);
      ElemBytes(w, e, b, p);
      TrailMarks(w, r, e, root, a, b, p + head, 0);
      var stop, inner, rest := Stop(Place(r.name, a), p, w, e), Trail(w, r, e, a, p + head, 0),
                               TrailList(w, r, es, at, k, q, j + 1);
      OneMark(stop, root, b, p + head);
      MarksConcat([stop], inner, root, b, p, p + head, q);
      MarksConcat([stop] + inner, rest, root, b, p, q, end);
    }
  }

  lemma ElemAt(w: Tag, r: Tag, es: seq<Rec>, root: Rec, at: Addr, k: nat, j: nat)
    requires ConformsList(w, es) && j < |es|
    requires InTree(root, at) && k < |Get(root, at).lists| && Get(root, at).lists[k] == ProjectList(w, r, es)
    ensures InTree(root, at + [Step(k, j)]) && Conforms(w, es[j])
    ensures Get(root, at + [Step(k, j)]) == Project(w, r, es[j])
    ensures Get(root, at + [Step(k, j)]).vals == es[j].vals
  {
    hide Conforms;
    DescendGet(root, at, Step(k, j));
    assert [Step(k, j)][1..] == [];
  }

  lemma ElemBytes(w: Tag, e: Rec, b: seq<byte>, p: nat)
    requires Conforms(w, e) && At(b, p, EncodeElem(w, e))
    ensures var head := Head(w, e);
            && At(b, p + head, Framed(Bodies(w, e), 0))
            && head + |Framed(Bodies(w, e), 0)| == |EncodeElem(w, e)|
  {
    hide At, Columns, EncodeValues, Framed, Bodies;
    AtConcat(b, p, EncodeValues(Columns(w.attrs), e.vals), Framed(Bodies(w, e), 0));
  }

  /** The order in which the reader meets the elements is that of the byte stream: there is
      a position for each of them, where its bytes are, and the positions do not decrease. */
  lemma VisitsFollowBytes(w: Tag, r: Tag, e: Rec, b: seq<byte>, p: nat)
    requires Conforms(w, e) && TextsAgree(w, r) && DistinctSiblings(w) && DistinctSiblings(r)
    requires At(b, p, EncodeElem(w, e))
    ensures GeneFits(Genome(w, r), r) && Deep(r, Project(w, r, e))
    ensures var start := p + Head(w, e);
            var ts := Trail(w, r, e, [], start, 0);
            && Places(ts) == Visits(Genome(w, r), r, Project(w, r, e), [], 0)
            && Marks(ts, Project(w, r, e), b, start, p + |EncodeElem(w, e)|)
  {
    hide GeneFits, Deep, Conforms, Agree, DistinctSiblings, Visits, Project, Genes, InnerTags, Unmistaken, Trail, Marks,
         At, EncodeElem, Head, Columns;
    AgreeExactly(w, r);
    GenesFit(w, r, 0, "HDDM");
    ProjectionIsDeep(w, r, e);
    ElemBytes(w, e, b, p);
    var start := p + Head(w, e);
    TrailIsVisits(w, r, e, Genome(w, r), [], start, 0);
    TrailMarks(w, r, e, Project(w, r, e), [], b, start, 0);
  }
}
