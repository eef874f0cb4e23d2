/** The C runtime: packers and unpackers of a second implementation of the same format. */
module CRuntime {
  import opened Slices
  import opened Xdr
  import opened Model
  import opened Sequencer
  import opened TagText
  import opened Evolution

  // ------------------------------------------------- packing

  /** A C structure: a member is a pointer, which may be the null target, to an element or
      to an array of elements. */
  datatype CElem = CElem(vals: seq<Value>, members: seq<CMember>)

  datatype CMember = NullPointer | Array(elems: seq<CElem>)

  predicate CConforms(m: Tag, c: CElem)
    decreases m, 0
  {
    && FitsAll(Columns(m.attrs), c.vals)
    && |c.members| == |m.children|
    && (forall i :: 0 <= i < |m.children| ==> CConformsList(m.children[i], c.members[i]))
  }

  predicate CConformsList(m: Tag, list: CMember)
    decreases m, 1
  {
    list.Array? ==>
      && |list.elems| < TWO31 && (!Repeats(m) ==> |list.elems| == 1)
      && forall j :: 0 <= j < |list.elems| ==> CConforms(m, list.elems[j])
  }

  // The same data in C++: there is no difference between no list and an empty one.
  function AsRec(m: Tag, c: CElem): (r: Rec)
    requires CConforms(m, c)
    ensures |r.lists| == |m.children| && r.vals == c.vals
    decreases m, 0
  {
    Rec(c.vals, seq(|m.children|, i requires 0 <= i < |m.children| => AsList(m.children[i], c.members[i])))
  }

  function AsList(m: Tag, list: CMember): (es: seq<Rec>)
    requires CConformsList(m, list)
    ensures |es| == if list.Array? then |list.elems| else 0
    decreases m, 1
  {
    if list.NullPointer? then []
    else seq(|list.elems|, j requires 0 <= j < |list.elems| => AsRec(m, list.elems[j]))
  }

  lemma {:induction false} RecConforms(m: Tag, c: CElem)
    requires CConforms(m, c)
    ensures Conforms(m, AsRec(m, c))
    decreases m, 0
  {
    forall i | 0 <= i < |m.children| ensures ConformsList(m.children[i], AsRec(m, c).lists[i]) {
      ListConforms(m.children[i], c.members[i]);
    }
  }

  lemma {:induction false} ListConforms(m: Tag, list: CMember)
    requires CConformsList(m, list)
    ensures ConformsList(m, AsList(m, list))
    decreases m, 1
  {
    if list.Array? {
      forall j | 0 <= j < |list.elems| ensures Conforms(m, AsList(m, list)[j]) { RecConforms(m, list.elems[j]); }
    }
  }

  // What the pack functions write for one element, and for a member behind its length.
  function Pack(m: Tag, c: CElem): (b: seq<byte>)
    requires CConforms(m, c)
    decreases m, 1
  {
    EncodeValues(Columns(m.attrs), c.vals) + Framed(PackBodies(m, c), 0)
  }

  function PackBodies(m: Tag, c: CElem): (bodies: seq<seq<byte>>)
    requires CConforms(m, c)
    ensures |bodies| == |m.children|
    decreases m, 0
  {
    seq(|m.children|, i requires 0 <= i < |m.children| => PackList(m.children[i], c.members[i]))
  }

  function PackList(m: Tag, list: CMember): (b: seq<byte>)
    requires CConformsList(m, list)
    decreases m, 3
  {
    if list.NullPointer? then []
    else (if Repeats(m) then U32(|list.elems|) else []) + Joined(PackParts(m, list.elems), 0)
  }

  function PackParts(m: Tag, elems: seq<CElem>): (parts: seq<seq<byte>>)
    requires forall j :: 0 <= j < |elems| ==> CConforms(m, elems[j])
    ensures |parts| == |elems|
    decreases m, 2
  {
    seq(|elems|, j requires 0 <= j < |elems| => Pack(m, elems[j]))
  }

  // Pointers to arrays of no elements, at any depth.
  function EmptyArrays(m: Tag, c: CElem): (n: nat)
    requires CConforms(m, c)
    decreases m, 1
  {
    Sum(EmptyCounts(m, c), 0)
  }

  function EmptyCounts(m: Tag, c: CElem): (ns: seq<nat>)
    requires CConforms(m, c)
    ensures |ns| == |m.children|
    decreases m, 0
  {
    seq(|m.children|, i requires 0 <= i < |m.children| => EmptyIn(m.children[i], c.members[i]))
  }

  function EmptyIn(m: Tag, list: CMember): (n: nat)
    requires CConformsList(m, list)
    decreases m, 3
  {
    if list.NullPointer? then 0 else if list.elems == [] then 1 else Sum(EmptyPerElem(m, list.elems), 0)
  }

  function EmptyPerElem(m: Tag, elems: seq<CElem>): (ns: seq<nat>)
    requires forall j :: 0 <= j < |elems| ==> CConforms(m, elems[j])
    ensures |ns| == |elems|
    decreases m, 2
  {
    seq(|elems|, j requires 0 <= j < |elems| => EmptyArrays(m, elems[j]))
  }

  function Sum(ns: seq<nat>, i: nat): (n: nat)
    requires i <= |ns|
    decreases |ns| - i
  {
    if i == |ns| then 0 else ns[i] + Sum(ns, i + 1)
  }

  // Two byte strings that agree exactly if the count is zero, and else differ in length.
  predicate Apart(c: seq<byte>, cpp: seq<byte>, n: nat) {
    |c| == |cpp| + 4 * n && (n == 0 ==> c == cpp)
  }

  lemma {:induction false} JoinedApart(cs: seq<seq<byte>>, cpps: seq<seq<byte>>, ns: seq<nat>, i: nat)
    requires |cs| == |cpps| == |ns| && i <= |cs|
    requires forall j :: 0 <= j < |cs| ==> Apart(cs[j], cpps[j], ns[j])
    ensures Apart(Joined(cs, i), Joined(cpps, i), Sum(ns, i))
    decreases |cs| - i
  {
    if i < |cs| { JoinedApart(cs, cpps, ns, i + 1); }
  }

  lemma {:induction false} FramedApart(cs: seq<seq<byte>>, cpps: seq<seq<byte>>, ns: seq<nat>, i: nat)
    requires |cs| == |cpps| == |ns| && i <= |cs|
    requires forall j :: 0 <= j < |cs| ==> Apart(cs[j], cpps[j], ns[j])
    ensures Apart(Framed(cs, i), Framed(cpps, i), Sum(ns, i))
    decreases |cs| - i
  {
    if i < |cs| { FramedApart(cs, cpps, ns, i + 1); }
  }

  lemma {:induction false} PackApart(m: Tag, c: CElem)
    requires CConforms(m, c)
    ensures Conforms(m, AsRec(m, c))
    ensures Apart(Pack(m, c), EncodeElem(m, AsRec(m, c)), EmptyArrays(m, c))
    decreases m, 0
  {
    RecConforms(m, c);
    var r := AsRec(m, c);
    forall i | 0 <= i < |m.children|
      ensures Apart(PackBodies(m, c)[i], Bodies(m, r)[i], EmptyCounts(m, c)[i])
    {
      PackListApart(m.children[i], c.members[i]);
    }
    FramedApart(PackBodies(m, c), Bodies(m, r), EmptyCounts(m, c), 0);
  }

  lemma {:induction false} PackListApart(m: Tag, list: CMember)
    requires CConformsList(m, list)
    ensures ConformsList(m, AsList(m, list))
    ensures Apart(PackList(m, list), EncodeList(m, AsList(m, list)), EmptyIn(m, list))
    decreases m, 1
  {
    ListConforms(m, list);
    if list.Array? {
      var es := AsList(m, list);
      forall j | 0 <= j < |es|
        ensures Apart(PackParts(m, list.elems)[j], ElemParts(m, es)[j], EmptyPerElem(m, list.elems)[j])
      {
        PackApart(m, list.elems[j]);
      }
      JoinedApart(PackParts(m, list.elems), ElemParts(m, es), EmptyPerElem(m, list.elems), 0);
      if !Repeats(m) { OnePart(ElemParts(m, es)); }
    }
  }

  /** The C packers write the bytes of the C++ streamers exactly if no pointer leads to an
      array of no elements; each such array costs four bytes more. */
  lemma SameBytes(m: Tag, c: CElem)
    requires CConforms(m, c)
    ensures Conforms(m, AsRec(m, c))
    ensures Pack(m, c) == EncodeElem(m, AsRec(m, c)) <==> EmptyArrays(m, c) == 0
    ensures |Pack(m, c)| == |EncodeElem(m, AsRec(m, c))| + 4 * EmptyArrays(m, c)
  {
    PackApart(m, c);
  }

  // ------------------------------------------------- unpacking

  // matches: from number seqNo on, look for a tag of the reader with the name of b; a node
  // of the pop tree says which member of its parent it fills, order 0 stands for null.
  function Pop(b: Tag, cs: seq<Tag>, seqNo: nat): (g: Gene)
    requires seqNo <= |cs|
    decreases b, 1, |cs| - seqNo
  {
    if seqNo == |cs| then Gene(0, b.name, [])
    else if cs[seqNo].name == b.name then
      if TagsMatch(OpenTag(cs[seqNo]), OpenTag(b)) then Gene(seqNo + 1, b.name, PopList(b, cs[seqNo].children))
      else Gene(0, b.name, [])
    else Pop(b, cs, seqNo + 1)
  }

  function PopList(b: Tag, cs: seq<Tag>): (gs: seq<Gene>)
    decreases b, 0
  {
    seq(|b.children|, i requires 0 <= i < |b.children| => Pop(b.children[i], cs, 0))
  }

  /** The pop tree of the C runtime is the codon tree of the C++ runtime. */
  lemma {:induction false} PopTreeIsCodonTree(w: Tag, r: Tag)
    ensures PopList(w, r.children) == Genes(w, r)
    decreases w, 1, 0
  {
    forall i | 0 <= i < |w.children| ensures Pop(w.children[i], r.children, 0) == GeneFor(w.children[i], r) {
      PopIsGene(w, r, i, 0);
    }
  }

  lemma {:induction false} PopIsGene(w: Tag, r: Tag, i: nat, seqNo: nat)
    requires i < |w.children| && seqNo <= |r.children|
    requires forall k :: 0 <= k < seqNo ==> r.children[k].name != w.children[i].name
    ensures Pop(w.children[i], r.children, seqNo) == GeneFor(w.children[i], r)
    decreases w, 0, |r.children| - seqNo
  {
    hide OpenTag, AfterCommon, Loosened, StartsWith;
    var b := w.children[i];
    if seqNo < |r.children| {
      if r.children[seqNo].name == b.name {
        assert FirstNamed(r.children, b.name) == seqNo;
        CommonSwaps(OpenTag(b), OpenTag(r.children[seqNo]));
        PopTreeIsCodonTree(b, r.children[seqNo]);
      } else {
        PopIsGene(w, r, i, seqNo + 1);
      }
    } else {
      assert FirstNamed(r.children, b.name) == |r.children|;
    }
  }

  function UnpackElem(g: Gene, m: Tag, b: seq<byte>, p: nat): (r: (Rec, nat))
    requires GeneFits(g, m)
    ensures Shaped(m, r.0)
    decreases g, 1, 0
  {
    var (vs, q) := ReadValues(Columns(m.attrs), b, p, Blank(m).vals, 0);
    var r := Rec(vs, Blank(m).lists);
    if m.children == [] then (r, q) else UnpackChildren(g, m, b, q, r, 0)
  }

  function UnpackChildren(g: Gene, m: Tag, b: seq<byte>, p: nat, r: Rec, i: nat): (r': (Rec, nat))
    requires GeneFits(g, m) && Shaped(m, r) && i <= |g.sequence|
    ensures Shaped(m, r'.0)
    decreases g, 0, |g.sequence| - i
  {
    if i == |g.sequence| then (r, p)
    else
      var c := g.sequence[i];
      var (size, q) := ReadWord(b, p, 4);
      UnpackChildren(g, m, b, q + size, UnpackMember(c, m, b, size, q, r), i + 1)
  }

  // Member number order - 1 after its unpacker ran on a block of this size, found at q.
  function UnpackMember(c: Gene, m: Tag, b: seq<byte>, size: nat, q: nat, r: Rec): (r': Rec)
    requires c.order <= |m.children| && Shaped(m, r)
    requires c.order > 0 ==> GeneFits(c, m.children[c.order - 1])
    ensures Shaped(m, r')
    decreases c, 4, 0
  {
    if c.order == 0 then r
    else SetList(r, c.order - 1, if size == 0 then [] else UnpackList(c, m.children[c.order - 1], b, q))
  }

  function UnpackList(g: Gene, m: Tag, b: seq<byte>, p: nat): (es: seq<Rec>)
    requires GeneFits(g, m)
    decreases g, 3, 0
  {
    if Repeats(m) then
      var (mult, q) := ReadWord(b, p, 4);
      UnpackElems(g, m, b, q, mult)
    else [UnpackElem(g, m, b, p).0]
  }

  function UnpackElems(g: Gene, m: Tag, b: seq<byte>, p: nat, n: nat): (es: seq<Rec>)
    requires GeneFits(g, m)
    ensures |es| == n
    decreases g, 2, n
  {
    if n == 0 then []
    else
      var (e, q) := UnpackElem(g, m, b, p);
      [e] + UnpackElems(g, m, b, q, n - 1)
  }

  /** Where the reader has a repeating tag without children, and the file has children for
      it, the unpacker does not pass over them, and reads on in the wrong place. */
  predicate Followed(w: Tag, r: Tag) {
    !Repeats(r) || w.children == [] || r.children != [] || Columns(r.attrs) == []
  }

  predicate AllFollowed(w: Tag, r: Tag)
    decreases w
  {
    forall i :: 0 <= i < |w.children| ==>
      var k := FirstNamed(r.children, w.children[i].name);
      k < |r.children| && Matched(w.children[i], r.children[k]) ==>
        Followed(w.children[i], r.children[k]) && AllFollowed(w.children[i], r.children[k])
  }

  // Where an element ends for its unpacker.
  function UnpackedLength(w: Tag, r: Tag, e: Rec): (n: nat)
    requires Conforms(w, e)
  {
    if r.children == [] then |EncodeValues(Columns(w.attrs), e.vals)| else |EncodeElem(w, e)|
  }

  function MemberReader(g: Gene, m: Tag, b: seq<byte>): (f: (nat, nat, nat, Rec) -> Rec)
    requires GeneFits(g, m)
  {
    (i: nat, size: nat, q: nat, x: Rec) =>
      if i < |g.sequence| && Shaped(m, x) then UnpackMember(g.sequence[i], m, b, size, q, x) else x
  }

  // Blocks from number i on, each handed to f with its length.
  function Hand<T>(f: (nat, nat, nat, T) -> T, n: nat, b: seq<byte>, p: nat, x: T, i: nat): (r: (T, nat))
    requires i <= n
    decreases n - i
  {
    if i == n then (x, p)
    else
      var (size, q) := ReadWord(b, p, 4);
      Hand(f, n, b, q + size, f(i, size, q, x), i + 1)
  }

  ghost predicate BodiesHand<T(!new)>(f: (nat, nat, nat, T) -> T, xs: seq<T>, bodies: seq<seq<byte>>, b: seq<byte>)
    requires |xs| == |bodies| + 1
  {
    forall j, q: nat {:trigger At(b, q, bodies[j])} :: 0 <= j < |bodies| && At(b, q, bodies[j]) ==>
      f(j, |bodies[j]|, q, xs[j]) == xs[j + 1]
  }

  lemma {:induction false} FramedHands<T(!new)>(f: (nat, nat, nat, T) -> T, xs: seq<T>, bodies: seq<seq<byte>>,
                                          b: seq<byte>, p: nat, i: nat)
    requires |xs| == |bodies| + 1 && i <= |bodies|
    requires |b| < TWO31 && At(b, p, Framed(bodies, i))
    requires BodiesHand(f, xs, bodies, b)
    ensures Hand(f, |bodies|, b, p, xs[i], i) == (xs[|bodies|], p + |Framed(bodies, i)|)
    decreases |bodies| - i
  {
    hide At, Framed, ReadWord;
    FramedLength(bodies, i);
    if i < |bodies| {
      var n := |bodies[i]|;
      FrontBlock(b, p, bodies, i);
      FramedHands(f, xs, bodies, b, p + 4 + n, i + 1);
    }
  }

  lemma {:induction false} UnpackChildrenHands(g: Gene, m: Tag, b: seq<byte>, p: nat, x: Rec, i: nat)
    requires GeneFits(g, m) && Shaped(m, x) && i <= |g.sequence|
    ensures UnpackChildren(g, m, b, p, x, i) == Hand(MemberReader(g, m, b), |g.sequence|, b, p, x, i)
    decreases |g.sequence| - i
  {
    hide UnpackMember, GeneFits, Columns;
    if i < |g.sequence| {
      var (size, q) := ReadWord(b, p, 4);
      OrderFits(g, m, i);
      UnpackStep(g, m, b, p, x, i, size, q);
      UnpackChildrenHands(g, m, b, q + size, MemberReader(g, m, b)(i, size, q, x), i + 1);
    }
  }

  lemma UnpackStep(g: Gene, m: Tag, b: seq<byte>, p: nat, x: Rec, i: nat, size: nat, q: nat)
    requires GeneFits(g, m) && Shaped(m, x) && i < |g.sequence| && ReadWord(b, p, 4) == (size, q)
    ensures UnpackChildren(g, m, b, p, x, i)
            == UnpackChildren(g, m, b, q + size, UnpackMember(g.sequence[i], m, b, size, q, x), i + 1)
  {
  }

  lemma UnpackEnd(g: Gene, m: Tag, b: seq<byte>, p: nat, x: Rec)
    requires GeneFits(g, m) && Shaped(m, x)
    ensures UnpackChildren(g, m, b, p, x, |g.sequence|) == (x, p)
  {
  }

  lemma UnpackElemStep(g: Gene, m: Tag, b: seq<byte>, p: nat, vs: seq<Value>, q: nat)
    requires GeneFits(g, m) && ReadValues(Columns(m.attrs), b, p, Blank(m).vals, 0) == (vs, q)
    ensures UnpackElem(g, m, b, p)
            == if m.children == [] then (Rec(vs, Blank(m).lists), q)
               else UnpackChildren(g, m, b, q, Rec(vs, Blank(m).lists), 0)
  {
  }

  lemma UnpackElemsStep(g: Gene, m: Tag, b: seq<byte>, p: nat, n: nat)
    requires GeneFits(g, m) && n > 0
    ensures var (e, q) := UnpackElem(g, m, b, p);
            UnpackElems(g, m, b, p, n) == [e] + UnpackElems(g, m, b, q, n - 1)
  {
  }

  lemma Regroup(es: seq<Rec>, e: Rec, rest: seq<Rec>)
    ensures es + ([e] + rest) == (es + [e]) + rest
  {
  }

  lemma UnpackNone(g: Gene, m: Tag, b: seq<byte>, p: nat, es: seq<Rec>)
    requires GeneFits(g, m)
    ensures es + UnpackElems(g, m, b, p, 0) == es
  {
  }

  // ------------------------------------------------- agreement with the C++ reader

  lemma {:induction false} CElemProjects(w: Tag, r: Tag, e: Rec, b: seq<byte>, p: nat, g: Gene)
    requires Decodable(w, r, b) && AllFollowed(w, r) && Conforms(w, e) && At(b, p, EncodeElem(w, e))
    requires g.sequence == Genes(w, r) && GeneFits(g, r)
    ensures UnpackElem(g, r, b, p) == (Project(w, r, e), p + UnpackedLength(w, r, e))
    decreases w, 3
  {
    hide *;
    CElemStart(w, r, e, b, p, g);
    CChildrenProject(w, r, e, b, p + |EncodeValues(Columns(w.attrs), e.vals)|, g);
    CElemEnd(w, r, e);
  }

  lemma CElemStart(w: Tag, r: Tag, e: Rec, b: seq<byte>, p: nat, g: Gene)
    requires Decodable(w, r, b) && GeneFits(g, r)
    requires Conforms(w, e) && At(b, p, EncodeElem(w, e))
    ensures Columns(w.attrs) == Columns(r.attrs) && |Columns(w.attrs)| == |e.vals|
    ensures var q := p + |EncodeValues(Columns(w.attrs), e.vals)|;
            && At(b, q, Framed(Bodies(w, e), 0))
            && UnpackElem(g, r, b, p) == (if r.children == [] then (Rec(e.vals, Blank(r).lists), q)
                                          else UnpackChildren(g, r, b, q, Rec(e.vals, Blank(r).lists), 0))
            && p + |EncodeElem(w, e)| == q + |Framed(Bodies(w, e), 0)|
  {
    hide At, EncodeValues, Framed, Bodies, UnpackChildren, GeneFits, ReadValues, Columns;
    SameColumns(w, r, b, e);
    AtConcat(b, p, EncodeValues(Columns(w.attrs), e.vals), Framed(Bodies(w, e), 0));
    ReadValuesBack(Columns(w.attrs), e.vals, Blank(r).vals, b, p);
    UnpackElemStep(g, r, b, p, e.vals, p + |EncodeValues(Columns(w.attrs), e.vals)|);
  }

  lemma CElemEnd(w: Tag, r: Tag, e: Rec)
    requires Conforms(w, e)
    ensures r.children == [] ==> Project(w, r, e) == Rec(e.vals, Blank(r).lists)
    ensures |Columns(w.attrs)| == |e.vals|
    ensures UnpackedLength(w, r, e)
            == if r.children == [] then |EncodeValues(Columns(w.attrs), e.vals)| else |EncodeElem(w, e)|
  {
  }

  lemma {:induction false} CChildrenProject(w: Tag, r: Tag, e: Rec, b: seq<byte>, p: nat, g: Gene)
    requires Decodable(w, r, b) && AllFollowed(w, r) && Conforms(w, e) && At(b, p, Framed(Bodies(w, e), 0))
    requires g.sequence == Genes(w, r) && GeneFits(g, r) && |Columns(r.attrs)| == |e.vals|
    ensures UnpackChildren(g, r, b, p, Rec(e.vals, Blank(r).lists), 0)
            == (Project(w, r, e), p + |Framed(Bodies(w, e), 0)|)
    decreases w, 2
  {
    hide At, UnpackChildren, Bodies, Framed, Hand, BodiesHand, MemberReader, Agree, DistinctSiblings,
         LinksHaveContent, GeneFits, Genes, Conforms, AllFollowed;
    var xs := Partials(w, r, e);
    assert xs[0] == Rec(e.vals, Blank(r).lists);
    assert xs[|w.children|] == Project(w, r, e);
    UnpackChildrenHands(g, r, b, p, xs[0], 0);
    CChildrenHand(w, r, e, b, g);
    FramedHands(MemberReader(g, r, b), xs, Bodies(w, e), b, p, 0);
  }

  lemma {:induction false} CChildrenHand(w: Tag, r: Tag, e: Rec, b: seq<byte>, g: Gene)
    requires Decodable(w, r, b) && AllFollowed(w, r) && Conforms(w, e) && |Columns(r.attrs)| == |e.vals|
    requires g.sequence == Genes(w, r) && GeneFits(g, r)
    ensures BodiesHand(MemberReader(g, r, b), Partials(w, r, e), Bodies(w, e), b)
    decreases w, 1
  {
    hide At, UnpackMember, Decodable, GeneFits, Conforms, AllFollowed, Partial, EncodeList, Columns, Genes;
    var xs, bodies := Partials(w, r, e), Bodies(w, e);
    forall j, q: nat | 0 <= j < |bodies| && At(b, q, bodies[j])
      ensures MemberReader(g, r, b)(j, |bodies[j]|, q, xs[j]) == xs[j + 1]
    {
      CChildUnpacks(w, r, e, b, q, g, j);
    }
  }

  lemma {:induction false} CChildUnpacks(w: Tag, r: Tag, e: Rec, b: seq<byte>, q: nat, g: Gene, i: nat)
    requires Decodable(w, r, b) && AllFollowed(w, r) && Conforms(w, e) && i < |w.children|
    requires |Columns(r.attrs)| == |e.vals| && At(b, q, Bodies(w, e)[i])
    requires g.sequence == Genes(w, r) && GeneFits(g, r)
    ensures UnpackMember(g.sequence[i], r, b, |Bodies(w, e)[i]|, q, Partial(w, r, e, i)) == Partial(w, r, e, i + 1)
    decreases w, 0
  {
    hide At, UnpackList, Project, EncodeList, Decodable, AllFollowed, Conforms, Partial, Partner, GeneFits, Genes;
    var c, wc := g.sequence[i], w.children[i];
    KidFacts(w, r, e, b, g, i);
    if c.order > 0 {
      var k := c.order - 1;
      if Bodies(w, e)[i] == [] {
        ListIsVisible(wc, e.lists[i]);
        NoElements(wc, r.children[k]);
      } else {
        EmptyIsInvisible(wc, e.lists[i]);
        CListProjects(wc, r.children[k], e.lists[i], b, q, c);
      }
      PartialStep(w, r, e, i, k);
    } else {
      PartialSkips(w, r, e, i);
    }
  }

  lemma NoElements(w: Tag, r: Tag)
    requires ConformsList(w, [])
    ensures ProjectList(w, r, []) == []
  {
  }

  // What the tag number i of the file has in common with the member its codon names.
  lemma KidFacts(w: Tag, r: Tag, e: Rec, b: seq<byte>, g: Gene, i: nat)
    requires Decodable(w, r, b) && AllFollowed(w, r) && Conforms(w, e) && i < |w.children|
    requires g.sequence == Genes(w, r) && GeneFits(g, r)
    ensures ChildMatched(w, r, e, b, g, i)
    ensures var c := g.sequence[i];
            c.order > 0 ==>
              && AllFollowed(w.children[i], r.children[c.order - 1])
              && Followed(w.children[i], r.children[c.order - 1])
  {
    hide At, Repeats, Columns, EncodeList, Partner, Matched, HasContent, Decodable, GeneFits, Conforms, Followed;
    ChildFacts(w, r, e, b, g, i);
    assert g.sequence[i] == GeneFor(w.children[i], r);
  }

  /** A list or link member: the C runtime reads what the C++ runtime reads, if it passes
      over what the file has below its elements. */
  lemma {:induction false} CListProjects(w: Tag, r: Tag, es: seq<Rec>, b: seq<byte>, p: nat, g: Gene)
    requires Decodable(w, r, b) && AllFollowed(w, r) && Followed(w, r)
    requires ConformsList(w, es) && es != [] && Repeats(w) == Repeats(r) && At(b, p, EncodeList(w, es))
    requires g.sequence == Genes(w, r) && GeneFits(g, r)
    ensures UnpackList(g, r, b, p) == ProjectList(w, r, es)
    decreases w, 6
  {
    hide Project, Agree, DistinctSiblings, LinksHaveContent, UnpackElem, UnpackElems, EncodeElem, GeneFits, Genes,
         Joined, ElemParts, At, Repeats, Columns, AllFollowed;
    if Repeats(w) {
      AtConcat(b, p, U32(|es|), Joined(ElemParts(w, es), 0));
      ReadIntBack(b, p, |es|);
      if r.children == [] && Columns(r.attrs) == [] {
        BareElems(w, r, es, b, p + 4, g);
      } else {
        CRepeatProjects(w, r, es, b, p + 4, g);
      }
    } else {
      CElemProjects(w, r, es[0], b, p, g);
      assert ProjectList(w, r, es) == [Project(w, r, es[0])];
    }
  }

  // Elements without any data are the same wherever they are read.
  lemma {:induction false} BareElems(w: Tag, r: Tag, es: seq<Rec>, b: seq<byte>, p: nat, g: Gene)
    requires Decodable(w, r, b) && ConformsList(w, es) && GeneFits(g, r)
    requires r.children == [] && Columns(r.attrs) == []
    ensures UnpackElems(g, r, b, p, |es|) == ProjectList(w, r, es)
    decreases |es|
  {
    if es != [] {
      SameColumns(w, r, b, es[0]);
      BareElems(w, r, es[1..], b, UnpackElem(g, r, b, p).1, g);
      assert ProjectList(w, r, es) == [Project(w, r, es[0])] + ProjectList(w, r, es[1..]);
    }
  }

  function CElemReader(g: Gene, m: Tag, b: seq<byte>): (f: nat -> (Rec, nat))
    requires GeneFits(g, m)
  {
    q => UnpackElem(g, m, b, q)
  }

  lemma {:induction false} UnpackElemsRepeats(g: Gene, m: Tag, b: seq<byte>, p: nat, n: nat)
    requires GeneFits(g, m)
    ensures UnpackElems(g, m, b, p, n) == Repeat(CElemReader(g, m, b), p, n).0
    decreases n
  {
    if n > 0 {
      UnpackElemsRepeats(g, m, b, UnpackElem(g, m, b, p).1, n - 1);
    }
  }

  lemma {:induction false} CRepeatProjects(w: Tag, r: Tag, es: seq<Rec>, b: seq<byte>, p: nat, g: Gene)
    requires Decodable(w, r, b) && AllFollowed(w, r) && (w.children == [] || r.children != [])
    requires ConformsList(w, es) && At(b, p, Joined(ElemParts(w, es), 0))
    requires g.sequence == Genes(w, r) && GeneFits(g, r)
    ensures UnpackElems(g, r, b, p, |es|) == ProjectList(w, r, es)
    decreases w, 5
  {
    hide At, Project, Agree, DistinctSiblings, LinksHaveContent, UnpackElem, EncodeElem, GeneFits, Genes, AllFollowed;
    var ps, parts := ProjectList(w, r, es), ElemParts(w, es);
    UnpackElemsRepeats(g, r, b, p, |es|);
    forall j, q: nat | 0 <= j < |es| && At(b, q, parts[j])
      ensures CElemReader(g, r, b)(q) == (ps[j], q + |parts[j]|)
    {
      CElemProjects(w, r, es[j], b, q, g);
      WholeLength(w, r, es[j]);
    }
    JoinedRepeats(CElemReader(g, r, b), ps, parts, b, p, 0);
    assert ps[0..] == ps;
  }

  lemma WholeLength(w: Tag, r: Tag, e: Rec)
    requires Conforms(w, e) && (w.children == [] || r.children != [])
    ensures UnpackedLength(w, r, e) == |EncodeElem(w, e)|
  {
  }

  /** The two readers agree: unpacking any record by the pop tree gives the projection that
      the sequencer gives, if wherever a repeating tag of the file has children the reader's
      has some too, or holds nothing at all. */
  lemma ReadersAgree(w: Tag, r: Tag, e: Rec, b: seq<byte>, p: nat)
    requires Compatible(w, r) && AllFollowed(w, r) && |b| < TWO31
    requires Conforms(w, e) && At(b, p, EncodeRecord(w, e))
    requires e.vals != [] || w.children != []
    ensures GeneFits(Genome(w, r), r)
    ensures var (size, q) := ReadWord(b, p, 4);
            size > 0 && UnpackElem(Genome(w, r), r, b, q).0 == Project(w, r, e)
                        == ParseElem(Genome(w, r), r, b, q, Blank(r)).0
  {
    hide At, Compatible, Decodable, ParseElem, UnpackElem, EncodeElem, Project, GeneFits, Genes,
         Columns, ConformsList, AllFollowed;
    CompatibleDecodes(w, r, b);
    SchemaEvolution(w, r, e, b, p);
    AtConcat(b, p, U32(|EncodeElem(w, e)|), EncodeElem(w, e));
    CElemProjects(w, r, e, b, p + 4, Genome(w, r));
  }

  // ------------------------------------------------- when they do not agree

  // A value that does not start with a zero word.
  function Odd(w: Wire): (v: Value) {
    match w
    case Word => Num(1)
    case Chars => Text([65])
    case _ => Num(TWO32)
  }

  // Reading anything but an empty literal where a zero word stands.
  lemma OddIsMisread(w: Wire, b: seq<byte>, q: nat)
    requires w != Literal && At(b, q, U32(0)) && q + 8 <= |b|
    ensures ReadValue(w, b, q, BlankValue(w)).0 != Odd(w) && Fits(w, Odd(w))
  {
    Pow256Values();
    ReadWordBack(b, q, 0, 4);
    AtInside(b, q, U32(0));
    if w == Quad {
      assert b[q..q + 8] == b[q..q + 4] + b[q + 4..q + 8];
      BigEndianConcat(b[q..q + 4], b[q + 4..q + 8]);
      BigEndianRoundTrip(0, 4);
      FromBigEndianBound(b[q + 4..q + 8]);
    }
  }

  function OddElem(w: Tag): (e: Rec) {
    var e := Blank(w);
    if e.vals == [] then e else Rec(e.vals[0 := Odd(Columns(w.attrs)[0])], e.lists)
  }

  lemma OddConforms(w: Tag)
    ensures Conforms(w, OddElem(w))
  {
    BlankConforms(w);
    var ws := Columns(w.attrs);
    forall i | 0 <= i < |ws| ensures ws[i] != Literal { assert ws[i] in ws; }
  }

  lemma FirstOfValues(ws: seq<Wire>, b: seq<byte>, p: nat, vs: seq<Value>)
    requires |ws| == |vs| > 0
    ensures ReadValues(ws, b, p, vs, 0).0[0] == ReadValue(ws[0], b, p, vs[0]).0
  {
  }

  /** Where the reader does not follow, the list of a blank element and one that is not is
      misread: its second element is taken from within the first. */
  lemma {:induction false} UnfollowedMisreads(w: Tag, r: Tag, g: Gene, b: seq<byte>, p: nat)
    requires GeneFits(g, r) && Columns(w.attrs) == Columns(r.attrs) && Repeats(w) && Repeats(r) && !Followed(w, r)
    requires Conforms(w, Blank(w)) && Conforms(w, OddElem(w))
    requires |b| < TWO31 && At(b, p, EncodeList(w, [Blank(w), OddElem(w)]))
    ensures UnpackList(g, r, b, p) != ProjectList(w, r, [Blank(w), OddElem(w)])
  {
    hide Columns, Repeats, Project, At, ReadValues, ReadValue, UnpackElem, UnpackList, Conforms, GeneFits,
         EncodeValues, EncodeList;
    var e1, e2, ws := Blank(w), OddElem(w), Columns(w.attrs);
    BlankVals(w, r);
    var q := TwoElems(w, b, p);
    ReadIntBack(b, p, 2);
    ReadValuesBack(ws, e1.vals, Blank(r).vals, b, p + 4);
    UnpackElemStep(g, r, b, p + 4, e1.vals, q);
    OddIsMisread(ws[0], b, q);
    FirstOfValues(ws, b, q, Blank(r).vals);
    var (vs, q') := ReadValues(ws, b, q, Blank(r).vals, 0);
    UnpackElemStep(g, r, b, q, vs, q');
    TwoUnpacked(g, r, b, p, Rec(e1.vals, Blank(r).lists), q, Rec(vs, Blank(r).lists));
    ProjectVals(w, r, e2);
    assert ProjectList(w, r, [e1, e2])[1] == Project(w, r, e2);
  }

  lemma BlankVals(w: Tag, r: Tag)
    requires Columns(w.attrs) == Columns(r.attrs) && Columns(w.attrs) != []
    ensures Blank(w).vals == Blank(r).vals && FitsAll(Columns(w.attrs), Blank(w).vals)
    ensures Columns(w.attrs)[0] != Literal && Blank(w).vals[0] == BlankValue(Columns(w.attrs)[0])
    ensures OddElem(w).vals[0] == Odd(Columns(w.attrs)[0])
    ensures forall i :: 0 <= i < |Columns(r.attrs)| ==> Blank(r).vals[i] == BlankValue(Columns(r.attrs)[i])
  {
    hide Columns;
    BlankConforms(w);
    OddConforms(w);
  }

  lemma ProjectVals(w: Tag, r: Tag, e: Rec)
    requires Conforms(w, e)
    ensures Project(w, r, e).vals == e.vals
  {
  }

  // Where things stand in the bytes of two elements; q is the end of the first one's values.
  lemma TwoElems(w: Tag, b: seq<byte>, p: nat) returns (q: nat)
    requires Repeats(w) && w.children != [] && Columns(w.attrs) != []
    requires Conforms(w, Blank(w)) && Conforms(w, OddElem(w))
    requires At(b, p, EncodeList(w, [Blank(w), OddElem(w)]))
    ensures At(b, p, U32(2)) && At(b, p + 4, EncodeValues(Columns(w.attrs), Blank(w).vals))
    ensures q == p + 4 + |EncodeValues(Columns(w.attrs), Blank(w).vals)| && At(b, q, U32(0)) && q + 8 <= |b|
  {
    hide At, Columns, Repeats, Conforms, EncodeValues, BigEndian;
    BlankConforms(w);
    OddConforms(w);
    var e1, e2 := Blank(w), OddElem(w);
    var parts, bodies := ElemParts(w, [e1, e2]), Bodies(w, e1);
    var vs, rest, last := EncodeValues(Columns(w.attrs), e1.vals), Framed(bodies, 1), parts[1];
    q := p + 4 + |vs|;
    assert Framed(bodies, 0) == Block(bodies[0]) + rest == U32(0) + rest;
    TwoParts(parts);
    assert parts[0] == EncodeElem(w, e1) == vs + (U32(0) + rest);
    assert (vs + (U32(0) + rest)) + last == vs + (U32(0) + (rest + last));
    SecondLength(w, e2);
    AtInside(b, p, EncodeList(w, [e1, e2]));
    AtConcat(b, p, U32(2), vs + (U32(0) + (rest + last)));
    AtConcat(b, p + 4, vs, U32(0) + (rest + last));
    AtConcat(b, q, U32(0), rest + last);
  }

  lemma SecondLength(w: Tag, e: Rec)
    requires Conforms(w, e) && w.children != []
    ensures |EncodeElem(w, e)| >= 4
  {
    assert Framed(Bodies(w, e), 0) == Block(Bodies(w, e)[0]) + Framed(Bodies(w, e), 1);
  }

  lemma TwoUnpacked(g: Gene, r: Tag, b: seq<byte>, p: nat, x: Rec, q: nat, y: Rec)
    requires GeneFits(g, r) && Repeats(r) && ReadWord(b, p, 4) == (2, p + 4)
    requires UnpackElem(g, r, b, p + 4) == (x, q) && UnpackElem(g, r, b, q).0 == y
    ensures UnpackList(g, r, b, p) == [x, y]
  {
    hide Repeats, UnpackElem, GeneFits;
    assert UnpackElems(g, r, b, q, 1) == [y] + UnpackElems(g, r, b, UnpackElem(g, r, b, q).1, 0);
  }

  ghost predicate ListsAgree(w: Tag, r: Tag, g: Gene)
    requires GeneFits(g, r)
  {
    forall es, b, p: nat {:trigger At(b, p, EncodeList(w, es))} ::
      ConformsList(w, es) && es != [] && |b| < TWO31 && At(b, p, EncodeList(w, es)) ==>
        UnpackList(g, r, b, p) == ProjectList(w, r, es)
  }

  /** For one repeating tag the condition is exact: the C runtime gets every list of it
      right if and only if it passes over what the file has below the elements.  (The file
      tag must not be so large that two of its elements exceed the size of a record.) */
  lemma ListsAgreeIff(w: Tag, r: Tag, g: Gene)
    requires Repeats(w) && Repeats(r) && Agree(w, r) && AllFollowed(w, r) && LinksHaveContent(w)
    requires DistinctSiblings(w) && DistinctSiblings(r)
    requires g.sequence == Genes(w, r) && GeneFits(g, r)
    requires Conforms(w, Blank(w)) && Conforms(w, OddElem(w)) && |EncodeList(w, [Blank(w), OddElem(w)])| < TWO31
    ensures ListsAgree(w, r, g) <==> Followed(w, r)
  {
    hide Repeats, Agree, AllFollowed, LinksHaveContent, DistinctSiblings, At, Conforms, ParseList, UnpackList,
         ProjectList;
    var es := [Blank(w), OddElem(w)];
    var b := EncodeList(w, es);
    if Followed(w, r) {
      forall es, b, p: nat | ConformsList(w, es) && es != [] && |b| < TWO31 && At(b, p, EncodeList(w, es))
        ensures UnpackList(g, r, b, p) == ProjectList(w, r, es)
      {
        CListProjects(w, r, es, b, p, g);
      }
    } else {
      SameNames(w, r);
      AtSlice(b, 0, |b|);
      assert b[0..0 + |b|] == b;
      UnfollowedMisreads(w, r, g, b, 0);
      assert At(b, 0, EncodeList(w, es)) && ConformsList(w, es);
    }
  }

  lemma SameNames(w: Tag, r: Tag)
    requires Agree(w, r)
    ensures Columns(w.attrs) == Columns(r.attrs)
  {
  }

  // ------------------------------------------------- the emitted functions

  // unpack_X: a length, and then the list or element, if there is one.
  method Unpack(xdrs: InBuffer, g: Gene, m: Tag) returns (es: seq<Rec>)
    requires GeneFits(g, m)
    modifies xdrs`pos
    ensures var (size, q) := ReadWord(xdrs.data, old(xdrs.pos), 4);
            && es == (if size == 0 then [] else UnpackList(g, m, xdrs.data, q))
            && xdrs.pos == q + size
    decreases g, 1
  {
    hide UnpackElem, UnpackElems, Columns, Repeats, GeneFits;
    es := [];
    var size := xdrs.GetWord(4);
    if size > 0 {
      var start := xdrs.pos;
      if Repeats(m) {
        var mult := xdrs.GetWord(4);
        ghost var q := xdrs.pos;
        for j := 0 to mult
          invariant es + UnpackElems(g, m, xdrs.data, xdrs.pos, mult - j) == UnpackElems(g, m, xdrs.data, q, mult)
        {
          UnpackElemsStep(g, m, xdrs.data, xdrs.pos, mult - j);
          var e := UnpackOne(xdrs, g, m);
          Regroup(es, e, UnpackElems(g, m, xdrs.data, xdrs.pos, mult - j - 1));
          es := es + [e];
        }
        UnpackNone(g, m, xdrs.data, xdrs.pos, es);
      } else {
        var e := UnpackOne(xdrs, g, m);
        es := [e];
      }
      xdrs.pos := start + size;
    }
  }

  // The loop body of unpack_X: the attributes, then one block for every entry of popList.
  method UnpackOne(xdrs: InBuffer, g: Gene, m: Tag) returns (e: Rec)
    requires GeneFits(g, m)
    modifies xdrs`pos
    ensures (e, xdrs.pos) == UnpackElem(g, m, xdrs.data, old(xdrs.pos))
    decreases g, 0, 1
  {
    hide Columns, UnpackElem, UnpackChildren, GeneFits;
    ghost var p := xdrs.pos;
    ColumnsStored(m);
    var vs := GetValues(xdrs, Columns(m.attrs), Blank(m).vals);
    UnpackElemStep(g, m, xdrs.data, p, vs, xdrs.pos);
    e := Rec(vs, Blank(m).lists);
    if m.children != [] { e := UnpackKids(xdrs, g, m, e); }
  }

  method UnpackKids(xdrs: InBuffer, g: Gene, m: Tag, e0: Rec) returns (e: Rec)
    requires GeneFits(g, m) && Shaped(m, e0)
    modifies xdrs`pos
    ensures Shaped(m, e) && (e, xdrs.pos) == UnpackChildren(g, m, xdrs.data, old(xdrs.pos), e0, 0)
    decreases g, 0, 0
  {
    hide Columns, UnpackList, UnpackChildren, GeneFits;
    e := e0;
    for i := 0 to |g.sequence|
      invariant Shaped(m, e)
      invariant UnpackChildren(g, m, xdrs.data, xdrs.pos, e, i) == UnpackChildren(g, m, xdrs.data, old(xdrs.pos), e0, 0)
    {
      var c := g.sequence[i];
      ghost var (size, q) := ReadWord(xdrs.data, xdrs.pos, 4);
      OrderFits(g, m, i);
      UnpackStep(g, m, xdrs.data, xdrs.pos, e, i, size, q);
      if c.order > 0 {
        var es := Unpack(xdrs, c, m.children[c.order - 1]);
        e := SetList(e, c.order - 1, es);
      } else {
        var skip := xdrs.GetWord(4);
        xdrs.pos := xdrs.pos + skip;
      }
    }
    UnpackEnd(g, m, xdrs.data, xdrs.pos, e);
  }

  // A memory stream for writing, in which the position can be set back.
  class XdrMem {
    var data: seq<byte>
    var pos: nat

    constructor ()
      ensures data == [] && pos == 0
    {
      data, pos := [], 0;
    }

    method Put(b: seq<byte>)
      requires pos <= |data|
      modifies this
      ensures pos == old(pos) + |b| && data == Patched(old(data), old(pos), b)
      ensures old(pos) == old(|data|) ==> data == old(data) + b
    {
      data := Patched(data, pos, b);
      pos := pos + |b|;
    }
  }

  function Patched(data: seq<byte>, pos: nat, b: seq<byte>): (r: seq<byte>)
    requires pos <= |data|
    ensures |r| >= pos + |b|
  {
    data[..pos] + b + if pos + |b| <= |data| then data[pos + |b|..] else []
  }

  lemma PatchedLength(pre: seq<byte>, body: seq<byte>)
    ensures Patched(pre + U32(0) + body, |pre|, U32(|body|)) == pre + Block(body)
  {
    var data := pre + U32(0) + body;
    assert data[..|pre|] == pre && data[|pre| + 4..] == body;
  }

  // pack_X: a place for the length, the list or element, and then the length.
  method PackMember(xdrs: XdrMem, m: Tag, list: CMember) returns (size: nat)
    requires list.Array? && CConformsList(m, list) && xdrs.pos == |xdrs.data|
    modifies xdrs
    ensures xdrs.data == old(xdrs.data) + Block(PackList(m, list)) && xdrs.pos == |xdrs.data|
    ensures size == |PackList(m, list)|
    decreases m, 1
  {
    hide BigEndian, Pack, CConforms, Repeats, Columns, Patched;
    ghost var pre := xdrs.data;
    var base := xdrs.pos;
    xdrs.Put(U32(0));
    var start := xdrs.pos;
    if Repeats(m) { xdrs.Put(U32(|list.elems|)); }
    ghost var head := if Repeats(m) then U32(|list.elems|) else [];
    ghost var parts := PackParts(m, list.elems);
    assert xdrs.data == pre + U32(0) + head;
    for j := 0 to |list.elems|
      invariant xdrs.pos == |xdrs.data|
      invariant xdrs.data + Joined(parts, j) == pre + U32(0) + (head + Joined(parts, 0))
    {
      ghost var was := xdrs.data;
      PackOne(xdrs, m, list.elems[j]);
      assert was + (parts[j] + Joined(parts, j + 1)) == (was + parts[j]) + Joined(parts, j + 1);
    }
    var end := xdrs.pos;
    ghost var body := PackList(m, list);
    assert xdrs.data == pre + U32(0) + body;
    xdrs.pos := base;
    size := end - start;
    PatchedLength(pre, body);
    xdrs.Put(U32(size));
    xdrs.pos := end;
  }

  method PackOne(xdrs: XdrMem, m: Tag, c: CElem)
    requires CConforms(m, c) && xdrs.pos == |xdrs.data|
    modifies xdrs
    ensures xdrs.data == old(xdrs.data) + Pack(m, c) && xdrs.pos == |xdrs.data|
    decreases m, 0
  {
    hide BigEndian, PackList, CConformsList, Columns, Patched, EncodeValues;
    ghost var pre := xdrs.data;
    xdrs.Put(EncodeValues(Columns(m.attrs), c.vals));
    ghost var vs, bodies := EncodeValues(Columns(m.attrs), c.vals), PackBodies(m, c);
    for i := 0 to |m.children|
      invariant xdrs.pos == |xdrs.data|
      invariant xdrs.data + Framed(bodies, i) == pre + (vs + Framed(bodies, 0))
    {
      ghost var was := xdrs.data;
      if c.members[i] != NullPointer {
        var _ := PackMember(xdrs, m.children[i], c.members[i]);
      } else {
        NullIsEmpty(m.children[i]);
        xdrs.Put(U32(0));
      }
      assert xdrs.data == was + Block(bodies[i]);
      assert was + (Block(bodies[i]) + Framed(bodies, i + 1)) == (was + Block(bodies[i])) + Framed(bodies, i + 1);
    }
  }

  lemma NullIsEmpty(m: Tag)
    requires CConformsList(m, NullPointer)
    ensures PackList(m, NullPointer) == [] && Block([]) == U32(0)
  {
  }
}
