/** Schema evolution: what a reader built from one model gets out of a file that was
    written with another. */
module Evolution {
  import opened Slices
  import opened Xdr
  import opened Model
  import opened TagText
  import opened Sequencer

  // ------------------------------------------------- matching two models

  predicate Matched(w: Tag, r: Tag) {
    w.name == r.name && TagsMatch(OpenTag(w), OpenTag(r))
  }

  // The codons for the children of the file's tag w in the reader's class r.
  function Genes(w: Tag, r: Tag): (gs: seq<Gene>)
    ensures |gs| == |w.children|
    decreases w, 0
  {
    seq(|w.children|, i requires 0 <= i < |w.children| => GeneFor(w.children[i], r))
  }

  function GeneFor(w: Tag, r: Tag): (g: Gene)
    ensures g.order <= |r.children|
    decreases w, 1
  {
    var k := FirstNamed(r.children, w.name);
    if k < |r.children| && Matched(w, r.children[k]) then Gene(k + 1, w.name, Genes(w, r.children[k]))
    else Gene(0, w.name, [])
  }

  function Genome(w: Tag, r: Tag): (g: Gene) {
    Gene(0, "HDDM", Genes(w, r))
  }

  lemma {:induction false} GenesFit(w: Tag, r: Tag, order: nat, name: string)
    ensures GeneFits(Gene(order, name, Genes(w, r)), r)
    decreases w
  {
    hide Matched;
    forall i | 0 <= i < |w.children|
      ensures var c := Genes(w, r)[i];
              && (c.order == 0 ==> c.sequence == [])
              && (c.order > 0 ==> GeneFits(c, r.children[c.order - 1]))
    {
      var c := GeneFor(w.children[i], r);
      if c.order > 0 {
        GenesFit(w.children[i], r.children[c.order - 1], c.order, c.tagname);
      }
    }
  }

  // Tags that are matched store the same values and repeat alike.
  predicate Agree(w: Tag, r: Tag)
    decreases w
  {
    && Columns(w.attrs) == Columns(r.attrs)
    && forall i :: 0 <= i < |w.children| ==>
         var k := FirstNamed(r.children, w.children[i].name);
         k < |r.children| && Matched(w.children[i], r.children[k]) ==>
           Repeats(w.children[i]) == Repeats(r.children[k]) && Agree(w.children[i], r.children[k])
  }

  // All tags below m are spelled as xml has them, and none is called HDDM.
  predicate InnerTags(m: Tag) {
    forall i :: 0 <= i < |m.children| ==> InnerTag(m.children[i]) && InnerTags(m.children[i])
  }

  // No tag of the file below w is mistaken for a tag of the reader below r.
  predicate Unmistaken(w: Tag, r: Tag)
    decreases w
  {
    forall i :: 0 <= i < |w.children| ==>
      var k := FirstNamed(r.children, w.children[i].name);
      k < |r.children| && SameTag(w.children[i], r.children[k]) ==>
        !Mistaken(w.children[i], r.children[k]) && Unmistaken(w.children[i], r.children[k])
  }

  lemma MatchedExactly(w: Tag, r: Tag)
    requires InnerTag(w) && InnerTag(r)
    ensures Matched(w, r) <==> w.name == r.name && SameTag(w, r)
  {
    if w.name == r.name { TagsMatchExactly(w, r); }
  }

  lemma KidsAreInner(m: Tag, i: nat)
    requires InnerTags(m) && i < |m.children|
    ensures InnerTag(m.children[i]) && InnerTags(m.children[i])
  {
  }

  /** Comparing the texts of their tags makes two models agree exactly if no tag is mistaken
      for another. */
  lemma {:induction false} AgreeExactly(w: Tag, r: Tag)
    requires InnerTags(w) && InnerTags(r)
    ensures Agree(w, r) <==> Columns(w.attrs) == Columns(r.attrs) && Unmistaken(w, r)
    decreases w
  {
    hide Matched, SameTag, Mistaken, InnerTag, InnerTags, Columns, Repeats;
    forall i | 0 <= i < |w.children| && FirstNamed(r.children, w.children[i].name) < |r.children|
      ensures var wc, rc := w.children[i], r.children[FirstNamed(r.children, w.children[i].name)];
              && (Matched(wc, rc) <==> SameTag(wc, rc))
              && (Agree(wc, rc) <==> Columns(wc.attrs) == Columns(rc.attrs) && Unmistaken(wc, rc))
              && (SameTag(wc, rc) ==>
                    (Columns(wc.attrs) == Columns(rc.attrs) && Repeats(wc) == Repeats(rc) <==> !Mistaken(wc, rc)))
    {
      var k := FirstNamed(r.children, w.children[i].name);
      KidsAreInner(w, i);
      KidsAreInner(r, k);
      MatchedExactly(w.children[i], r.children[k]);
      AgreeExactly(w.children[i], r.children[k]);
      if SameTag(w.children[i], r.children[k]) { MistakenExactly(w.children[i], r.children[k]); }
    }
  }

  predicate TidyTree(m: Tag) {
    forall i :: 0 <= i < |m.children| ==> Tidy(m.children[i]) && TidyTree(m.children[i])
  }

  /** Each model for itself can rule that out: no two tidy models mistake their tags. */
  lemma {:induction false} TidyModels(w: Tag, r: Tag)
    requires TidyTree(w) && TidyTree(r)
    ensures Unmistaken(w, r)
    decreases w
  {
    hide Tidy, Mistaken, SameTag;
    forall i | 0 <= i < |w.children| && FirstNamed(r.children, w.children[i].name) < |r.children|
      ensures var rc := r.children[FirstNamed(r.children, w.children[i].name)];
              !Mistaken(w.children[i], rc) && Unmistaken(w.children[i], rc)
    {
      var k := FirstNamed(r.children, w.children[i].name);
      TidyTags(w.children[i], r.children[k]);
      TidyModels(w.children[i], r.children[k]);
    }
  }

  // Agreement, said of the texts: roots that store the same, and tags that are not mistaken
  // for each other.
  predicate TextsAgree(w: Tag, r: Tag) {
    InnerTags(w) && InnerTags(r) && Columns(w.attrs) == Columns(r.attrs) && Unmistaken(w, r)
  }

  // Two models whose records can be exchanged; what is added are the rules for templates.
  predicate Compatible(w: Tag, r: Tag) {
    TextsAgree(w, r) && DistinctSiblings(w) && DistinctSiblings(r) && LinksHaveContent(w)
  }

  // ------------------------------------------------- the projection

  // The child of the file's tag w whose data member number k of class r receives.
  function Partner(w: Tag, r: Tag, k: nat): (i: nat)
    requires k < |r.children|
    ensures i <= |w.children|
  {
    var i := FirstNamed(w.children, r.children[k].name);
    if i < |w.children| && Matched(w.children[i], r.children[k]) then i else |w.children|
  }

  /** The part of a record of model w that model r has a place for: matched tags keep all
      their elements, all other members of r are empty. */
  function Project(w: Tag, r: Tag, e: Rec): (p: Rec)
    requires Conforms(w, e)
    ensures |p.lists| == |r.children|
    decreases w, 0
  {
    Rec(e.vals, seq(|r.children|, k requires 0 <= k < |r.children| => ProjectMember(w, r, e, k, |w.children|)))
  }

  // Member number k of the projection, if only the first n tags of the file count.
  function ProjectMember(w: Tag, r: Tag, e: Rec, k: nat, n: nat): (es: seq<Rec>)
    requires Conforms(w, e) && k < |r.children| && n <= |w.children|
    decreases w, 0, k
  {
    var i := Partner(w, r, k);
    if i < n then ProjectList(w.children[i], r.children[k], e.lists[i]) else []
  }

  function ProjectList(w: Tag, r: Tag, es: seq<Rec>): (ps: seq<Rec>)
    requires ConformsList(w, es)
    ensures |ps| == |es|
    decreases w, 1
  {
    seq(|es|, j requires 0 <= j < |es| => Project(w, r, es[j]))
  }

  lemma {:induction false} ProjectToSelf(m: Tag, e: Rec)
    requires Conforms(m, e) && DistinctSiblings(m)
    ensures Project(m, m, e) == e
    decreases m
  {
    forall k | 0 <= k < |m.children|
      ensures ProjectMember(m, m, e, k, |m.children|) == e.lists[k]
    {
      assert FirstNamed(m.children, m.children[k].name) == k;
      forall j | 0 <= j < |e.lists[k]|
        ensures ProjectList(m.children[k], m.children[k], e.lists[k])[j] == e.lists[k][j]
      {
        assert ConformsList(m.children[k], e.lists[k]);
        ProjectToSelf(m.children[k], e.lists[k][j]);
      }
    }
  }

  // ------------------------------------------------- decoding the encoding

  lemma ReadValueBack(w: Wire, v: Value, b: seq<byte>, p: nat)
    requires Fits(w, v) && At(b, p, EncodeValue(v, w))
    ensures ReadValue(w, b, p, BlankValue(w)) == (v, p + |EncodeValue(v, w)|)
  {
    hide At, BigEndian, FromBigEndian, Padded, ReadText, ReadWord;
    Pow256Values();
    match w
    case Word => ReadWordBack(b, p, v.n, 4);
    case Quad => ReadWordBack(b, p, v.n, 8);
    case Pair => ReadPairBack(b, p, v.n);
    case Chars => ReadTextBack(b, p, v.s, []);
  }

  lemma ReadPairBack(b: seq<byte>, p: nat, n: nat)
    requires n < TWO64 && At(b, p, U32(n / TWO32) + U32(n % TWO32))
    ensures ReadWord(b, p, 4) == (n / TWO32, p + 4) && ReadWord(b, p + 4, 4) == (n % TWO32, p + 8)
  {
    hide At, BigEndian, FromBigEndian, ReadWord;
    Pow256Values();
    AtConcat(b, p, U32(n / TWO32), U32(n % TWO32));
    ReadWordBack(b, p, n / TWO32, 4);
    ReadWordBack(b, p + 4, n % TWO32, 4);
  }

  // Wherever part number j stands in b, it reads back as vs[j] in place of v0[j].
  ghost predicate PartsRead(ws: seq<Wire>, vs: seq<Value>, v0: seq<Value>, parts: seq<seq<byte>>, b: seq<byte>)
    requires |ws| == |vs| == |v0| == |parts|
  {
    forall j, q: nat {:trigger At(b, q, parts[j])} :: 0 <= j < |ws| && At(b, q, parts[j]) ==>
      ReadValue(ws[j], b, q, v0[j]) == (vs[j], q + |parts[j]|)
  }

  // If every part reads back as its value, then so do the parts from number i on.
  lemma {:induction false} JoinedReadsBack(ws: seq<Wire>, vs: seq<Value>, v0: seq<Value>,
                                           parts: seq<seq<byte>>, b: seq<byte>, p: nat, i: nat)
    requires |ws| == |vs| == |v0| == |parts| && i <= |ws| && At(b, p, Joined(parts, i))
    requires PartsRead(ws, vs, v0, parts, b)
    ensures ReadValues(ws, b, p, v0, i) == (vs[i..], p + |Joined(parts, i)|)
    decreases |ws| - i
  {
    hide ReadValue;
    if i == |ws| {
      assert vs[i..] == [];
    } else {
      AtConcat(b, p, parts[i], Joined(parts, i + 1));
      assert ReadValue(ws[i], b, p, v0[i]) == (vs[i], p + |parts[i]|);
      JoinedReadsBack(ws, vs, v0, parts, b, p + |parts[i]|, i + 1);
      assert vs[i..] == [vs[i]] + vs[i + 1..];
    }
  }

  lemma PartsReadBack(ws: seq<Wire>, vs: seq<Value>, v0: seq<Value>, b: seq<byte>)
    requires FitsAll(ws, vs)
    requires |v0| == |ws| && forall i :: 0 <= i < |ws| ==> v0[i] == BlankValue(ws[i])
    ensures PartsRead(ws, vs, v0, ValueParts(ws, vs), b)
  {
    hide At, ReadValue, EncodeValue, BlankValue;
    var parts := ValueParts(ws, vs);
    forall j, q: nat | 0 <= j < |ws| && At(b, q, parts[j])
      ensures ReadValue(ws[j], b, q, v0[j]) == (vs[j], q + |parts[j]|)
    {
      ReadValueBack(ws[j], vs[j], b, q);
    }
  }

  lemma ReadValuesBack(ws: seq<Wire>, vs: seq<Value>, v0: seq<Value>, b: seq<byte>, p: nat)
    requires FitsAll(ws, vs) && At(b, p, EncodeValues(ws, vs))
    requires |v0| == |ws| && forall i :: 0 <= i < |ws| ==> v0[i] == BlankValue(ws[i])
    ensures ReadValues(ws, b, p, v0, 0) == (vs, p + |EncodeValues(ws, vs)|)
  {
    PartsReadBack(ws, vs, v0, b);
    JoinedReadsBack(ws, vs, v0, ValueParts(ws, vs), b, p, 0);
    assert vs[0..] == vs;
  }

  // n reads in a row with the reader f, which maps a position to a result and the next position.
  function Repeat<T>(f: nat -> (T, nat), p: nat, n: nat): (r: (seq<T>, nat))
    decreases n
  {
    if n == 0 then ([], p)
    else
      var (x, q) := f(p);
      var (xs, q') := Repeat(f, q, n - 1);
      ([x] + xs, q')
  }

  ghost predicate PartsRepeat<T(!new)>(f: nat -> (T, nat), xs: seq<T>, parts: seq<seq<byte>>, b: seq<byte>)
    requires |xs| == |parts|
  {
    forall j, q: nat {:trigger At(b, q, parts[j])} :: 0 <= j < |xs| && At(b, q, parts[j]) ==>
      f(q) == (xs[j], q + |parts[j]|)
  }

  // If f reads every part back as its value, then n reads get the parts from number i on.
  lemma {:induction false} JoinedRepeats<T(!new)>(f: nat -> (T, nat), xs: seq<T>, parts: seq<seq<byte>>,
                                            b: seq<byte>, p: nat, i: nat)
    requires |xs| == |parts| && i <= |xs| && At(b, p, Joined(parts, i))
    requires PartsRepeat(f, xs, parts, b)
    ensures Repeat(f, p, |xs| - i) == (xs[i..], p + |Joined(parts, i)|)
    decreases |xs| - i
  {
    hide At;
    if i < |xs| {
      AtConcat(b, p, parts[i], Joined(parts, i + 1));
      var q := p + |parts[i]|;
      assert f(p) == (xs[i], q);
      JoinedRepeats(f, xs, parts, b, q, i + 1);
      RepeatStep(f, p, |xs| - i);
      assert xs[i..] == [xs[i]] + xs[i + 1..];
    } else {
      assert xs[i..] == [];
    }
  }

  lemma RepeatStep<T>(f: nat -> (T, nat), p: nat, n: nat)
    requires n > 0
    ensures Repeat(f, p, n) == ([f(p).0] + Repeat(f, f(p).1, n - 1).0, Repeat(f, f(p).1, n - 1).1)
  {
  }

  function ElemReader(g: Gene, m: Tag, b: seq<byte>): (f: nat -> (Rec, nat))
    requires GeneFits(g, m)
  {
    q => ParseElem(g, m, b, q, Blank(m))
  }

  lemma {:induction false} ParseElemsRepeats(g: Gene, m: Tag, b: seq<byte>, p: nat, n: nat)
    requires GeneFits(g, m)
    ensures ParseElems(g, m, b, p, n) == Repeat(ElemReader(g, m, b), p, n)
    decreases n
  {
    if n > 0 {
      var (e, q) := ElemReader(g, m, b)(p);
      ParseElemsStep(g, m, b, p, n, e, q);
      ParseElemsRepeats(g, m, b, q, n - 1);
    }
  }

  // Length-prefixed blocks from number i of n on; f puts block number i, found at q, into x.
  function Deliver<T>(f: (nat, nat, T) -> T, n: nat, b: seq<byte>, p: nat, x: T, i: nat): (r: (T, nat))
    requires i <= n
    decreases n - i
  {
    if i == n then (x, p)
    else
      var (size, q) := ReadInt(b, p);
      if size <= 0 then Deliver(f, n, b, q, x, i + 1)
      else Deliver(f, n, b, q + size, f(i, q, x), i + 1)
  }

  lemma FramedLength(bodies: seq<seq<byte>>, i: nat)
    requires i <= |bodies|
    ensures |Framed(bodies, i)| == if i == |bodies| then 0 else 4 + |bodies[i]| + |Framed(bodies, i + 1)|
  {
  }

  // The first of the blocks that stand at p: its length, its body, and the others.
  lemma FrontBlock(b: seq<byte>, p: nat, bodies: seq<seq<byte>>, i: nat)
    requires i < |bodies| && |b| < TWO31 && At(b, p, Framed(bodies, i))
    ensures var n := |bodies[i]|;
            && ReadInt(b, p) == (n, p + 4) && ReadWord(b, p, 4) == (n, p + 4)
            && At(b, p + 4, bodies[i]) && At(b, p + 4 + n, Framed(bodies, i + 1))
  {
    hide At, BigEndian, ReadInt, ReadWord;
    var body := bodies[i];
    AtConcat(b, p, Block(body), Framed(bodies, i + 1));
    AtConcat(b, p, U32(|body|), body);
    AtInside(b, p + 4, body);
    ReadIntBack(b, p, |body|);
    Pow256Values();
    ReadWordBack(b, p, |body|, 4);
  }

  // A block body takes xs[j] to xs[j + 1] wherever it stands in b; an empty one changes nothing.
  ghost predicate BodiesDeliver<T(!new)>(f: (nat, nat, T) -> T, xs: seq<T>, bodies: seq<seq<byte>>, b: seq<byte>)
    requires |xs| == |bodies| + 1
  {
    && (forall j :: 0 <= j < |bodies| && bodies[j] == [] ==> xs[j] == xs[j + 1])
    && (forall j, q: nat {:trigger At(b, q, bodies[j])} ::
          0 <= j < |bodies| && bodies[j] != [] && At(b, q, bodies[j]) ==> f(j, q, xs[j]) == xs[j + 1])
  }

  /** If block number j takes xs[j] to xs[j + 1], then the blocks from number i on take
      xs[i] to the last. */
  lemma {:induction false} FramedDelivers<T(!new)>(f: (nat, nat, T) -> T, xs: seq<T>, bodies: seq<seq<byte>>,
                                             b: seq<byte>, p: nat, i: nat)
    requires |xs| == |bodies| + 1 && i <= |bodies|
    requires |b| < TWO31 && At(b, p, Framed(bodies, i))
    requires BodiesDeliver(f, xs, bodies, b)
    ensures Deliver(f, |bodies|, b, p, xs[i], i) == (xs[|bodies|], p + |Framed(bodies, i)|)
    decreases |bodies| - i
  {
    hide At, Framed, ReadInt;
    FramedLength(bodies, i);
    if i < |bodies| {
      var n := |bodies[i]|;
      FrontBlock(b, p, bodies, i);
      FramedDelivers(f, xs, bodies, b, p + 4 + n, i + 1);
    }
  }

  function Depositor(g: Gene, m: Tag, b: seq<byte>): (f: (nat, nat, Rec) -> Rec)
    requires GeneFits(g, m)
  {
    (i: nat, q: nat, x: Rec) => if i < |g.sequence| && Shaped(m, x) then Deposit(g.sequence[i], m, b, q, x) else x
  }

  lemma {:induction false} ParseChildrenDelivers(g: Gene, m: Tag, b: seq<byte>, p: nat, x: Rec, i: nat)
    requires GeneFits(g, m) && Shaped(m, x) && i <= |g.sequence|
    ensures ParseChildren(g, m, b, p, x, i) == Deliver(Depositor(g, m, b), |g.sequence|, b, p, x, i)
    decreases |g.sequence| - i
  {
    hide Deposit, GeneFits, Columns;
    if i < |g.sequence| {
      var (size, q) := ReadInt(b, p);
      OrderFits(g, m, i);
      ParseStep(g, m, b, p, x, i, size, q);
      if size <= 0 {
        ParseChildrenDelivers(g, m, b, q, x, i + 1);
      } else {
        ParseChildrenDelivers(g, m, b, q + size, Depositor(g, m, b)(i, q, x), i + 1);
      }
    }
  }

  // What a decoding starts from: models that agree and a buffer a size can span.
  predicate Decodable(w: Tag, r: Tag, b: seq<byte>) {
    && Agree(w, r) && DistinctSiblings(w) && DistinctSiblings(r) && LinksHaveContent(w)
    && |b| < TWO31
  }

  lemma SameColumns(w: Tag, r: Tag, b: seq<byte>, e: Rec)
    requires Decodable(w, r, b) && Conforms(w, e)
    ensures Columns(w.attrs) == Columns(r.attrs) && |Columns(w.attrs)| == |e.vals|
  {
  }

  lemma {:induction false} ElemProjects(w: Tag, r: Tag, e: Rec, b: seq<byte>, p: nat, g: Gene)
    requires Decodable(w, r, b) && Conforms(w, e) && At(b, p, EncodeElem(w, e))
    requires g.sequence == Genes(w, r) && GeneFits(g, r)
    ensures ParseElem(g, r, b, p, Blank(r)) == (Project(w, r, e), p + |EncodeElem(w, e)|)
    decreases w, 3
  {
    hide *;
    SameColumns(w, r, b, e);
    ElemStart(w, r, e, b, p, g);
    ChildrenProject(w, r, e, b, p + |EncodeValues(Columns(w.attrs), e.vals)|, g);
  }

  // The stored attributes read back; what remains are the blocks of the child tags.
  lemma ElemStart(w: Tag, r: Tag, e: Rec, b: seq<byte>, p: nat, g: Gene)
    requires Columns(w.attrs) == Columns(r.attrs) && GeneFits(g, r)
    requires Conforms(w, e) && At(b, p, EncodeElem(w, e))
    ensures var q := p + |EncodeValues(Columns(w.attrs), e.vals)|;
            && At(b, q, Framed(Bodies(w, e), 0))
            && ParseElem(g, r, b, p, Blank(r)) == ParseChildren(g, r, b, q, Rec(e.vals, Blank(r).lists), 0)
            && p + |EncodeElem(w, e)| == q + |Framed(Bodies(w, e), 0)|
  {
    hide At, EncodeValues, Framed, Bodies, ParseChildren, GeneFits, ReadValues, Columns;
    AtConcat(b, p, EncodeValues(Columns(w.attrs), e.vals), Framed(Bodies(w, e), 0));
    ReadValuesBack(Columns(w.attrs), e.vals, Blank(r).vals, b, p);
  }

  lemma {:induction false} ChildrenProject(w: Tag, r: Tag, e: Rec, b: seq<byte>, p: nat, g: Gene)
    requires Decodable(w, r, b) && Conforms(w, e) && At(b, p, Framed(Bodies(w, e), 0))
    requires g.sequence == Genes(w, r) && GeneFits(g, r)
    ensures ParseChildren(g, r, b, p, Rec(e.vals, Blank(r).lists), 0)
            == (Project(w, r, e), p + |Framed(Bodies(w, e), 0)|)
    decreases w, 2
  {
    hide At, ParseChildren, Bodies, Framed, Deliver, BodiesDeliver, Depositor, Agree, DistinctSiblings,
         LinksHaveContent, GeneFits, Genes, Conforms;
    SameColumns(w, r, b, e);
    var xs := Partials(w, r, e);
    assert xs[0] == Rec(e.vals, Blank(r).lists);
    assert xs[|w.children|] == Project(w, r, e);
    ParseChildrenDelivers(g, r, b, p, xs[0], 0);
    ChildrenDeposit(w, r, e, b, g);
    FramedDelivers(Depositor(g, r, b), xs, Bodies(w, e), b, p, 0);
  }

  lemma {:induction false} ChildrenDeposit(w: Tag, r: Tag, e: Rec, b: seq<byte>, g: Gene)
    requires Decodable(w, r, b) && Conforms(w, e)
    requires g.sequence == Genes(w, r) && GeneFits(g, r)
    ensures BodiesDeliver(Depositor(g, r, b), Partials(w, r, e), Bodies(w, e), b)
    decreases w, 1
  {
    hide At, Deposit, Agree, DistinctSiblings, LinksHaveContent, Conforms, GeneFits, Partial, EncodeList, Columns;
    SameColumns(w, r, b, e);
    var xs, bodies := Partials(w, r, e), Bodies(w, e);
    forall j, q: nat | 0 <= j < |bodies| && bodies[j] != [] && At(b, q, bodies[j])
      ensures Depositor(g, r, b)(j, q, xs[j]) == xs[j + 1]
    {
      ChildDeposits(w, r, e, b, q, g, j);
    }
    forall j | 0 <= j < |bodies| && bodies[j] == []
      ensures xs[j] == xs[j + 1]
    {
      EmptyDeposits(w, r, e, j);
    }
  }

  // The element when the blocks of the first n child tags have been decoded.
  function Partial(w: Tag, r: Tag, e: Rec, n: nat): (p: Rec)
    requires Conforms(w, e) && n <= |w.children|
    ensures |p.lists| == |r.children| && p.vals == e.vals
  {
    Rec(e.vals, seq(|r.children|, k requires 0 <= k < |r.children| => ProjectMember(w, r, e, k, n)))
  }

  function Partials(w: Tag, r: Tag, e: Rec): (ps: seq<Rec>)
    requires Conforms(w, e)
    ensures |ps| == |w.children| + 1
    ensures forall n :: 0 <= n < |ps| ==> ps[n] == Partial(w, r, e, n)
  {
    seq(|w.children| + 1, n requires 0 <= n <= |w.children| => Partial(w, r, e, n))
  }

  lemma EmptyDeposits(w: Tag, r: Tag, e: Rec, i: nat)
    requires Conforms(w, e) && LinksHaveContent(w) && i < |w.children|
    requires EncodeList(w.children[i], e.lists[i]) == []
    ensures Partial(w, r, e, i) == Partial(w, r, e, i + 1)
  {
    ListIsVisible(w.children[i], e.lists[i]);
  }

  lemma ListIsVisible(w: Tag, es: seq<Rec>)
    requires ConformsList(w, es) && (Repeats(w) || HasContent(w))
    ensures EncodeList(w, es) == [] <==> es == []
  {
    if es != [] && !Repeats(w) {
      ContentIsVisible(w, es[0]);
    }
  }

  lemma EmptyIsInvisible(m: Tag, es: seq<Rec>)
    requires ConformsList(m, es) && EncodeList(m, es) != []
    ensures es != []
  {
  }

  // With distinct names, tag number i is the partner of member k exactly if its codon says k + 1.
  lemma PartnerIsOrder(w: Tag, r: Tag, i: nat, k: nat)
    requires DistinctSiblings(w) && DistinctSiblings(r) && i < |w.children| && k < |r.children|
    ensures Partner(w, r, k) == i <==> GeneFor(w.children[i], r).order == k + 1
  {
    var name := w.children[i].name;
    assert name == r.children[k].name ==> FirstNamed(w.children, name) == i && FirstNamed(r.children, name) == k;
  }

  // What the tag number i of the file has in common with the member its codon names.
  predicate ChildMatched(w: Tag, r: Tag, e: Rec, b: seq<byte>, g: Gene, i: nat)
    requires Conforms(w, e) && i < |w.children| == |g.sequence|
  {
    var c, wc := g.sequence[i], w.children[i];
    && c.order <= |r.children| && i < |e.lists|
    && ConformsList(wc, e.lists[i]) && Bodies(w, e)[i] == EncodeList(wc, e.lists[i])
    && (Repeats(wc) || HasContent(wc))
    && (c.order == 0 ==> forall k :: 0 <= k < |r.children| ==> Partner(w, r, k) != i)
    && (c.order > 0 ==>
          && var rc := r.children[c.order - 1];
          && Decodable(wc, rc, b) && Repeats(wc) == Repeats(rc)
          && c.sequence == Genes(wc, rc) && GeneFits(c, rc)
          && forall k :: 0 <= k < |r.children| ==> (Partner(w, r, k) == i <==> k == c.order - 1))
  }

  lemma ChildFacts(w: Tag, r: Tag, e: Rec, b: seq<byte>, g: Gene, i: nat)
    requires Decodable(w, r, b) && Conforms(w, e) && i < |w.children|
    requires g.sequence == Genes(w, r) && GeneFits(g, r)
    ensures ChildMatched(w, r, e, b, g, i)
  {
    hide At, Repeats, Columns, EncodeList, Partner, Matched, HasContent;
    forall k | 0 <= k < |r.children|
      ensures Partner(w, r, k) == i <==> GeneFor(w.children[i], r).order == k + 1
    {
      PartnerIsOrder(w, r, i, k);
    }
  }

  lemma PartialSkips(w: Tag, r: Tag, e: Rec, i: nat)
    requires Conforms(w, e) && i < |w.children| && forall k :: 0 <= k < |r.children| ==> Partner(w, r, k) != i
    ensures Partial(w, r, e, i) == Partial(w, r, e, i + 1)
  {
    hide Conforms, ProjectList, Partner;
  }

  lemma PartialStep(w: Tag, r: Tag, e: Rec, i: nat, k: nat)
    requires Conforms(w, e) && i < |w.children| && k < |r.children|
    requires forall k' :: 0 <= k' < |r.children| ==> (Partner(w, r, k') == i <==> k' == k)
    requires ConformsList(w.children[i], e.lists[i])
    ensures SetList(Partial(w, r, e, i), k, ProjectList(w.children[i], r.children[k], e.lists[i]))
            == Partial(w, r, e, i + 1)
  {
    hide Conforms, ProjectList, Partner;
  }

  lemma {:induction false} ChildDeposits(w: Tag, r: Tag, e: Rec, b: seq<byte>, p: nat, g: Gene, i: nat)
    requires Decodable(w, r, b) && Conforms(w, e) && i < |w.children| && |Columns(r.attrs)| == |e.vals|
    requires Bodies(w, e)[i] != [] && At(b, p, Bodies(w, e)[i])
    requires g.sequence == Genes(w, r) && GeneFits(g, r)
    ensures g.sequence[i].order <= |r.children|
    ensures g.sequence[i].order > 0 ==> GeneFits(g.sequence[i], r.children[g.sequence[i].order - 1])
    ensures Deposit(g.sequence[i], r, b, p, Partial(w, r, e, i)) == Partial(w, r, e, i + 1)
    decreases w, 0
  {
    hide At, ParseList, Project, EncodeList, Decodable, Conforms, Partial, Partner, GeneFits, Genes, Columns, Bodies;
    var c, wc := g.sequence[i], w.children[i];
    ChildFacts(w, r, e, b, g, i);
    if c.order > 0 {
      EmptyIsInvisible(wc, e.lists[i]);
      ListProjects(wc, r.children[c.order - 1], e.lists[i], b, p, c);
      PartialStep(w, r, e, i, c.order - 1);
    } else {
      PartialSkips(w, r, e, i);
    }
  }

  lemma {:induction false} ElemsProject(w: Tag, r: Tag, es: seq<Rec>, b: seq<byte>, g: Gene)
    requires Decodable(w, r, b) && ConformsList(w, es)
    requires g.sequence == Genes(w, r) && GeneFits(g, r)
    ensures PartsRepeat(ElemReader(g, r, b), ProjectList(w, r, es), ElemParts(w, es), b)
    decreases w, 4
  {
    hide At, Project, Agree, DistinctSiblings, LinksHaveContent, ParseElem, EncodeElem, GeneFits, Genes;
    var ps, parts := ProjectList(w, r, es), ElemParts(w, es);
    forall j, q: nat | 0 <= j < |es| && At(b, q, parts[j])
      ensures ElemReader(g, r, b)(q) == (ps[j], q + |parts[j]|)
    {
      ElemProjects(w, r, es[j], b, q, g);
    }
  }

  // A list member: the count, then the elements.
  lemma {:induction false} RepeatProjects(w: Tag, r: Tag, es: seq<Rec>, b: seq<byte>, p: nat, g: Gene)
    requires Decodable(w, r, b) && ConformsList(w, es) && At(b, p, Joined(ElemParts(w, es), 0))
    requires g.sequence == Genes(w, r) && GeneFits(g, r)
    ensures ParseElems(g, r, b, p, |es|) == (ProjectList(w, r, es), p + |Joined(ElemParts(w, es), 0)|)
    decreases w, 5
  {
    hide At, Project, Agree, DistinctSiblings, LinksHaveContent, ParseElems, EncodeElem, GeneFits, Genes, ElemReader,
         Repeat, PartsRepeat, Joined;
    var ps := ProjectList(w, r, es);
    ParseElemsRepeats(g, r, b, p, |es|);
    ElemsProject(w, r, es, b, g);
    JoinedRepeats(ElemReader(g, r, b), ps, ElemParts(w, es), b, p, 0);
    assert ps[0..] == ps;
  }

  lemma {:induction false} ListProjects(w: Tag, r: Tag, es: seq<Rec>, b: seq<byte>, p: nat, g: Gene)
    requires Decodable(w, r, b) && ConformsList(w, es) && es != [] && Repeats(w) == Repeats(r)
    requires At(b, p, EncodeList(w, es))
    requires g.sequence == Genes(w, r) && GeneFits(g, r)
    ensures ParseList(g, r, b, p) == (ProjectList(w, r, es), p + |EncodeList(w, es)|)
    decreases w, 6
  {
    hide Project, Agree, DistinctSiblings, LinksHaveContent, ParseElem, ParseElems, EncodeElem, GeneFits, Genes,
         Joined, ElemParts, At, Repeats;
    if Repeats(w) {
      AtConcat(b, p, U32(|es|), Joined(ElemParts(w, es), 0));
      ReadIntBack(b, p, |es|);
      RepeatProjects(w, r, es, b, p + 4, g);
    } else {
      ElemProjects(w, r, es[0], b, p, g);
      assert ProjectList(w, r, es) == [Project(w, r, es[0])];
    }
  }

  // ------------------------------------------------- whole records

  // Decoding the bytes of a record gives its projection, and consumes exactly the record.
  lemma RecordProjects(w: Tag, r: Tag, e: Rec, b: seq<byte>, p: nat)
    requires Decodable(w, r, b) && Conforms(w, e) && At(b, p, EncodeRecord(w, e))
    requires e.vals != [] || w.children != []
    ensures GeneFits(Genome(w, r), r)
    ensures var (size, q) := ReadInt(b, p);
            && size > 0 && q + size == p + |EncodeRecord(w, e)|
            && ParseElem(Genome(w, r), r, b, q, Blank(r)) == (Project(w, r, e), q + size)
  {
    hide At, Agree, DistinctSiblings, LinksHaveContent, ParseElem, EncodeElem, Project, GeneFits, Genes, Columns,
         ConformsList;
    GenesFit(w, r, 0, "HDDM");
    AtConcat(b, p, U32(|EncodeElem(w, e)|), EncodeElem(w, e));
    AtInside(b, p + 4, EncodeElem(w, e));
    ReadIntBack(b, p, |EncodeElem(w, e)|);
    ContentIsVisible(w, e);
    ElemProjects(w, r, e, b, p + 4, Genome(w, r));
  }

  lemma CompatibleDecodes(w: Tag, r: Tag, b: seq<byte>)
    requires Compatible(w, r) && |b| < TWO31
    ensures Decodable(w, r, b)
  {
    hide InnerTags, Unmistaken, Agree, DistinctSiblings, LinksHaveContent, Columns;
    AgreeExactly(w, r);
  }

  /** Schema evolution.  For all models w and r whose tags are not mistaken for each other,
      decoding the bytes of any record of w with the codons of (w, r) gives exactly its
      projection to r, and consumes exactly the record. */
  lemma SchemaEvolution(w: Tag, r: Tag, e: Rec, b: seq<byte>, p: nat)
    requires Compatible(w, r) && |b| < TWO31 && Conforms(w, e) && At(b, p, EncodeRecord(w, e))
    requires e.vals != [] || w.children != []
    ensures GeneFits(Genome(w, r), r)
    ensures var (size, q) := ReadInt(b, p);
            && size > 0 && q + size == p + |EncodeRecord(w, e)|
            && ParseElem(Genome(w, r), r, b, q, Blank(r)) == (Project(w, r, e), q + size)
  {
    hide *;
    CompatibleDecodes(w, r, b);
    RecordProjects(w, r, e, b, p);
  }

  // With one model on both sides this is the round trip.
  lemma RoundTrip(m: Tag, e: Rec, b: seq<byte>, p: nat)
    requires DistinctSiblings(m) && LinksHaveContent(m) && |b| < TWO31
    requires Conforms(m, e) && At(b, p, EncodeRecord(m, e)) && (e.vals != [] || m.children != [])
    ensures GeneFits(Genome(m, m), m)
    ensures ParseElem(Genome(m, m), m, b, p + 4, Blank(m)) == (e, p + |EncodeRecord(m, e)|)
  {
    hide At, Agree, LinksHaveContent, ParseElem, EncodeElem, Project, GeneFits, Genes, Columns, Conforms;
    AgreeWithSelf(m);
    RecordProjects(m, m, e, b, p);
    ProjectToSelf(m, e);
  }

  lemma {:induction false} AgreeWithSelf(m: Tag)
    requires DistinctSiblings(m)
    ensures Agree(m, m)
    decreases m
  {
    forall i | 0 <= i < |m.children|
      ensures Agree(m.children[i], m.children[i]) && FirstNamed(m.children, m.children[i].name) == i
    {
      AgreeWithSelf(m.children[i]);
    }
  }

  /** A link element survives the trip exactly when its tag stores something; without
      content it has no bytes, and the reader takes it for absent. */
  lemma LinkSurvives(m: Tag, e: Rec, b: seq<byte>, p: nat)
    requires !Repeats(m) && DistinctSiblings(m) && LinksHaveContent(m) && |b| < TWO31
    requires Conforms(m, e) && At(b, p, Block(EncodeList(m, [e])))
    ensures GeneFits(Genome(m, m), m)
    ensures var (size, q) := ReadInt(b, p);
            (if size > 0 then ParseList(Genome(m, m), m, b, q).0 else []) == [e] <==> HasContent(m)
  {
    hide At, Agree, DistinctSiblings, LinksHaveContent, ParseList, EncodeElem, Project, GeneFits, Genes, Columns,
         Conforms, BigEndian, Repeats, ReadInt;
    GenesFit(m, m, 0, "HDDM");
    var body := EncodeList(m, [e]);
    AtConcat(b, p, U32(|body|), body);
    AtInside(b, p + 4, body);
    ReadIntBack(b, p, |body|);
    ContentIsVisible(m, e);
    if HasContent(m) {
      AgreeWithSelf(m);
      ListProjects(m, m, [e], b, p + 4, Genome(m, m));
      ProjectToSelf(m, e);
    }
  }
}
