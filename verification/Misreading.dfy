/** The conditions on two models are exact: where one fails, there is a small record that
    comes out wrong. */
module Misreading {
  import opened Slices
  import opened Xdr
  import opened Model
  import opened TagText
  import opened Sequencer
  import opened Evolution
  import opened CRuntime

  // ------------------------------------------------- records with one list

  // An element in which everything is blank, but for the list of child tag i.
  function Sparse(m: Tag, i: nat, es: seq<Rec>): (e: Rec)
    requires i < |m.children|
    ensures |e.lists| == |m.children| && |e.vals| == |Columns(m.attrs)|
  {
    Rec(Blank(m).vals, Blank(m).lists[i := es])
  }

  lemma SparseConforms(m: Tag, i: nat, es: seq<Rec>)
    requires i < |m.children| && ConformsList(m.children[i], es)
    ensures Conforms(m, Sparse(m, i, es))
    ensures forall j :: 0 <= j < |m.children| ==>
              Bodies(m, Sparse(m, i, es))[j] == if j == i then EncodeList(m.children[i], es) else []
  {
    BlankConforms(m);
  }

  // The bytes of a blank element, at most, and those of the records below.
  function Flat(m: Tag): (n: nat) {
    8 * |Columns(m.attrs)| + 4 * |m.children|
  }

  function Spread(m: Tag): (n: nat)
    decreases m, 0
  {
    Flat(m) + SpreadFrom(m, 0)
  }

  function SpreadFrom(m: Tag, i: nat): (n: nat)
    requires i <= |m.children|
    decreases m, 0, |m.children| - i
  {
    if i == |m.children| then 0
    else 4 + Flat(m.children[i]) + Spread(m.children[i]) + SpreadFrom(m, i + 1)
  }

  lemma {:induction false} SpreadOfChild(m: Tag, i: nat, j: nat)
    requires j <= i < |m.children|
    ensures SpreadFrom(m, j) >= 4 + Flat(m.children[i]) + Spread(m.children[i])
    decreases i - j
  {
    hide Flat, Spread;
    if j < i { SpreadOfChild(m, i, j + 1); }
  }

  lemma {:induction false} JoinedBound(parts: seq<seq<byte>>, i: nat)
    requires i <= |parts| && forall j :: 0 <= j < |parts| ==> |parts[j]| <= 8
    ensures |Joined(parts, i)| <= 8 * (|parts| - i)
    decreases |parts| - i
  {
    if i < |parts| { JoinedBound(parts, i + 1); }
  }

  // Blocks of which only number k may have a body.
  lemma {:induction false} FramedOne(bodies: seq<seq<byte>>, k: nat, i: nat)
    requires i <= |bodies| && forall j :: 0 <= j < |bodies| && j != k ==> bodies[j] == []
    ensures |Framed(bodies, i)| == 4 * (|bodies| - i) + if i <= k < |bodies| then |bodies[k]| else 0
    decreases |bodies| - i
  {
    if i < |bodies| { FramedOne(bodies, k, i + 1); }
  }

  lemma ShortValues(ws: seq<Wire>, vs: seq<Value>)
    requires |ws| == |vs| && forall i :: 0 <= i < |ws| ==> |EncodeValue(vs[i], ws[i])| <= 8
    ensures |EncodeValues(ws, vs)| <= 8 * |ws|
  {
    JoinedBound(ValueParts(ws, vs), 0);
  }

  lemma SparseSize(m: Tag, i: nat, es: seq<Rec>)
    requires i < |m.children| && ConformsList(m.children[i], es)
    ensures Conforms(m, Sparse(m, i, es))
    ensures |EncodeElem(m, Sparse(m, i, es))| <= Flat(m) + |EncodeList(m.children[i], es)|
  {
    hide Columns, EncodeList, EncodeValues, Conforms, ConformsList, Framed;
    SparseConforms(m, i, es);
    ShortValues(Columns(m.attrs), Blank(m).vals);
    FramedOne(Bodies(m, Sparse(m, i, es)), i, 0);
  }

  lemma BlankSize(m: Tag)
    ensures Conforms(m, Blank(m)) && |EncodeElem(m, Blank(m))| <= Flat(m)
    ensures forall i :: 0 <= i < |m.children| ==> Bodies(m, Blank(m))[i] == []
  {
    hide Columns, EncodeValues, Framed;
    BlankConforms(m);
    ShortValues(Columns(m.attrs), Blank(m).vals);
    forall i | 0 <= i < |m.children| ensures Bodies(m, Blank(m))[i] == [] {
      assert Bodies(m, Blank(m))[i] == EncodeList(m.children[i], Blank(m).lists[i]);
    }
    FramedOne(Bodies(m, Blank(m)), 0, 0);
  }

  // A blank element begins with a zero word.
  lemma BlankStarts(m: Tag)
    requires HasContent(m)
    ensures Conforms(m, Blank(m)) && U32(0) <= EncodeElem(m, Blank(m))
  {
    hide Columns;
    BlankSize(m);
    var ws, bodies := Columns(m.attrs), Bodies(m, Blank(m));
    if ws != [] {
      BlankValueStarts(ws[0]);
      assert ValueParts(ws, Blank(m).vals)[0] == EncodeValue(BlankValue(ws[0]), ws[0]);
    } else {
      assert Framed(bodies, 0) == Block(bodies[0]) + Framed(bodies, 1);
    }
  }

  lemma BlankValueStarts(w: Wire)
    ensures U32(0) <= EncodeValue(BlankValue(w), w)
  {
    assert BigEndian(0, 8) == BigEndian(0, 4) + (BigEndian(0, 8)[4..]);
  }

  // ------------------------------------------------- where one member comes from

  /** If block number i is the only one that goes to member k, then that member is what is
      decoded from this block. */
  lemma {:induction false} MemberParsed(g: Gene, m: Tag, b: seq<byte>, p: nat, x: Rec, bodies: seq<seq<byte>>,
                                        j: nat, i: nat, k: nat)
      returns (q: nat)
    requires GeneFits(g, m) && Shaped(m, x) && |bodies| == |g.sequence| && j <= i < |bodies| && k < |m.children|
    requires forall n :: 0 <= n < |bodies| ==> (g.sequence[n].order == k + 1 <==> n == i)
    requires |b| < TWO31 && At(b, p, Framed(bodies, j)) && bodies[i] != []
    ensures At(b, q, bodies[i]) && GeneFits(g.sequence[i], m.children[k])
    ensures ParseChildren(g, m, b, p, x, j).0.lists[k] == ParseList(g.sequence[i], m.children[k], b, q).0
    decreases i - j
  {
    hide Columns, ParseList, GeneFits, At, Framed, ReadInt, Deposit;
    var n := |bodies[j]|;
    FrontBlock(b, p, bodies, j);
    OrderFits(g, m, j);
    ParseStep(g, m, b, p, x, j, n, p + 4);
    if j == i {
      q := p + 4;
      DepositHere(g.sequence[i], m, b, q, x, k);
      Untouched(g, m, b, q + n, Deposit(g.sequence[i], m, b, q, x), i + 1, k);
    } else if n == 0 {
      q := MemberParsed(g, m, b, p + 4, x, bodies, j + 1, i, k);
    } else {
      q := MemberParsed(g, m, b, p + 4 + n, Deposit(g.sequence[j], m, b, p + 4, x), bodies, j + 1, i, k);
    }
  }

  // ------------------------------------------------- records that are misread

  // Wherever they stand, the bytes of e are not decoded to its projection.
  ghost predicate ElemMisread(w: Tag, r: Tag, e: Rec)
    requires Conforms(w, e)
  {
    forall g, b, p: nat {:trigger GeneFits(g, r), At(b, p, EncodeElem(w, e))} ::
      GeneFits(g, r) && g.sequence == Genes(w, r) && |b| < TWO31 && At(b, p, EncodeElem(w, e)) ==>
        ParseElem(g, r, b, p, Blank(r)).0 != Project(w, r, e)
  }

  ghost predicate ListMisread(w: Tag, r: Tag, es: seq<Rec>)
    requires ConformsList(w, es)
  {
    forall g, b, p: nat {:trigger GeneFits(g, r), At(b, p, EncodeList(w, es))} ::
      GeneFits(g, r) && g.sequence == Genes(w, r) && |b| < TWO31 && At(b, p, EncodeList(w, es)) ==>
        ParseList(g, r, b, p).0 != ProjectList(w, r, es)
  }

  // Tag number i of w is matched with member k of r.
  predicate Paired(w: Tag, r: Tag, i: nat, k: nat) {
    && i < |w.children| && k < |r.children| && k == FirstNamed(r.children, w.children[i].name)
    && Matched(w.children[i], r.children[k])
  }

  lemma PairedCodons(w: Tag, r: Tag, i: nat, k: nat)
    requires Paired(w, r, i, k) && DistinctSiblings(w) && DistinctSiblings(r)
    ensures forall n :: 0 <= n < |w.children| ==> (Genes(w, r)[n].order == k + 1 <==> n == i)
    ensures Genes(w, r)[i].sequence == Genes(w.children[i], r.children[k])
    ensures Partner(w, r, k) == i
  {
    hide Matched;
    forall n | 0 <= n < |w.children|
      ensures Genes(w, r)[n].order == k + 1 <==> n == i
    {
      PartnerIsOrder(w, r, n, k);
      PartnerIsOrder(w, r, i, k);
    }
  }

  // A misread list makes the element around it misread.
  lemma SparseIsMisread(w: Tag, r: Tag, i: nat, k: nat, es: seq<Rec>)
    requires Paired(w, r, i, k) && DistinctSiblings(w) && DistinctSiblings(r)
    requires Columns(w.attrs) == Columns(r.attrs)
    requires ConformsList(w.children[i], es) && EncodeList(w.children[i], es) != []
    requires ListMisread(w.children[i], r.children[k], es)
    ensures Conforms(w, Sparse(w, i, es)) && ElemMisread(w, r, Sparse(w, i, es))
  {
    hide At, Columns, ParseElem, ParseList, ParseChildren, Conforms, ConformsList, Genes, GeneFits, Matched,
         EncodeList, EncodeElem, Framed, DistinctSiblings, ProjectList, Partner;
    var e, wc, rc := Sparse(w, i, es), w.children[i], r.children[k];
    SparseConforms(w, i, es);
    PairedCodons(w, r, i, k);
    ProjectedMember(w, r, i, k, es);
    forall g, b, p: nat | GeneFits(g, r) && g.sequence == Genes(w, r) && |b| < TWO31 && At(b, p, EncodeElem(w, e))
      ensures ParseElem(g, r, b, p, Blank(r)).0 != Project(w, r, e)
    {
      ElemStart(w, r, e, b, p, g);
      var x := Rec(e.vals, Blank(r).lists);
      var q0 := p + |EncodeValues(Columns(w.attrs), e.vals)|;
      var q := MemberParsed(g, r, b, q0, x, Bodies(w, e), 0, i, k);
      assert GeneFits(g.sequence[i], rc) && At(b, q, EncodeList(wc, es));
    }
  }

  lemma ProjectedMember(w: Tag, r: Tag, i: nat, k: nat, es: seq<Rec>)
    requires i < |w.children| && k < |r.children| && Partner(w, r, k) == i && ConformsList(w.children[i], es)
    ensures Conforms(w, Sparse(w, i, es))
    ensures Project(w, r, Sparse(w, i, es)).lists[k] == ProjectList(w.children[i], r.children[k], es)
  {
    hide Partner, ProjectList, EncodeList;
    SparseConforms(w, i, es);
  }

  /** Where a tag is mistaken, there is a list of one or two blank elements that is misread. */
  lemma MistakenList(w: Tag, r: Tag) returns (es: seq<Rec>)
    requires SameTag(w, r) && Mistaken(w, r) && (Repeats(w) || HasContent(w))
    ensures ConformsList(w, es) && EncodeList(w, es) != [] && |EncodeList(w, es)| <= 4 + 2 * Flat(w)
    ensures ListMisread(w, r, es)
  {
    hide Columns, Repeats, Mistaken, SameTag, Conforms, GeneFits, Genes, EncodeElem, ParseElem, At, HasContent, Flat;
    MistakenExactly(w, r);
    BlankSize(w);
    if Repeats(w) && !Repeats(r) {
      es := [Blank(w), Blank(w)];
      TwoParts(ElemParts(w, es));
    } else {
      es := [Blank(w)];
      OneBlank(w);
      if Repeats(w) == Repeats(r) { BlankIsMisread(w, r); } else { ZeroIsMisread(w, r); }
    }
  }

  lemma OneBlank(w: Tag)
    requires Repeats(w) || HasContent(w)
    ensures Conforms(w, Blank(w)) && ConformsList(w, [Blank(w)])
    ensures EncodeList(w, [Blank(w)]) == (if Repeats(w) then U32(1) else []) + EncodeElem(w, Blank(w)) != []
  {
    hide Columns, Repeats, EncodeElem, HasContent, Conforms;
    BlankConforms(w);
    ContentIsVisible(w, Blank(w));
    assert Joined(ElemParts(w, [Blank(w)]), 0) == EncodeElem(w, Blank(w)) + Joined(ElemParts(w, [Blank(w)]), 1);
  }

  // With other columns no element has the shape of the projection.
  lemma BlankIsMisread(w: Tag, r: Tag)
    requires Repeats(w) == Repeats(r) && |Columns(w.attrs)| != |Columns(r.attrs)|
    requires Conforms(w, Blank(w)) && ConformsList(w, [Blank(w)])
    requires EncodeList(w, [Blank(w)]) == (if Repeats(w) then U32(1) else []) + EncodeElem(w, Blank(w))
    ensures ListMisread(w, r, [Blank(w)])
  {
    hide Columns, Repeats, EncodeElem, ParseElem, Genes, GeneFits, At, Conforms, EncodeList;
    var es := [Blank(w)];
    forall g, b, p: nat | GeneFits(g, r) && g.sequence == Genes(w, r) && |b| < TWO31 && At(b, p, EncodeList(w, es))
      ensures ParseList(g, r, b, p).0 != ProjectList(w, r, es)
    {
      if Repeats(w) {
        AtConcat(b, p, U32(1), EncodeElem(w, Blank(w)));
        ReadIntBack(b, p, 1);
      }
      var ps := ParseList(g, r, b, p).0;
      assert Shaped(r, ps[0]) && ProjectList(w, r, es)[0].vals == Blank(w).vals;
    }
  }

  // A link read as a list takes the zero word for a count.
  lemma ZeroIsMisread(w: Tag, r: Tag)
    requires !Repeats(w) && Repeats(r) && HasContent(w) && ConformsList(w, [Blank(w)])
    ensures ListMisread(w, r, [Blank(w)])
  {
    hide Columns, Repeats, EncodeElem, ParseElem, Genes, GeneFits, At, Conforms, BigEndian;
    BlankStarts(w);
    var es, bytes := [Blank(w)], EncodeElem(w, Blank(w));
    forall g, b, p: nat | GeneFits(g, r) && g.sequence == Genes(w, r) && |b| < TWO31 && At(b, p, EncodeList(w, es))
      ensures ParseList(g, r, b, p).0 != ProjectList(w, r, es)
    {
      assert bytes == U32(0) + bytes[4..];
      AtConcat(b, p, U32(0), bytes[4..]);
      ReadIntBack(b, p, 0);
    }
  }

  // A misread element makes the list that holds just this one misread.
  lemma SingleIsMisread(w: Tag, r: Tag, e: Rec)
    requires Conforms(w, e) && ElemMisread(w, r, e) && Repeats(w) == Repeats(r)
    ensures ConformsList(w, [e]) && ListMisread(w, r, [e])
    ensures EncodeList(w, [e]) == (if Repeats(w) then U32(1) else []) + EncodeElem(w, e)
  {
    hide Columns, Repeats, EncodeElem, ParseElem, Genes, GeneFits, At, Conforms, Project;
    var es := [e];
    assert Joined(ElemParts(w, es), 0) == EncodeElem(w, e) + Joined(ElemParts(w, es), 1);
    assert EncodeList(w, es) == (if Repeats(w) then U32(1) else []) + EncodeElem(w, e);
    forall g, b, p: nat | GeneFits(g, r) && g.sequence == Genes(w, r) && |b| < TWO31 && At(b, p, EncodeList(w, es))
      ensures ParseList(g, r, b, p).0 != ProjectList(w, r, es)
    {
      if Repeats(w) {
        AtConcat(b, p, U32(1), EncodeElem(w, e));
        ReadIntBack(b, p, 1);
      }
      var q := if Repeats(w) then p + 4 else p;
      assert At(b, q, EncodeElem(w, e));
      assert ParseList(g, r, b, p).0[0] == ParseElem(g, r, b, q, Blank(r)).0 != Project(w, r, e);
      assert ProjectList(w, r, es)[0] == Project(w, r, e);
    }
  }

  lemma ChildModels(w: Tag, r: Tag, i: nat, k: nat)
    requires i < |w.children| && k < |r.children| && InnerTags(w) && InnerTags(r)
    requires DistinctSiblings(w) && DistinctSiblings(r) && LinksHaveContent(w)
    ensures InnerTag(w.children[i]) && InnerTag(r.children[k]) && InnerTags(w.children[i]) && InnerTags(r.children[k])
    ensures DistinctSiblings(w.children[i]) && DistinctSiblings(r.children[k]) && LinksHaveContent(w.children[i])
    ensures Repeats(w.children[i]) || HasContent(w.children[i])
  {
  }

  // A tag that is mistaken, or has one below it that is.
  lemma FirstMistake(w: Tag, r: Tag) returns (i: nat, k: nat)
    requires !Unmistaken(w, r) && InnerTags(w) && InnerTags(r)
    ensures Paired(w, r, i, k) && SameTag(w.children[i], r.children[k])
    ensures Mistaken(w.children[i], r.children[k]) || !Unmistaken(w.children[i], r.children[k])
  {
    hide SameTag, Mistaken, Matched, InnerTag;
    i :| 0 <= i < |w.children| && FirstNamed(r.children, w.children[i].name) < |r.children|
         && SameTag(w.children[i], r.children[FirstNamed(r.children, w.children[i].name)])
         && (|| Mistaken(w.children[i], r.children[FirstNamed(r.children, w.children[i].name)])
             || !Unmistaken(w.children[i], r.children[FirstNamed(r.children, w.children[i].name)]));
    k := FirstNamed(r.children, w.children[i].name);
    KidsAreInner(w, i);
    KidsAreInner(r, k);
    MatchedExactly(w.children[i], r.children[k]);
  }

  /** If any tag at any depth is mistaken for another, there is a record that is misread. */
  lemma {:induction false} MistakenElem(w: Tag, r: Tag) returns (e: Rec)
    requires !Unmistaken(w, r) && Columns(w.attrs) == Columns(r.attrs) && InnerTags(w) && InnerTags(r)
    requires DistinctSiblings(w) && DistinctSiblings(r) && LinksHaveContent(w)
    ensures Conforms(w, e) && |EncodeElem(w, e)| <= Spread(w) && ElemMisread(w, r, e)
    decreases w
  {
    hide Columns, InnerTags, InnerTag, DistinctSiblings, LinksHaveContent, Unmistaken, Mistaken, SameTag, Matched,
         Conforms, EncodeElem, ElemMisread, ListMisread, Flat, EncodeList, Repeats;
    var i, k := FirstMistake(w, r);
    var wc, rc := w.children[i], r.children[k];
    ChildModels(w, r, i, k);
    var es: seq<Rec>;
    SpreadOfChild(w, i, 0);
    if Mistaken(wc, rc) {
      es := MistakenList(wc, rc);
    } else {
      MistakenExactly(wc, rc);
      var e1 := MistakenElem(wc, rc);
      es := [e1];
      SingleIsMisread(wc, rc, e1);
      if !Repeats(wc) { ContentIsVisible(wc, e1); }
    }
    SparseIsMisread(w, r, i, k, es);
    SparseSize(w, i, es);
    e := Sparse(w, i, es);
  }

  // ------------------------------------------------- the roots

  // Two columns that are read and written alike: a long and a double are eight bytes.
  predicate Alike(w: Wire, r: Wire) {
    w == r || ((w == Quad || w == Pair) && (r == Quad || r == Pair))
  }

  /** The roots store the same.  Their attributes are never compared, since the texts of two
      roots always match. */
  predicate SameRoots(w: Tag, r: Tag) {
    var ws, rs := Columns(w.attrs), Columns(r.attrs);
    |ws| == |rs| && forall i :: 0 <= i < |ws| ==> Alike(ws[i], rs[i])
  }

  // Where value number i is read, if the columns before it are alike.
  lemma {:induction false} ReadPrefix(ws: seq<Wire>, vs: seq<Value>, rs: seq<Wire>, v0: seq<Value>, b: seq<byte>,
                                      p: nat, j: nat, i: nat) returns (q: nat)
    requires |ws| == |vs| == |rs| == |v0| && j <= i < |ws| && At(b, p, Joined(ValueParts(ws, vs), j))
    requires forall k :: 0 <= k < |ws| ==> v0[k] == BlankValue(rs[k])
    requires forall k :: j <= k < i ==> Alike(ws[k], rs[k]) && Fits(ws[k], vs[k])
    ensures At(b, q, EncodeValue(vs[i], ws[i]))
    ensures ReadValues(rs, b, p, v0, j).0[i - j] == ReadValue(rs[i], b, q, v0[i]).0
    decreases i - j
  {
    hide At, ReadValue, EncodeValue, Fits, Alike, BlankValue;
    var parts := ValueParts(ws, vs);
    AtConcat(b, p, parts[j], Joined(parts, j + 1));
    if j == i {
      q := p;
    } else {
      SameValue(ws[j], rs[j], vs[j]);
      ReadValueBack(rs[j], vs[j], b, p);
      q := ReadPrefix(ws, vs, rs, v0, b, p + |parts[j]|, j + 1, i);
    }
  }

  // A value that no column of another kind reads.
  lemma OddIsOdd(w: Wire, r: Wire, b: seq<byte>, q: nat)
    requires !Alike(w, r) && w != Literal && r != Literal && At(b, q, EncodeValue(Odd(w), w))
    ensures ReadValue(r, b, q, BlankValue(r)).0 != Odd(w)
  {
    Pow256Values();
    if w == Word && r != Chars { OneInFront(b, q); }
  }

  // Eight bytes that begin with the word 1.
  lemma OneInFront(b: seq<byte>, q: nat)
    requires At(b, q, U32(1))
    ensures ReadWord(b, q, 8).0 >= TWO32 && ReadWord(b, q, 4) == (1, q + 4)
  {
    hide BigEndian, FromBigEndian, Pow256;
    Pow256Values();
    AtInside(b, q, U32(1));
    ReadWordBack(b, q, 1, 4);
    if q + 8 <= |b| {
      assert b[q..q + 8] == b[q..q + 4] + b[q + 4..q + 8];
      BigEndianConcat(b[q..q + 4], b[q + 4..q + 8]);
      BigEndianRoundTrip(1, 4);
    }
  }

  lemma FirstUnlike(ws: seq<Wire>, rs: seq<Wire>) returns (i: nat)
    requires |ws| == |rs| && exists k :: 0 <= k < |ws| && !Alike(ws[k], rs[k])
    ensures i < |ws| && !Alike(ws[i], rs[i]) && forall k :: 0 <= k < i ==> Alike(ws[k], rs[k])
  {
    hide Alike;
    i := 0;
    while Alike(ws[i], rs[i])
      invariant i < |ws| && forall k :: 0 <= k < i ==> Alike(ws[k], rs[k])
      decreases |ws| - i
    {
      i := i + 1;
    }
  }

  // A blank element but for its value number i.
  function OddAt(m: Tag, i: nat): (e: Rec)
    requires i < |Columns(m.attrs)|
  {
    Rec(Blank(m).vals[i := Odd(Columns(m.attrs)[i])], Blank(m).lists)
  }

  lemma OddAtConforms(m: Tag, i: nat)
    requires i < |Columns(m.attrs)|
    ensures Conforms(m, OddAt(m, i)) && |EncodeElem(m, OddAt(m, i))| <= Flat(m)
    ensures Conforms(m, Blank(m))
  {
    hide Columns, EncodeValues, Framed;
    BlankSize(m);
    var ws, e := Columns(m.attrs), OddAt(m, i);
    assert ws[i] in ws && ws[i] != Literal;
    forall k | 0 <= k < |ws| ensures |EncodeValue(e.vals[k], ws[k])| <= 8 { OddValueIsShort(ws[k]); }
    ShortValues(ws, e.vals);
    FramedOne(Bodies(m, Blank(m)), 0, 0);
    assert Bodies(m, e) == Bodies(m, Blank(m));
  }

  lemma ParsedValues(g: Gene, m: Tag, b: seq<byte>, p: nat)
    requires GeneFits(g, m)
    ensures var vs := ParseElem(g, m, b, p, Blank(m)).0.vals;
            vs == ReadValues(Columns(m.attrs), b, p, Blank(m).vals, 0).0 && |vs| == |Columns(m.attrs)|
  {
  }

  /** Where the roots store different values, there is a record without any elements that is
      misread. */
  lemma RootMisread(w: Tag, r: Tag) returns (e: Rec)
    requires !SameRoots(w, r)
    ensures Conforms(w, e) && |EncodeElem(w, e)| <= Flat(w) && ElemMisread(w, r, e)
  {
    hide Columns, EncodeElem, ParseElem, Genes, GeneFits, At, Conforms, Alike, Odd, Flat;
    var ws, rs := Columns(w.attrs), Columns(r.attrs);
    if |ws| != |rs| {
      BlankSize(w);
      e := Blank(w);
      forall g, b, p: nat | GeneFits(g, r) && g.sequence == Genes(w, r) && |b| < TWO31 && At(b, p, EncodeElem(w, e))
        ensures ParseElem(g, r, b, p, Blank(r)).0 != Project(w, r, e)
      {
        ParsedValues(g, r, b, p);
      }
    } else {
      var i := FirstUnlike(ws, rs);
      OddAtConforms(w, i);
      e := OddAt(w, i);
      forall g, b, p: nat | GeneFits(g, r) && g.sequence == Genes(w, r) && |b| < TWO31 && At(b, p, EncodeElem(w, e))
        ensures ParseElem(g, r, b, p, Blank(r)).0 != Project(w, r, e)
      {
        UnlikeIsMisread(w, r, i, g, b, p);
      }
    }
  }

  lemma UnlikeIsMisread(w: Tag, r: Tag, i: nat, g: Gene, b: seq<byte>, p: nat)
    requires |Columns(w.attrs)| == |Columns(r.attrs)| && i < |Columns(w.attrs)| && Conforms(w, OddAt(w, i))
    requires !Alike(Columns(w.attrs)[i], Columns(r.attrs)[i])
    requires forall k :: 0 <= k < i ==> Alike(Columns(w.attrs)[k], Columns(r.attrs)[k])
    requires GeneFits(g, r) && At(b, p, EncodeElem(w, OddAt(w, i)))
    ensures ParseElem(g, r, b, p, Blank(r)).0 != Project(w, r, OddAt(w, i))
  {
    hide Columns, ParseElem, GeneFits, At, Alike, Odd, ReadValue, EncodeValue, Framed, Fits;
    var ws, rs, e := Columns(w.attrs), Columns(r.attrs), OddAt(w, i);
    ColumnsStored(w);
    ColumnsStored(r);
    assert ws[i] in ws && rs[i] in rs;
    AtConcat(b, p, EncodeValues(ws, e.vals), Framed(Bodies(w, e), 0));
    var q := ReadPrefix(ws, e.vals, rs, Blank(r).vals, b, p, 0, i);
    OddIsOdd(ws[i], rs[i], b, q);
    ParsedValues(g, r, b, p);
  }

  // ------------------------------------------------- whole records

  // Every record of w, wherever it stands, is decoded to its projection.
  ghost predicate AllProject(w: Tag, r: Tag)
    requires GeneFits(Genome(w, r), r)
  {
    forall e, b, p: nat {:trigger At(b, p, EncodeRecord(w, e))} ::
      Conforms(w, e) && |b| < TWO31 && At(b, p, EncodeRecord(w, e)) ==>
        ParseElem(Genome(w, r), r, b, p + 4, Blank(r)) == (Project(w, r, e), p + |EncodeRecord(w, e)|)
  }

  /** Schema evolution, exactly: all records of w are decoded to their projections to r if
      and only if the roots store the same and no tag of w is mistaken for a tag of r.  (The
      model of the file must not be so large that a nearly blank record exceeds the size of
      a record.) */
  lemma SchemaEvolutionExactly(w: Tag, r: Tag)
    requires InnerTags(w) && InnerTags(r) && DistinctSiblings(w) && DistinctSiblings(r) && LinksHaveContent(w)
    requires Spread(w) < TWO31 - 4
    ensures GeneFits(Genome(w, r), r)
    ensures AllProject(w, r) <==> SameRoots(w, r) && Unmistaken(w, r)
  {
    hide Columns, InnerTags, DistinctSiblings, LinksHaveContent, Unmistaken, SameRoots, AllProject, Genes, GeneFits,
         Spread;
    GenesFit(w, r, 0, "HDDM");
    if !SameRoots(w, r) {
      var e := RootMisread(w, r);
      FlatIsLess(w);
      Witness(w, r, e);
    } else if !Unmistaken(w, r) {
      var e := MistakenBelow(w, r);
      Witness(w, r, e);
    } else {
      AllAreProjected(w, r);
    }
  }

  lemma FlatIsLess(m: Tag)
    ensures Flat(m) <= Spread(m)
  {
  }

  // A misread element is a record that is not decoded to its projection.
  lemma Witness(w: Tag, r: Tag, e: Rec)
    requires GeneFits(Genome(w, r), r) && Conforms(w, e) && |EncodeElem(w, e)| < TWO31 - 4 && ElemMisread(w, r, e)
    ensures !AllProject(w, r)
  {
    hide Conforms, EncodeElem, At, Genes, GeneFits, ParseElem, Project;
    var b := EncodeRecord(w, e);
    AtSlice(b, 0, |b|);
    assert b[0..0 + |b|] == b;
    AtConcat(b, 0, U32(|EncodeElem(w, e)|), EncodeElem(w, e));
  }

  // The model w with the attributes of r's root; with the same columns this changes nothing.
  function Rooted(w: Tag, r: Tag): (m: Tag) {
    Tag(w.name, r.attrs, w.children)
  }

  lemma SameValues(ws: seq<Wire>, rs: seq<Wire>, vs: seq<Value>)
    requires |ws| == |rs| && forall i :: 0 <= i < |ws| ==> Alike(ws[i], rs[i])
    ensures FitsAll(ws, vs) <==> FitsAll(rs, vs)
    ensures FitsAll(ws, vs) ==> EncodeValues(ws, vs) == EncodeValues(rs, vs)
  {
    hide Fits, EncodeValue, Alike;
    forall i, v | 0 <= i < |ws| ensures Fits(ws[i], v) <==> Fits(rs[i], v) { SameValue(ws[i], rs[i], v); }
    if FitsAll(ws, vs) {
      forall i | 0 <= i < |ws| ensures EncodeValue(vs[i], ws[i]) == EncodeValue(vs[i], rs[i]) {
        SameValue(ws[i], rs[i], vs[i]);
      }
      assert ValueParts(ws, vs) == ValueParts(rs, vs);
    }
  }

  lemma SameValue(w: Wire, r: Wire, v: Value)
    requires Alike(w, r)
    ensures Fits(w, v) <==> Fits(r, v)
    ensures Fits(w, v) ==> EncodeValue(v, w) == EncodeValue(v, r)
  {
    hide BigEndian;
    if w != r && v.Num? && v.n < TWO64 { EightBytes(v.n); }
  }

  lemma RootedIsSame(w: Tag, r: Tag, e: Rec)
    requires SameRoots(w, r)
    ensures Conforms(w, e) <==> Conforms(Rooted(w, r), e)
    ensures Conforms(w, e) ==>
              && EncodeElem(w, e) == EncodeElem(Rooted(w, r), e)
              && Project(w, r, e) == Project(Rooted(w, r), r, e)
  {
    hide Columns, EncodeValues, Framed, ProjectList;
    SameValues(Columns(w.attrs), Columns(r.attrs), e.vals);
    var m := Rooted(w, r);
    if Conforms(w, e) {
      assert Bodies(w, e) == Bodies(m, e);
      forall k | 0 <= k < |r.children|
        ensures ProjectMember(w, r, e, k, |w.children|) == ProjectMember(m, r, e, k, |m.children|)
      {
        assert Partner(w, r, k) == Partner(m, r, k);
      }
    }
  }

  lemma RootedModel(w: Tag, r: Tag)
    requires SameRoots(w, r)
    ensures var m := Rooted(w, r);
            && Columns(m.attrs) == Columns(r.attrs) && Genes(m, r) == Genes(w, r) && Spread(m) == Spread(w)
            && (InnerTags(m) <==> InnerTags(w)) && (Unmistaken(m, r) <==> Unmistaken(w, r))
            && (DistinctSiblings(m) <==> DistinctSiblings(w)) && (LinksHaveContent(m) <==> LinksHaveContent(w))
  {
    hide Columns, InnerTag, SameTag, Mistaken, GeneFor, Repeats, HasContent;
    SameSpread(w, Rooted(w, r), 0);
  }

  lemma {:induction false} SameSpread(w: Tag, m: Tag, i: nat)
    requires w.children == m.children && i <= |w.children|
    ensures SpreadFrom(w, i) == SpreadFrom(m, i)
    decreases |w.children| - i
  {
    hide Flat, Spread;
    if i < |w.children| { SameSpread(w, m, i + 1); }
  }

  lemma AllAreProjected(w: Tag, r: Tag)
    requires SameRoots(w, r) && Unmistaken(w, r) && InnerTags(w) && InnerTags(r)
    requires DistinctSiblings(w) && DistinctSiblings(r) && LinksHaveContent(w) && GeneFits(Genome(w, r), r)
    ensures AllProject(w, r)
  {
    hide Columns, InnerTags, DistinctSiblings, LinksHaveContent, Unmistaken, Conforms, EncodeElem, At, Genes,
         GeneFits, Agree, ParseElem, Project, SameRoots;
    RootedModel(w, r);
    var m, g := Rooted(w, r), Genome(w, r);
    AgreeExactly(m, r);
    forall e, b, p: nat | Conforms(w, e) && |b| < TWO31 && At(b, p, EncodeRecord(w, e))
      ensures ParseElem(g, r, b, p + 4, Blank(r)) == (Project(w, r, e), p + |EncodeRecord(w, e)|)
    {
      RootedIsSame(w, r, e);
      AtConcat(b, p, U32(|EncodeElem(w, e)|), EncodeElem(w, e));
      ElemProjects(m, r, e, b, p + 4, g);
    }
  }

  lemma MistakenBelow(w: Tag, r: Tag) returns (e: Rec)
    requires !Unmistaken(w, r) && SameRoots(w, r) && InnerTags(w) && InnerTags(r)
    requires DistinctSiblings(w) && DistinctSiblings(r) && LinksHaveContent(w)
    ensures Conforms(w, e) && |EncodeElem(w, e)| <= Spread(w) && ElemMisread(w, r, e)
  {
    hide Columns, InnerTags, DistinctSiblings, LinksHaveContent, Unmistaken, Conforms, EncodeElem, At, Genes,
         GeneFits, ParseElem, Project, SameRoots, Spread;
    RootedModel(w, r);
    e := MistakenElem(Rooted(w, r), r);
    RootedIsSame(w, r, e);
  }

  // ------------------------------------------------- the C runtime

  lemma {:induction false} Unmoved(g: Gene, m: Tag, b: seq<byte>, p: nat, x: Rec, i: nat, k: nat)
    requires GeneFits(g, m) && Shaped(m, x) && i <= |g.sequence| && k < |m.children|
    requires forall j :: i <= j < |g.sequence| ==> g.sequence[j].order != k + 1
    ensures UnpackChildren(g, m, b, p, x, i).0.lists[k] == x.lists[k]
    decreases |g.sequence| - i
  {
    hide Columns, UnpackList, GeneFits;
    if i < |g.sequence| {
      var (size, q) := ReadWord(b, p, 4);
      OrderFits(g, m, i);
      UnpackStep(g, m, b, p, x, i, size, q);
      Unmoved(g, m, b, q + size, UnpackMember(g.sequence[i], m, b, size, q, x), i + 1, k);
    }
  }

  // The same for the C runtime: one block decides what its member is.
  lemma {:induction false} MemberUnpacked(g: Gene, m: Tag, b: seq<byte>, p: nat, x: Rec, bodies: seq<seq<byte>>,
                                          j: nat, i: nat, k: nat)
      returns (q: nat)
    requires GeneFits(g, m) && Shaped(m, x) && |bodies| == |g.sequence| && j <= i < |bodies| && k < |m.children|
    requires forall n :: 0 <= n < |bodies| ==> (g.sequence[n].order == k + 1 <==> n == i)
    requires |b| < TWO31 && At(b, p, Framed(bodies, j)) && bodies[i] != []
    ensures At(b, q, bodies[i]) && GeneFits(g.sequence[i], m.children[k])
    ensures UnpackChildren(g, m, b, p, x, j).0.lists[k] == UnpackList(g.sequence[i], m.children[k], b, q)
    decreases i - j
  {
    hide Columns, UnpackList, GeneFits, At, Framed, ReadWord;
    var n := |bodies[j]|;
    FrontBlock(b, p, bodies, j);
    OrderFits(g, m, j);
    UnpackStep(g, m, b, p, x, j, n, p + 4);
    var x' := UnpackMember(g.sequence[j], m, b, n, p + 4, x);
    if j == i {
      q := p + 4;
      Unmoved(g, m, b, q + n, x', i + 1, k);
    } else {
      q := MemberUnpacked(g, m, b, p + 4 + n, x', bodies, j + 1, i, k);
    }
  }

  ghost predicate CElemMisread(w: Tag, r: Tag, e: Rec)
    requires Conforms(w, e)
  {
    forall g, b, p: nat {:trigger GeneFits(g, r), At(b, p, EncodeElem(w, e))} ::
      GeneFits(g, r) && g.sequence == Genes(w, r) && |b| < TWO31 && At(b, p, EncodeElem(w, e)) ==>
        UnpackElem(g, r, b, p).0 != Project(w, r, e)
  }

  ghost predicate CListMisread(w: Tag, r: Tag, es: seq<Rec>)
    requires ConformsList(w, es)
  {
    forall g, b, p: nat {:trigger GeneFits(g, r), At(b, p, EncodeList(w, es))} ::
      GeneFits(g, r) && g.sequence == Genes(w, r) && |b| < TWO31 && At(b, p, EncodeList(w, es)) ==>
        UnpackList(g, r, b, p) != ProjectList(w, r, es)
  }

  lemma CSparseIsMisread(w: Tag, r: Tag, i: nat, k: nat, es: seq<Rec>)
    requires Paired(w, r, i, k) && Agree(w, r) && DistinctSiblings(w) && DistinctSiblings(r) && LinksHaveContent(w)
    requires ConformsList(w.children[i], es) && EncodeList(w.children[i], es) != []
    requires CListMisread(w.children[i], r.children[k], es)
    ensures Conforms(w, Sparse(w, i, es)) && CElemMisread(w, r, Sparse(w, i, es))
  {
    hide At, Columns, UnpackElem, UnpackList, UnpackChildren, Conforms, ConformsList, Genes, GeneFits, Matched,
         EncodeList, EncodeElem, Framed, DistinctSiblings, ProjectList, Partner, Agree, LinksHaveContent;
    var e, wc, rc := Sparse(w, i, es), w.children[i], r.children[k];
    SparseConforms(w, i, es);
    PairedCodons(w, r, i, k);
    ProjectedMember(w, r, i, k, es);
    forall g, b, p: nat | GeneFits(g, r) && g.sequence == Genes(w, r) && |b| < TWO31 && At(b, p, EncodeElem(w, e))
      ensures UnpackElem(g, r, b, p).0 != Project(w, r, e)
    {
      CElemStart(w, r, e, b, p, g);
      var x := Rec(e.vals, Blank(r).lists);
      var q0 := p + |EncodeValues(Columns(w.attrs), e.vals)|;
      var q := MemberUnpacked(g, r, b, q0, x, Bodies(w, e), 0, i, k);
      assert GeneFits(g.sequence[i], rc) && At(b, q, EncodeList(wc, es));
    }
  }

  lemma CSingleIsMisread(w: Tag, r: Tag, e: Rec)
    requires Conforms(w, e) && CElemMisread(w, r, e) && Repeats(w) == Repeats(r)
    ensures ConformsList(w, [e]) && CListMisread(w, r, [e])
    ensures EncodeList(w, [e]) == (if Repeats(w) then U32(1) else []) + EncodeElem(w, e)
  {
    hide Columns, Repeats, EncodeElem, UnpackElem, Genes, GeneFits, At, Conforms, Project;
    var es := [e];
    assert Joined(ElemParts(w, es), 0) == EncodeElem(w, e) + Joined(ElemParts(w, es), 1);
    assert EncodeList(w, es) == (if Repeats(w) then U32(1) else []) + EncodeElem(w, e);
    forall g, b, p: nat | GeneFits(g, r) && g.sequence == Genes(w, r) && |b| < TWO31 && At(b, p, EncodeList(w, es))
      ensures UnpackList(g, r, b, p) != ProjectList(w, r, es)
    {
      if Repeats(w) {
        AtConcat(b, p, U32(1), EncodeElem(w, e));
        ReadIntBack(b, p, 1);
      }
      var q := if Repeats(w) then p + 4 else p;
      assert At(b, q, EncodeElem(w, e));
      assert UnpackList(g, r, b, p)[0] == UnpackElem(g, r, b, q).0 != Project(w, r, e);
      assert ProjectList(w, r, es)[0] == Project(w, r, e);
    }
  }

  lemma UnfollowedList(w: Tag, r: Tag) returns (es: seq<Rec>)
    requires Columns(w.attrs) == Columns(r.attrs) && Repeats(w) && Repeats(r) && !Followed(w, r)
    ensures ConformsList(w, es) && EncodeList(w, es) != [] && |EncodeList(w, es)| <= 4 + 2 * Flat(w)
    ensures CListMisread(w, r, es)
  {
    hide Columns, Repeats, GeneFits, Genes, EncodeElem, At, Conforms, Flat, ProjectList, UnpackList, Followed;
    BlankConforms(w);
    OddConforms(w);
    es := [Blank(w), OddElem(w)];
    BlankSize(w);
    OddSize(w);
    TwoParts(ElemParts(w, es));
    forall g, b, p: nat | GeneFits(g, r) && g.sequence == Genes(w, r) && |b| < TWO31 && At(b, p, EncodeList(w, es))
      ensures UnpackList(g, r, b, p) != ProjectList(w, r, es)
    {
      UnfollowedMisreads(w, r, g, b, p);
    }
  }

  lemma OddSize(m: Tag)
    ensures Conforms(m, OddElem(m)) && |EncodeElem(m, OddElem(m))| <= Flat(m)
  {
    hide Columns, EncodeValues, Framed, Conforms;
    BlankConforms(m);
    OddConforms(m);
    BlankSize(m);
    var ws, e := Columns(m.attrs), OddElem(m);
    OddIsShort(m);
    ShortValues(ws, e.vals);
    FramedOne(Bodies(m, Blank(m)), 0, 0);
    assert Bodies(m, e) == Bodies(m, Blank(m));
  }

  lemma OddIsShort(m: Tag)
    ensures var ws, vs := Columns(m.attrs), OddElem(m).vals;
            |vs| == |ws| && forall i :: 0 <= i < |ws| ==> |EncodeValue(vs[i], ws[i])| <= 8
  {
    hide Columns;
    var ws, vs := Columns(m.attrs), OddElem(m).vals;
    forall i | 0 <= i < |ws| ensures |EncodeValue(vs[i], ws[i])| <= 8 { OddValueIsShort(ws[i]); }
  }

  lemma OddValueIsShort(w: Wire)
    ensures |EncodeValue(Odd(w), w)| <= 8 && |EncodeValue(BlankValue(w), w)| <= 8
  {
  }

  // A tag that the reader does not follow, or that has one below it.
  lemma FirstUnfollowed(w: Tag, r: Tag) returns (i: nat, k: nat)
    requires !AllFollowed(w, r) && Agree(w, r) && DistinctSiblings(w) && DistinctSiblings(r) && LinksHaveContent(w)
    ensures Paired(w, r, i, k) && Agree(w.children[i], r.children[k])
    ensures Repeats(w.children[i]) == Repeats(r.children[k])
    ensures !Followed(w.children[i], r.children[k]) || !AllFollowed(w.children[i], r.children[k])
    ensures DistinctSiblings(w.children[i]) && DistinctSiblings(r.children[k]) && LinksHaveContent(w.children[i])
    ensures Repeats(w.children[i]) || HasContent(w.children[i])
  {
    hide Matched, Repeats, Followed, Columns, HasContent;
    i :| 0 <= i < |w.children| && FirstNamed(r.children, w.children[i].name) < |r.children|
         && Matched(w.children[i], r.children[FirstNamed(r.children, w.children[i].name)])
         && (|| !Followed(w.children[i], r.children[FirstNamed(r.children, w.children[i].name)])
             || !AllFollowed(w.children[i], r.children[FirstNamed(r.children, w.children[i].name)]));
    k := FirstNamed(r.children, w.children[i].name);
  }

  lemma {:induction false} UnfollowedElem(w: Tag, r: Tag) returns (e: Rec)
    requires !AllFollowed(w, r) && Agree(w, r) && DistinctSiblings(w) && DistinctSiblings(r) && LinksHaveContent(w)
    ensures Conforms(w, e) && |EncodeElem(w, e)| <= Spread(w) && CElemMisread(w, r, e)
    decreases w
  {
    hide Columns, DistinctSiblings, LinksHaveContent, Matched, Agree, AllFollowed, Conforms, EncodeElem, CElemMisread,
         CListMisread, Flat, EncodeList, Repeats, HasContent;
    var i, k := FirstUnfollowed(w, r);
    var wc, rc := w.children[i], r.children[k];
    var es: seq<Rec>;
    SpreadOfChild(w, i, 0);
    SameNames(wc, rc);
    if !Followed(wc, rc) {
      es := UnfollowedList(wc, rc);
    } else {
      var e1 := UnfollowedElem(wc, rc);
      es := [e1];
      CSingleIsMisread(wc, rc, e1);
      if !Repeats(wc) { ContentIsVisible(wc, e1); }
    }
    CSparseIsMisread(w, r, i, k, es);
    SparseSize(w, i, es);
    e := Sparse(w, i, es);
  }

  ghost predicate AllUnpack(w: Tag, r: Tag)
    requires GeneFits(Genome(w, r), r)
  {
    forall e, b, p: nat {:trigger At(b, p, EncodeRecord(w, e))} ::
      Conforms(w, e) && |b| < TWO31 && At(b, p, EncodeRecord(w, e)) ==>
        UnpackElem(Genome(w, r), r, b, p + 4).0 == Project(w, r, e)
  }

  /** The C runtime, exactly: all records of w are unpacked to their projections to r if and
      only if everywhere it passes over what the file has below the elements of a list. */
  lemma UnpackingExactly(w: Tag, r: Tag)
    requires TextsAgree(w, r) && DistinctSiblings(w) && DistinctSiblings(r) && LinksHaveContent(w)
    requires Spread(w) < TWO31 - 4
    ensures GeneFits(Genome(w, r), r)
    ensures AllUnpack(w, r) <==> AllFollowed(w, r)
  {
    hide Columns, InnerTags, DistinctSiblings, LinksHaveContent, Unmistaken, Conforms, EncodeElem, Spread, At, Genes,
         GeneFits, Agree, UnpackElem, Project, AllFollowed;
    GenesFit(w, r, 0, "HDDM");
    AgreeExactly(w, r);
    var g := Genome(w, r);
    if AllFollowed(w, r) {
      forall e, b, p: nat | Conforms(w, e) && |b| < TWO31 && At(b, p, EncodeRecord(w, e))
        ensures UnpackElem(g, r, b, p + 4).0 == Project(w, r, e)
      {
        AtConcat(b, p, U32(|EncodeElem(w, e)|), EncodeElem(w, e));
        CElemProjects(w, r, e, b, p + 4, g);
      }
    } else {
      var e := UnfollowedElem(w, r);
      var b := EncodeRecord(w, e);
      AtSlice(b, 0, |b|);
      assert b[0..0 + |b|] == b;
      AtConcat(b, 0, U32(|EncodeElem(w, e)|), EncodeElem(w, e));
    }
  }
}
