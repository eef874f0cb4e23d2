/** What the text of a model says about the bytes, said of the attribute values themselves:
    which types take which bytes, what a maxOccurs counts as, and how an element is put
    together.  Nothing here is defined by the functions of module Model. */
module Layout {
  import opened Xdr
  import opened Model

  // ------------------------------------------------- the types of attributes

  // A tag without children and with one attribute, and an element of it.
  function Single(tag: string, name: string, value: string): (m: Tag) {
    Tag(tag, [Attr(name, value)], [])
  }

  lemma ColumnOf(tag: string, name: string, value: string)
    ensures Columns(Single(tag, name, value).attrs) == if WireOf(value) == Literal then [] else [WireOf(value)]
  {
    assert Single(tag, name, value).attrs[1..] == [];
  }

  lemma EncodeSingle(m: Tag, w: Wire, v: Value)
    requires m.children == [] && Columns(m.attrs) == [w] && Fits(w, v)
    ensures Conforms(m, Rec([v], [])) && EncodeElem(m, Rec([v], [])) == EncodeValue(v, w)
  {
    hide BigEndian;
    var parts := ValueParts([w], [v]);
    OnePart(parts);
    assert Framed(Bodies(m, Rec([v], [])), 0) == [];
    assert EncodeValue(v, w) + [] == EncodeValue(v, w);
  }

  /** An int, a float, a boolean or a particle type is four bytes, the first one the most
      significant. */
  lemma WordTypes(tag: string, name: string, t: string, n: nat)
    requires t in {"int", "float", "boolean", "Particle_t"} && n < 0x1_0000_0000
    ensures var m, e := Single(tag, name, t), Rec([Num(n)], []);
            Conforms(m, e) && EncodeElem(m, e) == Four(n)
  {
    hide BigEndian, Conforms, EncodeElem;
    ColumnOf(tag, name, t);
    EncodeSingle(Single(tag, name, t), Word, Num(n));
    FourIsWord(n);
  }

  /** A long or a double is eight bytes. */
  lemma LongTypes(tag: string, name: string, t: string, n: nat)
    requires t in {"long", "double"} && n < 0x1_0000_0000_0000_0000
    ensures var m, e := Single(tag, name, t), Rec([Num(n)], []);
            Conforms(m, e) && EncodeElem(m, e) == Four(n / 0x1_0000_0000) + Four(n % 0x1_0000_0000)
  {
    hide BigEndian, Conforms, EncodeElem;
    ColumnOf(tag, name, t);
    EncodeSingle(Single(tag, name, t), WireOf(t), Num(n));
    FourTwice(n);
    FourIsWord(n / 0x1_0000_0000);
    FourIsWord(n % 0x1_0000_0000);
  }

  /** A string or a URI is its length, its characters, and zeros up to a multiple of four. */
  lemma TextTypes(tag: string, name: string, t: string, s: seq<byte>)
    requires t in {"string", "anyURI"} && |s| < 0x1_0000_0000
    ensures var m, e := Single(tag, name, t), Rec([Text(s)], []);
            && Conforms(m, e)
            && var b := EncodeElem(m, e);
               && |b| == 4 + (|s| + 3) / 4 * 4 && b[..4] == Four(|s|) && b[4..4 + |s|] == s
               && forall i :: 4 + |s| <= i < |b| ==> b[i] == 0
  {
    hide BigEndian, Conforms, EncodeElem;
    ColumnOf(tag, name, t);
    EncodeSingle(Single(tag, name, t), Chars, Text(s));
    TextMeans(s);
    FourIsWord(|s|);
  }

  /** Any other value is no type, and nothing is stored. */
  lemma OtherValues(tag: string, name: string, t: string)
    requires t !in {"int", "float", "boolean", "Particle_t", "long", "double", "string", "anyURI"}
    ensures var m, e := Single(tag, name, t), Rec([], []);
            Conforms(m, e) && EncodeElem(m, e) == []
  {
    ColumnOf(tag, name, t);
  }

  // ------------------------------------------------- attributes, and then children

  lemma {:induction false} ColumnsJoin(a: seq<Attr>, b: seq<Attr>)
    ensures Columns(a + b) == Columns(a) + Columns(b)
  {
    hide WireOf;
    if a == [] {
      assert a + b == b;
    } else {
      assert (a + b)[1..] == a[1..] + b;
      ColumnsJoin(a[1..], b);
    }
  }

  lemma {:induction false} JoinedBoth(xs: seq<seq<byte>>, ys: seq<seq<byte>>, i: nat)
    requires i <= |xs|
    ensures Joined(xs + ys, i) == Joined(xs, i) + Joined(ys, 0)
    decreases |xs| - i
  {
    if i < |xs| {
      JoinedBoth(xs, ys, i + 1);
    } else {
      JoinedShift(xs, ys, 0);
    }
  }

  lemma {:induction false} JoinedShift(xs: seq<seq<byte>>, ys: seq<seq<byte>>, i: nat)
    requires i <= |ys|
    ensures Joined(xs + ys, |xs| + i) == Joined(ys, i)
    decreases |ys| - i
  {
    if i < |ys| { JoinedShift(xs, ys, i + 1); }
  }

  /** Attributes stand one behind the other, in document order. */
  lemma AttributesJoin(tag: string, a: seq<Attr>, b: seq<Attr>, vs: seq<Value>, us: seq<Value>)
    requires Conforms(Tag(tag, a, []), Rec(vs, [])) && Conforms(Tag(tag, b, []), Rec(us, []))
    ensures Conforms(Tag(tag, a + b, []), Rec(vs + us, []))
    ensures EncodeElem(Tag(tag, a + b, []), Rec(vs + us, []))
            == EncodeElem(Tag(tag, a, []), Rec(vs, [])) + EncodeElem(Tag(tag, b, []), Rec(us, []))
  {
    hide Columns, EncodeValue, Fits;
    ColumnsJoin(a, b);
    var ws, xs := Columns(a), Columns(b);
    assert ValueParts(ws + xs, vs + us) == ValueParts(ws, vs) + ValueParts(xs, us);
    JoinedBoth(ValueParts(ws, vs), ValueParts(xs, us), 0);
  }

  /** The elements of one tag, one behind the other. */
  function Elements(m: Tag, es: seq<Rec>): (b: seq<byte>)
    requires forall j :: 0 <= j < |es| ==> Conforms(m, es[j])
  {
    if es == [] then [] else EncodeElem(m, es[0]) + Elements(m, es[1..])
  }

  lemma {:induction false} ElementsJoined(m: Tag, es: seq<Rec>, j: nat)
    requires j <= |es| && forall i :: 0 <= i < |es| ==> Conforms(m, es[i])
    ensures Elements(m, es[j..]) == Joined(ElemParts(m, es), j)
    decreases |es| - j
  {
    hide EncodeElem, Conforms;
    if j < |es| {
      assert es[j..][0] == es[j] && es[j..][1..] == es[j + 1..];
      ElementsJoined(m, es, j + 1);
    }
  }

  lemma StillConforms(m: Tag, e: Rec, k: Tag, es: seq<Rec>)
    requires Conforms(m, e) && ConformsList(k, es)
    ensures Conforms(m.(children := m.children + [k]), Rec(e.vals, e.lists + [es]))
  {
    hide Columns, FitsAll, ConformsList;
    var m', e' := m.(children := m.children + [k]), Rec(e.vals, e.lists + [es]);
    forall i | 0 <= i < |m'.children| ensures ConformsList(m'.children[i], e'.lists[i]) {
      if i < |m.children| { assert m'.children[i] == m.children[i] && e'.lists[i] == e.lists[i]; }
    }
  }

  lemma OneBodyMore(m: Tag, e: Rec, k: Tag, es: seq<Rec>)
    requires Conforms(m, e) && ConformsList(k, es)
    requires Conforms(m.(children := m.children + [k]), Rec(e.vals, e.lists + [es]))
    ensures Bodies(m.(children := m.children + [k]), Rec(e.vals, e.lists + [es])) == Bodies(m, e) + [EncodeList(k, es)]
  {
    hide Columns, FitsAll, ConformsList, EncodeList;
  }

  // One more child adds one more block at the end.
  lemma BodiesSnoc(m: Tag, e: Rec, k: Tag, es: seq<Rec>)
    requires Conforms(m, e) && ConformsList(k, es)
    ensures var m', e' := m.(children := m.children + [k]), Rec(e.vals, e.lists + [es]);
            Conforms(m', e') && EncodeElem(m', e') == EncodeElem(m, e) + Block(EncodeList(k, es))
  {
    hide Columns, EncodeValues, EncodeList, Block, Bodies, Framed, ConformsList, Fits;
    StillConforms(m, e, k, es);
    OneBodyMore(m, e, k, es);
    FramedSnoc(Bodies(m, e), EncodeList(k, es), 0);
    var head, rest, last := EncodeValues(Columns(m.attrs), e.vals), Framed(Bodies(m, e), 0), Block(EncodeList(k, es));
    assert head + (rest + last) == (head + rest) + last;
  }

  /** Behind the attributes and the children before it, every child tag has a length and so
      many bytes: none if it does not occur, its count and its elements if it repeats, and
      its element otherwise. */
  lemma ChildrenFollow(m: Tag, e: Rec, k: Tag, es: seq<Rec>)
    requires Conforms(m, e) && ConformsList(k, es)
    ensures var m', e' := m.(children := m.children + [k]), Rec(e.vals, e.lists + [es]);
            && Conforms(m', e')
            && var b, more := EncodeElem(m, e), Elements(k, es);
               EncodeElem(m', e')
               == if es == [] then b + Four(0)
                  else if Repeats(k) then b + (Four(4 + |more|) + (Four(|es|) + more))
                  else b + (Four(|more|) + more)
  {
    hide Conforms, ConformsList, Columns, EncodeElem, BigEndian, Repeats;
    BodiesSnoc(m, e, k, es);
    ListIsElements(k, es);
    var more := Elements(k, es);
    FourIsWord(0);
    FourIsWord(4 + |more|);
    FourIsWord(|es|);
    FourIsWord(|more|);
    assert Four(0) + [] == Four(0);
  }

  lemma ListIsElements(k: Tag, es: seq<Rec>)
    requires ConformsList(k, es)
    ensures forall j :: 0 <= j < |es| ==> Conforms(k, es[j])
    ensures EncodeList(k, es)
            == if es == [] then [] else if Repeats(k) then U32(|es|) + Elements(k, es) else Elements(k, es)
  {
    hide Conforms, EncodeElem, BigEndian, Repeats;
    ElementsJoined(k, es, 0);
    assert es[0..] == es;
    if |es| == 1 { assert es[1..] == []; }
  }

  /** A record is its length and its root element. */
  lemma RecordIsBlock(m: Tag, e: Rec)
    requires Conforms(m, e)
    ensures EncodeRecord(m, e) == Four(|EncodeElem(m, e)|) + EncodeElem(m, e)
  {
    FourIsWord(|EncodeElem(m, e)|);
  }

  // ------------------------------------------------- what a maxOccurs counts as

  const FIGURES := "0123456789"

  // A number as it is written.
  function Numeral(k: nat): (s: string)
    ensures s != ""
  {
    if k < 10 then [FIGURES[k]] else Numeral(k / 10) + [FIGURES[k % 10]]
  }

  lemma FigureIsDigit(d: nat)
    requires d < 10
    ensures IsDigit(FIGURES[d]) && FIGURES[d] as int - '0' as int == d
  {
  }

  predicate AllDigits(s: string) {
    forall i :: 0 <= i < |s| ==> IsDigit(s[i])
  }

  lemma {:induction false} DigitsConcat(a: string, b: string, v: nat)
    requires AllDigits(a)
    ensures Digits(a + b, v) == Digits(b, Digits(a, v))
    decreases |a|
  {
    if a == "" {
      assert a + b == b;
    } else {
      assert (a + b)[1..] == a[1..] + b;
      DigitsConcat(a[1..], b, 10 * v + (a[0] as int - '0' as int));
    }
  }

  lemma {:induction false} NumeralDigits(k: nat)
    ensures AllDigits(Numeral(k)) && Digits(Numeral(k), 0) == k
  {
    if k < 10 {
      FigureIsDigit(k);
      assert Numeral(k)[1..] == "";
    } else {
      var front, d := Numeral(k / 10), k % 10;
      FigureIsDigit(d);
      NumeralDigits(k / 10);
      DigitsConcat(front, [FIGURES[d]], 0);
      assert [FIGURES[d]][1..] == "";
      assert Digits([FIGURES[d]], k / 10) == Digits("", 10 * (k / 10) + d);
    }
  }

  lemma NumeralIsNumber(k: nat)
    ensures Atoi(Numeral(k)) == k && Numeral(k) != "unbounded" && Numeral(k) != ""
  {
    hide Numeral, Digits;
    NumeralDigits(k);
    assert IsDigit(Numeral(k)[0]) && !IsDigit("unbounded"[0]);
  }

  // The first attribute called maxOccurs has this value.
  predicate Says(m: Tag, v: string) {
    exists i :: 0 <= i < |m.attrs| && m.attrs[i] == Attr("maxOccurs", v)
                && forall j :: 0 <= j < i ==> m.attrs[j].name != "maxOccurs"
  }

  predicate SaysNothing(m: Tag) {
    forall i :: 0 <= i < |m.attrs| ==> m.attrs[i].name != "maxOccurs"
  }

  lemma {:induction false} FirstValue(attrs: seq<Attr>, name: string, i: nat)
    requires i <= |attrs| && forall j :: 0 <= j < i ==> attrs[j].name != name
    requires i < |attrs| ==> attrs[i].name == name
    ensures AttrValue(attrs, name) == if i < |attrs| then attrs[i].value else ""
    decreases i
  {
    if i > 0 { FirstValue(attrs[1..], name, i - 1); }
  }

  lemma ValueSaid(m: Tag, v: string)
    ensures Says(m, v) ==> AttrValue(m.attrs, "maxOccurs") == v
    ensures SaysNothing(m) ==> AttrValue(m.attrs, "maxOccurs") == ""
  {
    if Says(m, v) {
      var i :| 0 <= i < |m.attrs| && m.attrs[i] == Attr("maxOccurs", v)
               && forall j :: 0 <= j < i ==> m.attrs[j].name != "maxOccurs";
      FirstValue(m.attrs, "maxOccurs", i);
    }
    if SaysNothing(m) { FirstValue(m.attrs, "maxOccurs", |m.attrs|); }
  }

  /** A tag is a list if its maxOccurs is unbounded or a number above one, and a link if it
      is a smaller number or missing. */
  lemma RepeatsMeans(m: Tag)
    ensures SaysNothing(m) ==> !Repeats(m)
    ensures Says(m, "unbounded") ==> Repeats(m)
    ensures forall k :: Says(m, Numeral(k)) ==> (Repeats(m) <==> k > 1)
  {
    hide Numeral, Says, SaysNothing;
    ValueSaid(m, "unbounded");
    assert Atoi("") == 0;
    forall k | Says(m, Numeral(k)) ensures Repeats(m) <==> k > 1 {
      ValueSaid(m, Numeral(k));
      NumeralIsNumber(k);
    }
  }
}
