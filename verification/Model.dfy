/** The data model: the tree of xml tags that a file header and a generated reader
    carry, and the records that conform to it. */
module Model {
  import opened Xdr

  datatype Attr = Attr(name: string, value: string)

  datatype Tag = Tag(name: string, attrs: seq<Attr>, children: seq<Tag>)

  // How an attribute is stored; an attribute whose value is no type name is a literal.
  datatype Wire = Literal | Word | Quad | Pair | Chars

  function WireOf(value: string): (w: Wire) {
    if value == "int" || value == "float" || value == "boolean" || value == "Particle_t" then Word
    else if value == "long" then Quad
    else if value == "double" then Pair
    else if value == "string" || value == "anyURI" then Chars
    else Literal
  }

  // The stored attributes of a tag, in document order.
  function Columns(attrs: seq<Attr>): (ws: seq<Wire>)
    ensures forall w :: w in ws ==> w != Literal
  {
    if attrs == [] then []
    else (if WireOf(attrs[0].value) == Literal then [] else [WireOf(attrs[0].value)]) + Columns(attrs[1..])
  }

  function AttrValue(attrs: seq<Attr>, name: string): (v: string) {
    if attrs == [] then "" else if attrs[0].name == name then attrs[0].value else AttrValue(attrs[1..], name)
  }

  predicate IsDigit(c: char) { '0' <= c <= '9' }

  predicate IsSpace(c: char) { c == ' ' || c == '\t' || c == '\n' || c == '\r' }

  // atoi of the C library: leading blanks, a sign, then as many digits as there are.
  function Atoi(s: string): (v: int) {
    if s == "" then 0
    else if IsSpace(s[0]) then Atoi(s[1..])
    else if s[0] == '-' then -(Digits(s[1..], 0) as int)
    else if s[0] == '+' then Digits(s[1..], 0)
    else Digits(s, 0)
  }

  function Digits(s: string, v: nat): (r: nat) {
    if s == "" || !IsDigit(s[0]) then v else Digits(s[1..], 10 * v + (s[0] as int - '0' as int))
  }

  // Does the tag become a list (true) or a link (false)?
  predicate Repeats(m: Tag) {
    var rep := AttrValue(m.attrs, "maxOccurs");
    rep == "unbounded" || Atoi(rep) > 1
  }

  datatype Value = Num(n: nat) | Text(s: seq<byte>)

  predicate Fits(w: Wire, v: Value) {
    match w
    case Word => v.Num? && v.n < TWO32
    case Quad => v.Num? && v.n < TWO64
    case Pair => v.Num? && v.n < TWO64
    case Chars => v.Text? && |v.s| < TWO32
    case Literal => false
  }

  predicate FitsAll(ws: seq<Wire>, vs: seq<Value>) {
    |ws| == |vs| && forall i :: 0 <= i < |ws| ==> Fits(ws[i], vs[i])
  }

  /** One element: its stored attributes, and for each child tag the elements it holds
      in the list or link member for that tag. */
  datatype Rec = Rec(vals: seq<Value>, lists: seq<seq<Rec>>)

  predicate Conforms(m: Tag, r: Rec)
    decreases m, 0
  {
    && FitsAll(Columns(m.attrs), r.vals)
    && |r.lists| == |m.children|
    && (forall i :: 0 <= i < |m.children| ==> ConformsList(m.children[i], r.lists[i]))
  }

  predicate ConformsList(m: Tag, es: seq<Rec>)
    decreases m, 1
  {
    && |es| < TWO31
    && (!Repeats(m) ==> |es| <= 1)
    && (forall j :: 0 <= j < |es| ==> Conforms(m, es[j]))
  }

  function BlankValue(w: Wire): (v: Value)
    ensures w != Literal ==> Fits(w, v)
  {
    if w == Chars then Text([]) else Num(0)
  }

  // A freshly constructed element.
  function Blank(m: Tag): (r: Rec)
    ensures |r.vals| == |Columns(m.attrs)| && |r.lists| == |m.children|
  {
    var ws := Columns(m.attrs);
    Rec(seq(|ws|, i requires 0 <= i < |ws| => BlankValue(ws[i])), seq(|m.children|, _ => []))
  }

  // The position of the first tag with this name, or |ms| if there is none.
  function FirstNamed(ms: seq<Tag>, name: string): (k: nat)
    ensures k <= |ms|
    ensures k < |ms| ==> ms[k].name == name
    ensures forall i :: 0 <= i < k ==> ms[i].name != name
  {
    if ms == [] then 0 else if ms[0].name == name then 0 else 1 + FirstNamed(ms[1..], name)
  }

  // No tag has two children of the same name.
  predicate DistinctSiblings(m: Tag) {
    && (forall i, j :: 0 <= i < j < |m.children| ==> m.children[i].name != m.children[j].name)
    && (forall i :: 0 <= i < |m.children| ==> DistinctSiblings(m.children[i]))
  }

  // Every tag that does not repeat stores something: an attribute or a child's length.
  predicate LinksHaveContent(m: Tag) {
    forall i :: 0 <= i < |m.children| ==>
      && (Repeats(m.children[i]) || HasContent(m.children[i]))
      && LinksHaveContent(m.children[i])
  }

  predicate HasContent(m: Tag) {
    Columns(m.attrs) != [] || m.children != []
  }

  // ---------------------------------------------------------------- encoding

  function EncodeValue(v: Value, w: Wire): (b: seq<byte>)
  {
    match v
    case Num(n) =>
      if w == Quad then U64(n)
      else if w == Pair then U32(n / TWO32) + U32(n % TWO32)
      else U32(n)
    case Text(s) => Padded(s)
  }

  function EncodeValues(ws: seq<Wire>, vs: seq<Value>): (b: seq<byte>)
    requires |ws| == |vs|
  {
    Joined(ValueParts(ws, vs), 0)
  }

  function ValueParts(ws: seq<Wire>, vs: seq<Value>): (parts: seq<seq<byte>>)
    requires |ws| == |vs|
    ensures |parts| == |ws|
  {
    seq(|ws|, i requires 0 <= i < |ws| => EncodeValue(vs[i], ws[i]))
  }

  // The parts from number i on, one after the other.
  function Joined(parts: seq<seq<byte>>, i: nat): (b: seq<byte>)
    requires i <= |parts|
    decreases |parts| - i
  {
    if i == |parts| then [] else parts[i] + Joined(parts, i + 1)
  }

  // A length-prefixed byte block.
  function Block(body: seq<byte>): (b: seq<byte>)
    ensures |b| == 4 + |body|
  {
    U32(|body|) + body
  }

  // The bodies from number i on, each behind its length.
  function Framed(bodies: seq<seq<byte>>, i: nat): (b: seq<byte>)
    requires i <= |bodies|
    decreases |bodies| - i
  {
    if i == |bodies| then [] else Block(bodies[i]) + Framed(bodies, i + 1)
  }

  lemma {:induction false} FramedSnoc(bodies: seq<seq<byte>>, body: seq<byte>, i: nat)
    requires i <= |bodies|
    ensures Framed(bodies + [body], i) == Framed(bodies, i) + Block(body)
    decreases |bodies| - i
  {
    if i < |bodies| {
      FramedSnoc(bodies, body, i + 1);
    } else {
      assert Framed(bodies + [body], i) == Block(body) + Framed(bodies + [body], i + 1);
      assert Block(body) + [] == Block(body) && [] + Block(body) == Block(body);
    }
  }

  lemma OnePart(parts: seq<seq<byte>>)
    requires |parts| == 1
    ensures Joined(parts, 0) == parts[0]
  {
    assert Joined(parts, 0) == parts[0] + Joined(parts, 1);
  }

  lemma TwoParts(parts: seq<seq<byte>>)
    requires |parts| == 2
    ensures Joined(parts, 0) == parts[0] + parts[1]
  {
    assert Joined(parts, 1) == parts[1] + Joined(parts, 2);
  }

  lemma {:induction false} JoinedSnoc(parts: seq<seq<byte>>, x: seq<byte>, i: nat)
    requires i <= |parts|
    ensures Joined(parts + [x], i) == Joined(parts, i) + x
    decreases |parts| - i
  {
    if i < |parts| {
      JoinedSnoc(parts, x, i + 1);
    } else {
      assert Joined(parts + [x], i) == x + Joined(parts + [x], i + 1);
    }
  }

  // The bytes of one element, without a length in front.
  function EncodeElem(m: Tag, r: Rec): (b: seq<byte>)
    requires Conforms(m, r)
    decreases m, 1
  {
    EncodeValues(Columns(m.attrs), r.vals) + Framed(Bodies(m, r), 0)
  }

  function Bodies(m: Tag, r: Rec): (bodies: seq<seq<byte>>)
    requires Conforms(m, r)
    ensures |bodies| == |m.children|
    decreases m, 0
  {
    seq(|m.children|, i requires 0 <= i < |m.children| => EncodeList(m.children[i], r.lists[i]))
  }

  // The bytes of a list or link member.
  function EncodeList(m: Tag, es: seq<Rec>): (b: seq<byte>)
    requires ConformsList(m, es)
    decreases m, 3
  {
    if es == [] then []
    else if Repeats(m) then U32(|es|) + Joined(ElemParts(m, es), 0)
    else EncodeElem(m, es[0])
  }

  function ElemParts(m: Tag, es: seq<Rec>): (parts: seq<seq<byte>>)
    requires forall j :: 0 <= j < |es| ==> Conforms(m, es[j])
    ensures |parts| == |es|
    decreases m, 2
  {
    seq(|es|, j requires 0 <= j < |es| => EncodeElem(m, es[j]))
  }

  // A whole record, as ostream::operator<< leaves it in the event buffer.
  function EncodeRecord(m: Tag, r: Rec): (b: seq<byte>)
    requires Conforms(m, r)
  {
    Block(EncodeElem(m, r))
  }

  // Everything is made of four-byte units, so no record length is the token mark 1.
  lemma {:induction false} ElemIsWords(m: Tag, r: Rec)
    requires Conforms(m, r)
    ensures |EncodeElem(m, r)| % 4 == 0
    decreases m, 0
  {
    var ws := Columns(m.attrs);
    forall i | 0 <= i < |ws| ensures |ValueParts(ws, r.vals)[i]| % 4 == 0 { ValueIsWords(r.vals[i], ws[i]); }
    JoinedIsWords(ValueParts(ws, r.vals), 0);
    forall i | 0 <= i < |m.children| ensures |Bodies(m, r)[i]| % 4 == 0 { ListIsWords(m.children[i], r.lists[i]); }
    FramedIsWords(Bodies(m, r), 0);
    WordSum(|EncodeValues(ws, r.vals)|, |Framed(Bodies(m, r), 0)|);
  }

  lemma {:induction false} ListIsWords(m: Tag, es: seq<Rec>)
    requires ConformsList(m, es)
    ensures |EncodeList(m, es)| % 4 == 0
    decreases m, 1
  {
    if es != [] {
      if Repeats(m) {
        forall j | 0 <= j < |es| ensures |ElemParts(m, es)[j]| % 4 == 0 { ElemIsWords(m, es[j]); }
        JoinedIsWords(ElemParts(m, es), 0);
      } else {
        ElemIsWords(m, es[0]);
      }
    }
  }

  lemma {:induction false} JoinedIsWords(parts: seq<seq<byte>>, i: nat)
    requires i <= |parts| && forall j :: 0 <= j < |parts| ==> |parts[j]| % 4 == 0
    ensures |Joined(parts, i)| % 4 == 0
    decreases |parts| - i
  {
    if i < |parts| {
      JoinedIsWords(parts, i + 1);
      WordSum(|parts[i]|, |Joined(parts, i + 1)|);
    }
  }

  lemma {:induction false} FramedIsWords(bodies: seq<seq<byte>>, i: nat)
    requires i <= |bodies| && forall j :: 0 <= j < |bodies| ==> |bodies[j]| % 4 == 0
    ensures |Framed(bodies, i)| % 4 == 0
    decreases |bodies| - i
  {
    if i < |bodies| {
      FramedIsWords(bodies, i + 1);
      WordSum(|bodies[i]|, |Framed(bodies, i + 1)|);
      WordSum(4, |bodies[i]| + |Framed(bodies, i + 1)|);
    }
  }

  lemma ValueIsWords(v: Value, w: Wire)
    ensures |EncodeValue(v, w)| % 4 == 0 && |EncodeValue(v, w)| >= 4
  {
    if v.Text? {
      WordSum(4, |v.s| + PadLength(|v.s|));
    }
  }

  lemma WordSum(a: nat, b: nat)
    requires a % 4 == 0 && b % 4 == 0
    ensures (a + b) % 4 == 0
  {
  }

  // An element of a tag with content takes at least one unit.
  lemma ContentIsVisible(m: Tag, r: Rec)
    requires Conforms(m, r)
    ensures EncodeElem(m, r) == [] <==> !HasContent(m)
  {
    var ws := Columns(m.attrs);
    if ws != [] {
      ValueIsWords(r.vals[0], ws[0]);
    }
  }

  lemma BlankConforms(m: Tag)
    ensures Conforms(m, Blank(m))
    ensures forall i :: 0 <= i < |m.children| ==> Bodies(m, Blank(m))[i] == []
  {
    forall i | 0 <= i < |m.children| ensures ConformsList(m.children[i], []) {
    }
    var ws := Columns(m.attrs);
    forall i | 0 <= i < |ws| ensures ws[i] != Literal { assert ws[i] in ws; }
  }
}
