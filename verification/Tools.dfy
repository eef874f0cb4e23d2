/** The conversion tools hddm-xml, hddm-root and xml-hddm: two more readers and one more
    writer of the format, each with its own count of the bytes. */
module Tools {
  import opened Slices
  import opened Xdr
  import opened Model
  import opened Layout
  import opened Sequencer
  import opened Evolution
  import opened CRuntime

  const INT_MAX: int := 0x7fff_ffff

  // How often a tag may occur.
  function MaxOccurs(m: Tag): (rep: int) {
    var rep := AttrValue(m.attrs, "maxOccurs");
    if rep == "unbounded" then INT_MAX else if rep == "" then 1 else Atoi(rep)
  }

  lemma RepeatsIsMore(m: Tag)
    ensures Repeats(m) <==> MaxOccurs(m) > 1
  {
    assert Atoi("") == 0;
  }

  /** On the text of the template: without a maxOccurs a tag may occur once, with a number so
      many times, and with "unbounded" as often as an int counts. */
  lemma MaxOccursMeans(m: Tag)
    ensures SaysNothing(m) ==> MaxOccurs(m) == 1
    ensures Says(m, "unbounded") ==> MaxOccurs(m) == 0x7fff_ffff
    ensures forall k :: Says(m, Numeral(k)) ==> MaxOccurs(m) == k
  {
    hide Numeral, Says, SaysNothing;
    ValueSaid(m, "unbounded");
    forall k | Says(m, Numeral(k)) ensures MaxOccurs(m) == k {
      ValueSaid(m, Numeral(k));
      NumeralIsNumber(k);
    }
  }

  // Every tag can occur and stores something.
  predicate Countable(m: Tag) {
    forall i :: 0 <= i < |m.children| ==>
      MaxOccurs(m.children[i]) >= 1 && HasContent(m.children[i]) && Countable(m.children[i])
  }

  // ------------------------------------------------- strings

  // What hddm-xml and hddm-root take off for a string of n bytes.
  function XmlStringSize(n: nat): (k: nat) {
    n + 4 + if n % 4 != 0 then 4 - n % 4 else 0
  }

  function RootStringSize(n: nat): (k: nat) {
    (n + 7) / 4 * 4
  }

  /** All count a string as section 3.11 of RFC 1832 lays it out. */
  lemma StringSizesAgree(s: seq<byte>)
    ensures |Padded(s)| == XmlStringSize(|s|) == RootStringSize(|s|)
  {
    var q, r := |s| / 4, |s| % 4;
    assert |s| == 4 * q + r;
    if r == 0 {
      assert (|s| + 7) / 4 == q + 1;
    } else {
      assert (|s| + 7) / 4 == q + 2;
    }
  }

  function ValueSize(w: Wire, v: Value): (k: nat) {
    match w
    case Literal => 0
    case Word => 4
    case Quad => 8
    case Pair => 8
    case Chars => if v.Text? then XmlStringSize(|v.s|) else 0
  }

  lemma ValueSizeCounts(w: Wire, v: Value)
    requires Fits(w, v)
    ensures |EncodeValue(v, w)| == ValueSize(w, v)
  {
    if v.Text? { StringSizesAgree(v.s); }
  }

  // The attributes of one element; left counts down by what they take.
  method XmlAttributes(ifx: InBuffer, m: Tag, size: int, ghost vals: seq<Value>) returns (vs: seq<Value>, left: int)
    requires FitsAll(Columns(m.attrs), vals) && At(ifx.data, ifx.pos, EncodeValues(Columns(m.attrs), vals))
    modifies ifx`pos
    ensures vs == vals && ifx.pos == old(ifx.pos) + |EncodeValues(Columns(m.attrs), vals)|
    ensures left == size - |EncodeValues(Columns(m.attrs), vals)|
  {
    hide Columns, At, EncodeValue, ReadValue, ValueSize, Fits;
    ColumnsStored(m);
    var ws := Columns(m.attrs);
    ghost var parts := ValueParts(ws, vals);
    vs, left := [], size;
    for j := 0 to |ws|
      invariant vs == vals[..j] && At(ifx.data, ifx.pos, Joined(parts, j))
      invariant ifx.pos + |Joined(parts, j)| == old(ifx.pos) + |Joined(parts, 0)|
      invariant left == size - (ifx.pos - old(ifx.pos))
    {
      AtConcat(ifx.data, ifx.pos, parts[j], Joined(parts, j + 1));
      assert ws[j] in ws;
      ReadValueBack(ws[j], vals[j], ifx.data, ifx.pos);
      ValueSizeCounts(ws[j], vals[j]);
      var v := GetValue(ifx, ws[j], BlankValue(ws[j]));
      left := left - ValueSize(ws[j], v);
      vs := vs + [v];
    }
    assert vals[..|ws|] == vals;
  }

  // ------------------------------------------------- what is visible in the bytes

  lemma PackVisible(m: Tag, c: CElem)
    requires CConforms(m, c)
    ensures Pack(m, c) == [] <==> !HasContent(m)
  {
    SameBytes(m, c);
    ContentIsVisible(m, AsRec(m, c));
  }

  // The packed elements from number r on take no bytes exactly if there are none or their
  // tag has no content.
  lemma {:induction false} PartsVisible(m: Tag, elems: seq<CElem>, r: nat)
    requires r <= |elems| && forall j :: 0 <= j < |elems| ==> CConforms(m, elems[j])
    ensures Joined(PackParts(m, elems), r) == [] <==> r == |elems| || !HasContent(m)
    decreases |elems| - r
  {
    hide Pack, CConforms, HasContent;
    if r < |elems| {
      PackVisible(m, elems[r]);
      PartsVisible(m, elems, r + 1);
      assert |Joined(PackParts(m, elems), r)| == |Pack(m, elems[r])| + |Joined(PackParts(m, elems), r + 1)|;
    }
  }

  // A list is its count, if it repeats, and its elements.
  lemma ListParts(b: seq<byte>, p: nat, m: Tag, list: CMember)
    requires list.Array? && CConformsList(m, list) && At(b, p, PackList(m, list))
    ensures var q := p + if Repeats(m) then 4 else 0;
            && At(b, q, Joined(PackParts(m, list.elems), 0))
            && q + |Joined(PackParts(m, list.elems), 0)| == p + |PackList(m, list)|
            && (Repeats(m) ==> ReadInt(b, p) == (|list.elems|, q))
            && (!Repeats(m) ==> |list.elems| == 1)
  {
    hide At, CConforms, Pack, Repeats;
    var body := Joined(PackParts(m, list.elems), 0);
    if Repeats(m) {
      AtConcat(b, p, U32(|list.elems|), body);
      ReadIntBack(b, p, |list.elems|);
    } else {
      assert [] + body == body;
    }
  }

  // ------------------------------------------------- hddm-xml

  // A member that takes no bytes.
  predicate Silent(m: Tag, list: CMember) {
    list.NullPointer? || (!Repeats(m) && !HasContent(m))
  }

  /** What hddm-xml reads without an error: below every tag, repeating tags that store
      something or do not occur, and other tags that may occur just once. */
  predicate Accepted(m: Tag, c: CElem)
    decreases m, 0
  {
    forall i :: 0 <= i < |m.children| && i < |c.members| ==>
      Silent(m.children[i], c.members[i]) || AcceptedList(m.children[i], c.members[i])
  }

  predicate AcceptedList(m: Tag, list: CMember)
    decreases m, 1
  {
    && list.Array?
    && (if Repeats(m) then list.elems == [] || HasContent(m) else MaxOccurs(m) == 1)
    && forall j :: 0 <= j < |list.elems| ==> Accepted(m, list.elems[j])
  }

  // The elements that it shows: those of silent members are lost.
  function Shown(m: Tag, c: CElem): (r: Rec)
    requires CConforms(m, c)
    ensures |r.lists| == |m.children| && r.vals == c.vals
    decreases m, 0
  {
    Rec(c.vals, seq(|m.children|, i requires 0 <= i < |m.children| => ShownMember(m.children[i], c.members[i])))
  }

  function ShownMember(m: Tag, list: CMember): (es: seq<Rec>)
    requires CConformsList(m, list)
    decreases m, 2
  {
    if Silent(m, list) then [] else ShownList(m, list)
  }

  function ShownList(m: Tag, list: CMember): (es: seq<Rec>)
    requires CConformsList(m, list) && list.Array?
    ensures |es| == |list.elems|
    decreases m, 1
  {
    seq(|list.elems|, j requires 0 <= j < |list.elems| => Shown(m, list.elems[j]))
  }

  // No element is in a link that stores nothing.
  predicate NoneSilent(m: Tag, c: CElem)
    decreases m, 0
  {
    forall i :: 0 <= i < |m.children| && i < |c.members| ==> NoneSilentIn(m.children[i], c.members[i])
  }

  predicate NoneSilentIn(m: Tag, list: CMember)
    decreases m, 1
  {
    list.Array? ==> !Silent(m, list) && forall j :: 0 <= j < |list.elems| ==> NoneSilent(m, list.elems[j])
  }

  /** hddm-xml shows all elements exactly if none of them is in a link that stores nothing. */
  lemma {:induction false} ShownIsAll(m: Tag, c: CElem)
    requires CConforms(m, c)
    ensures Shown(m, c) == AsRec(m, c) <==> NoneSilent(m, c)
    decreases m, 0
  {
    hide Silent, ShownMember, AsList, NoneSilentIn;
    forall i | 0 <= i < |m.children|
      ensures ShownMember(m.children[i], c.members[i]) == AsList(m.children[i], c.members[i])
              <==> NoneSilentIn(m.children[i], c.members[i])
    {
      MemberIsAll(m.children[i], c.members[i]);
    }
    var a, b := Shown(m, c).lists, AsRec(m, c).lists;
    assert forall i :: 0 <= i < |a| ==> (a[i] == b[i] <==> NoneSilentIn(m.children[i], c.members[i]));
    SameLists(a, b);
  }

  lemma SameLists<T>(a: seq<T>, b: seq<T>)
    requires |a| == |b|
    ensures a == b <==> forall i :: 0 <= i < |a| ==> a[i] == b[i]
  {
  }

  lemma {:induction false} MemberIsAll(m: Tag, list: CMember)
    requires CConformsList(m, list)
    ensures ShownMember(m, list) == AsList(m, list) <==> NoneSilentIn(m, list)
    decreases m, 1
  {
    hide HasContent, Repeats, Shown, AsRec, NoneSilent;
    if list.Array? {
      forall j | 0 <= j < |list.elems|
        ensures Shown(m, list.elems[j]) == AsRec(m, list.elems[j]) <==> NoneSilent(m, list.elems[j])
      {
        ShownIsAll(m, list.elems[j]);
      }
      var a, b := ShownList(m, list), AsList(m, list);
      assert forall j :: 0 <= j < |a| ==> (a[j] == b[j] <==> NoneSilent(m, list.elems[j]));
      SameLists(a, b);
    }
  }

  // In a model in which every tag can occur and stores something all is read and shown.
  lemma {:induction false} CountableIsAccepted(m: Tag, c: CElem)
    requires Countable(m) && CConforms(m, c)
    ensures Accepted(m, c) && NoneSilent(m, c)
    decreases m
  {
    hide HasContent, MaxOccurs;
    forall i | 0 <= i < |m.children|
      ensures var list := c.members[i];
              (list.Array? ==> AcceptedList(m.children[i], list)) && NoneSilentIn(m.children[i], list)
    {
      RepeatsIsMore(m.children[i]);
      assert CConformsList(m.children[i], c.members[i]);
      if c.members[i].Array? {
        forall j | 0 <= j < |c.members[i].elems|
          ensures Accepted(m.children[i], c.members[i].elems[j]) && NoneSilent(m.children[i], c.members[i].elems[j])
        {
          CountableIsAccepted(m.children[i], c.members[i].elems[j]);
        }
      }
    }
  }

  lemma SilentHasNoBytes(m: Tag, list: CMember)
    requires CConformsList(m, list)
    ensures PackList(m, list) == [] <==> Silent(m, list)
  {
    hide CConforms, Pack, HasContent;
    if list.Array? && !Repeats(m) { PartsVisible(m, list.elems, 0); }
  }

  /** constructXML on size bytes that hold one or more elements of the tag: it ends with
      nothing left over and the right count exactly if the list is accepted, and then shows
      the elements that were packed. */
  method ConstructXML(ifx: InBuffer, m: Tag, size: nat, ghost list: CMember) returns (ok: bool, es: seq<Rec>)
    requires |ifx.data| < TWO31 && list.Array? && CConformsList(m, list)
    requires size == |PackList(m, list)| > 0 && At(ifx.data, ifx.pos, PackList(m, list))
    modifies ifx`pos
    ensures ok == AcceptedList(m, list)
    ensures ok ==> es == ShownList(m, list) && ifx.pos == old(ifx.pos) + size
    decreases m, 1
  {
    hide At, MaxOccurs, HasContent, Pack, CConforms, Repeats, Shown, Accepted, BigEndian, PackList, Joined;
    var rep, left := MaxOccurs(m), size as int;
    RepeatsIsMore(m);
    ListParts(ifx.data, ifx.pos, m, list);
    SilentHasNoBytes(m, list);
    ghost var parts := PackParts(m, list.elems);
    if rep > 1 {
      rep := ifx.GetInt();
      left := left - 4;
    }
    es, ok := [], true;
    var r := 0;
    PartsVisible(m, list.elems, 0);
    while r < rep && left > 0
      invariant 0 <= r <= |list.elems| && At(ifx.data, ifx.pos, Joined(parts, r))
      invariant rep == |list.elems| || (r == 0 && rep <= 0)
      invariant left == |Joined(parts, r)| && ifx.pos + left == old(ifx.pos) + size
      invariant es == ShownList(m, list)[..r]
      invariant forall j :: 0 <= j < r ==> Accepted(m, list.elems[j])
      invariant left == 0 <==> r == |list.elems| || !HasContent(m)
      invariant !HasContent(m) ==> r == 0
      decreases rep - r
    {
      JoinedStep(ifx.data, ifx.pos, parts, r);
      var e;
      ok, e, left := XmlElement(ifx, m, left, list.elems[r]);
      if !ok { return; }
      es := es + [e];
      r := r + 1;
      PartsVisible(m, list.elems, r);
    }
    if left != 0 { return false, es; }
    if r != rep { return false, es; }
  }

  lemma JoinedStep(b: seq<byte>, p: nat, parts: seq<seq<byte>>, r: nat)
    requires r < |parts| && At(b, p, Joined(parts, r))
    ensures At(b, p, parts[r]) && At(b, p + |parts[r]|, Joined(parts, r + 1))
    ensures |Joined(parts, r)| == |parts[r]| + |Joined(parts, r + 1)|
  {
    AtConcat(b, p, parts[r], Joined(parts, r + 1));
  }

  method XmlElement(ifx: InBuffer, m: Tag, size: int, ghost c: CElem) returns (ok: bool, e: Rec, left: int)
    requires |ifx.data| < TWO31 && CConforms(m, c) && At(ifx.data, ifx.pos, Pack(m, c))
    modifies ifx`pos
    ensures ok == Accepted(m, c)
    ensures ok ==> e == Shown(m, c) && ifx.pos == old(ifx.pos) + |Pack(m, c)| && left == size - |Pack(m, c)|
    decreases m, 0
  {
    hide At, MaxOccurs, HasContent, Columns, PackList, CConformsList, BigEndian, EncodeValues, ShownMember, Silent,
         AcceptedList;
    ok, e, left := true, Rec([], []), size;
    ghost var values, bodies := EncodeValues(Columns(m.attrs), c.vals), PackBodies(m, c);
    AtConcat(ifx.data, ifx.pos, values, Framed(bodies, 0));
    var vs;
    vs, left := XmlAttributes(ifx, m, left, c.vals);
    var lists := [];
    for i := 0 to |m.children|
      invariant At(ifx.data, ifx.pos, Framed(bodies, i)) && lists == Shown(m, c).lists[..i]
      invariant ifx.pos + |Framed(bodies, i)| == old(ifx.pos) + |Pack(m, c)|
      invariant left == size - (ifx.pos - old(ifx.pos))
      invariant forall k :: 0 <= k < i ==>
                  Silent(m.children[k], c.members[k]) || AcceptedList(m.children[k], c.members[k])
    {
      AtConcat(ifx.data, ifx.pos, Block(bodies[i]), Framed(bodies, i + 1));
      AtConcat(ifx.data, ifx.pos, U32(|bodies[i]|), bodies[i]);
      var es;
      ok, es, left := XmlMember(ifx, m.children[i], left, c.members[i]);
      if !ok { return; }
      lists := lists + [es];
    }
    e := Rec(vs, lists);
  }

  method XmlMember(ifx: InBuffer, m: Tag, size: int, ghost list: CMember) returns (ok: bool, es: seq<Rec>, left: int)
    requires |ifx.data| < TWO31 && CConformsList(m, list) && At(ifx.data, ifx.pos, Block(PackList(m, list)))
    modifies ifx`pos
    ensures ok == (Silent(m, list) || AcceptedList(m, list))
    ensures ok ==>
              && es == ShownMember(m, list)
              && ifx.pos == old(ifx.pos) + 4 + |PackList(m, list)| && left == size - 4 - |PackList(m, list)|
    decreases m, 2
  {
    hide At, MaxOccurs, HasContent, CConformsList, PackList, AcceptedList, ShownList, BigEndian, Repeats;
    ok, es, left := true, [], size;
    AtConcat(ifx.data, ifx.pos, U32(|PackList(m, list)|), PackList(m, list));
    AtInside(ifx.data, ifx.pos + 4, PackList(m, list));
    ReadIntBack(ifx.data, ifx.pos, |PackList(m, list)|);
    SilentHasNoBytes(m, list);
    var csize := ifx.GetInt();
    left := left - 4;
    if csize > 0 {
      ok, es := ConstructXML(ifx, m, csize, list);
      left := left - csize;
    }
  }

  // ------------------------------------------------- hddm-root

  function UpToNul(s: seq<byte>): (r: seq<byte>) {
    if s == [] || s[0] == 0 then [] else [s[0]] + UpToNul(s[1..])
  }

  // What a column of the tree keeps of a value: of a string, what fits into 80 characters.
  function Kept(v: Value): (k: Value) {
    if v.Num? then v
    else
      var s := UpToNul(v.s);
      Text(if |s| <= 80 then s else s[..80])
  }

  lemma {:induction false} UpToNulIs(s: seq<byte>, n: nat)
    requires n <= |s| && 0 !in s[..n] && (n < |s| ==> s[n] == 0)
    ensures UpToNul(s) == s[..n]
  {
    if n > 0 {
      assert s[..n] == [s[0]] + s[1..][..n - 1];
      UpToNulIs(s[1..], n - 1);
    }
  }

  function KeptAll(vs: seq<Value>): (ks: seq<Value>)
    ensures |ks| == |vs|
  {
    seq(|vs|, i requires 0 <= i < |vs| => Kept(vs[i]))
  }

  function Rows(elems: seq<CElem>): (rows: seq<seq<Value>>)
    ensures |rows| == |elems|
  {
    seq(|elems|, j requires 0 <= j < |elems| => KeptAll(elems[j].vals))
  }

  /** Row j has a column for each value: numbers as they are, and of a string what stands in
      front of its first zero byte, at most 80 characters of it. */
  lemma RowsMean(elems: seq<CElem>, j: nat, i: nat, s: seq<byte>, n: nat)
    requires j < |elems| && i < |elems[j].vals|
    requires n <= |s| && 0 !in s[..n] && (n < |s| ==> s[n] == 0)
    ensures |Rows(elems)| == |elems| && |Rows(elems)[j]| == |elems[j].vals|
    ensures elems[j].vals[i].Num? ==> Rows(elems)[j][i] == elems[j].vals[i]
    ensures elems[j].vals[i] == Text(s) ==> Rows(elems)[j][i] == Text(if n <= 80 then s[..n] else s[..80])
  {
    UpToNulIs(s, n);
  }

  // attribute_t::read for all attributes; seen counts up.
  method RootAttributes(ifx: InBuffer, m: Tag, ghost vals: seq<Value>) returns (row: seq<Value>, seen: nat)
    requires FitsAll(Columns(m.attrs), vals) && At(ifx.data, ifx.pos, EncodeValues(Columns(m.attrs), vals))
    modifies ifx`pos
    ensures row == KeptAll(vals) && seen == |EncodeValues(Columns(m.attrs), vals)| && ifx.pos == old(ifx.pos) + seen
  {
    hide Columns, At, EncodeValue, ReadValue, Fits, Kept, RootStringSize;
    ColumnsStored(m);
    var ws := Columns(m.attrs);
    ghost var parts := ValueParts(ws, vals);
    row, seen := [], 0;
    for j := 0 to |ws|
      invariant row == KeptAll(vals)[..j] && At(ifx.data, ifx.pos, Joined(parts, j))
      invariant seen + |Joined(parts, j)| == |Joined(parts, 0)| && ifx.pos == old(ifx.pos) + seen
    {
      AtConcat(ifx.data, ifx.pos, parts[j], Joined(parts, j + 1));
      assert ws[j] in ws;
      ReadValueBack(ws[j], vals[j], ifx.data, ifx.pos);
      RootSizeCounts(ws[j], vals[j]);
      var v := GetValue(ifx, ws[j], BlankValue(ws[j]));
      row := row + [Kept(v)];
      seen := seen + RootSize(ws[j], v);
    }
  }

  function RootSize(w: Wire, v: Value): (k: nat) {
    match w
    case Literal => 0
    case Word => 4
    case Quad => 8
    case Pair => 8
    case Chars => if v.Text? then RootStringSize(|v.s|) else 0
  }

  lemma RootSizeCounts(w: Wire, v: Value)
    requires Fits(w, v)
    ensures |EncodeValue(v, w)| == RootSize(w, v)
  {
    if v.Text? { StringSizesAgree(v.s); }
  }

  // Below every tag, repeating tags with elements store something.
  predicate Counted(m: Tag, c: CElem)
    decreases m, 0
  {
    forall i :: 0 <= i < |m.children| && i < |c.members| ==> CountedIn(m.children[i], c.members[i])
  }

  predicate CountedIn(m: Tag, list: CMember)
    decreases m, 1
  {
    list.Array? ==>
      && (Repeats(m) && list.elems != [] ==> HasContent(m))
      && forall j :: 0 <= j < |list.elems| ==> Counted(m, list.elems[j])
  }

  // A tag without children has nothing below it that could fail.
  lemma SilentIsCounted(m: Tag, list: CMember)
    requires Silent(m, list)
    ensures CountedIn(m, list)
  {
  }

  /** element_t::read: exactly if the list is counted, both assertions hold, here and below;
      then it returns the number of bytes that it took, and the tree of the tag gets one row
      for every element. */
  method ReadElement(ifx: InBuffer, m: Tag, ghost list: CMember) returns (ok: bool, n: nat, rows: seq<seq<Value>>)
    requires |ifx.data| < TWO31 && CConformsList(m, list) && At(ifx.data, ifx.pos, Block(PackList(m, list)))
    modifies ifx`pos
    ensures ok == CountedIn(m, list)
    ensures ok ==> n == 4 + |PackList(m, list)| && ifx.pos == old(ifx.pos) + n
    ensures ok ==> rows == if Silent(m, list) then [] else Rows(list.elems)
    decreases m, 2
  {
    hide At, HasContent, Pack, CConforms, Repeats, PackList, Joined, BigEndian, Rows, Counted;
    ok := true;
    AtConcat(ifx.data, ifx.pos, U32(|PackList(m, list)|), PackList(m, list));
    AtInside(ifx.data, ifx.pos + 4, PackList(m, list));
    ReadIntBack(ifx.data, ifx.pos, |PackList(m, list)|);
    SilentHasNoBytes(m, list);
    rows := [];
    var size := ifx.GetInt();
    if size == 0 {
      SilentIsCounted(m, list);
      return true, 4, [];
    }
    ListParts(ifx.data, ifx.pos, m, list);
    var reps, seen := 1, 0;
    if Repeats(m) {
      reps := ifx.GetInt();
      seen := 4;
    }
    ok, rows, reps := ReadRows(ifx, m, size - seen, reps, list.elems);
    n := size + 4;
    if !ok || (Repeats(m) && reps != 0) { ok := false; }
  }

  // The loop over the elements; the first assertion is that it ends at the end of the list.
  method ReadRows(ifx: InBuffer, m: Tag, size: nat, count: int, ghost elems: seq<CElem>)
    returns (ok: bool, rows: seq<seq<Value>>, reps: int)
    requires |ifx.data| < TWO31 && forall j :: 0 <= j < |elems| ==> CConforms(m, elems[j])
    requires At(ifx.data, ifx.pos, Joined(PackParts(m, elems), 0)) && size == |Joined(PackParts(m, elems), 0)|
    modifies ifx`pos
    ensures HasContent(m) ==> ok == forall j :: 0 <= j < |elems| ==> Counted(m, elems[j])
    ensures HasContent(m) && ok ==> rows == Rows(elems)
    ensures !HasContent(m) ==> ok && rows == []
    ensures ok ==> ifx.pos == old(ifx.pos) + size && reps == count - |rows|
    decreases m, 1
  {
    hide At, HasContent, Pack, CConforms, Joined, KeptAll, Counted;
    ghost var parts := PackParts(m, elems);
    ok, rows, reps := true, [], count;
    var seen := 0;
    PartsVisible(m, elems, 0);
    while seen < size
      invariant |rows| <= |elems| && At(ifx.data, ifx.pos, Joined(parts, |rows|))
      invariant rows == Rows(elems)[..|rows|] && reps == count - |rows|
      invariant seen + |Joined(parts, |rows|)| == size && ifx.pos == old(ifx.pos) + seen
      invariant seen == size <==> |rows| == |elems| || !HasContent(m)
      invariant !HasContent(m) ==> rows == []
      invariant forall j :: 0 <= j < |rows| ==> Counted(m, elems[j])
      decreases size - seen
    {
      JoinedStep(ifx.data, ifx.pos, parts, |rows|);
      PackVisible(m, elems[|rows|]);
      var row, k;
      ok, row, k := ReadRow(ifx, m, elems[|rows|]);
      if !ok { return; }
      seen := seen + k;
      rows := rows + [row];
      PartsVisible(m, elems, |rows|);
      reps := reps - 1;
    }
    assert seen == size;
  }

  method ReadRow(ifx: InBuffer, m: Tag, ghost c: CElem) returns (ok: bool, row: seq<Value>, seen: nat)
    requires |ifx.data| < TWO31 && CConforms(m, c) && At(ifx.data, ifx.pos, Pack(m, c))
    modifies ifx`pos
    ensures ok == Counted(m, c)
    ensures ok ==> row == KeptAll(c.vals) && seen == |Pack(m, c)| && ifx.pos == old(ifx.pos) + seen
    decreases m, 0
  {
    hide At, MaxOccurs, HasContent, Columns, PackList, CConformsList, BigEndian, EncodeValues, KeptAll, CountedIn;
    ghost var values, bodies := EncodeValues(Columns(m.attrs), c.vals), PackBodies(m, c);
    AtConcat(ifx.data, ifx.pos, values, Framed(bodies, 0));
    ok := true;
    row, seen := RootAttributes(ifx, m, c.vals);
    for i := 0 to |m.children|
      invariant At(ifx.data, ifx.pos, Framed(bodies, i))
      invariant seen + |Framed(bodies, i)| == |Pack(m, c)| && ifx.pos == old(ifx.pos) + seen
      invariant forall k :: 0 <= k < i ==> CountedIn(m.children[k], c.members[k])
    {
      AtConcat(ifx.data, ifx.pos, Block(bodies[i]), Framed(bodies, i + 1));
      var k, below;
      ok, k, below := ReadElement(ifx, m.children[i], c.members[i]);
      if !ok { return; }
      seen := seen + k;
    }
  }

  // ------------------------------------------------- xml-hddm

  // An element of the input document; its children come in any order.
  datatype Node = Node(name: string, vals: seq<Value>, kids: seq<Node>)

  function Select(kids: seq<Node>, name: string): (ks: seq<Node>)
    ensures forall k :: k in ks ==> k in kids
  {
    if kids == [] then []
    else (if kids[0].name == name then [kids[0]] else []) + Select(kids[1..], name)
  }

  // ps are the places of ks among kids: in order, and all places of that name.
  predicate InPlaces(kids: seq<Node>, name: string, ks: seq<Node>, ps: seq<nat>) {
    && |ps| == |ks|
    && (forall i, j :: 0 <= i < j < |ps| ==> ps[i] < ps[j])
    && (forall i :: 0 <= i < |ps| ==> ps[i] < |kids| && ks[i] == kids[ps[i]])
    && (forall p :: 0 <= p < |kids| ==> (kids[p].name == name <==> p in ps))
  }

  lemma PlaceMore(kids: seq<Node>, k: Node, name: string, ks: seq<Node>, ps: seq<nat>)
    requires InPlaces(kids, name, ks, ps)
    ensures if k.name == name then InPlaces(kids + [k], name, ks + [k], ps + [|kids|])
            else InPlaces(kids + [k], name, ks, ps)
  {
    var n := |kids|;
    forall i | 0 <= i < |ps| ensures ps[i] < n && (kids + [k])[ps[i]] == ks[i] {
    }
    if k.name == name {
      forall p | 0 <= p <= n ensures (kids + [k])[p].name == name <==> p in ps + [n] {
        if p < n { assert (kids + [k])[p] == kids[p] && (p in ps + [n] <==> p in ps); }
      }
    } else {
      assert n !in ps;
      forall p | 0 <= p <= n ensures (kids + [k])[p].name == name <==> p in ps {
        if p < n { assert (kids + [k])[p] == kids[p]; }
      }
    }
  }

  /** The instances of one tag are taken in the order of the document. */
  lemma {:induction false} SelectPlaces(kids: seq<Node>, name: string) returns (ps: seq<nat>)
    ensures InPlaces(kids, name, Select(kids, name), ps)
  {
    hide Select;
    if kids == [] {
      NothingSelected(name);
      ps := [];
    } else {
      var n := |kids| - 1;
      ps := SelectPlaces(kids[..n], name);
      SelectSnoc(kids[..n], kids[n], name);
      PlaceMore(kids[..n], kids[n], name, Select(kids[..n], name), ps);
      assert kids == kids[..n] + [kids[n]];
      if kids[n].name == name { ps := ps + [n]; }
    }
  }

  lemma NothingSelected(name: string)
    ensures Select([], name) == []
  {
  }

  // The places of the instances of one tag.
  function Places(kids: seq<Node>, name: string): (ps: set<nat>) {
    set p | 0 <= p < |kids| && kids[p].name == name
  }

  lemma PlacesStep(kids: seq<Node>, name: string)
    requires kids != []
    ensures var n := |kids| - 1;
            |Places(kids, name)| == |Places(kids[..n], name)| + if kids[n].name == name then 1 else 0
  {
    var n := |kids| - 1;
    var here := if kids[n].name == name then {n} else {};
    assert Places(kids, name) == Places(kids[..n], name) + here;
  }

  lemma {:induction false} PlacesCount(kids: seq<Node>, name: string)
    ensures |Places(kids, name)| == |Select(kids, name)| <= |kids|
  {
    if kids == [] {
      assert Places(kids, name) == {};
    } else {
      var n := |kids| - 1;
      assert kids == kids[..n] + [kids[n]];
      PlacesCount(kids[..n], name);
      PlacesStep(kids, name);
      SelectSnoc(kids[..n], kids[n], name);
    }
  }

  // The document has the attributes of the template.
  predicate Typed(m: Tag, d: Node)
    decreases m
  {
    && FitsAll(Columns(m.attrs), d.vals) && |d.kids| < TWO31
    && forall i, j :: 0 <= i < |m.children| && 0 <= j < |d.kids| && d.kids[j].name == m.children[i].name ==>
         Typed(m.children[i], d.kids[j])
  }

  function Allowed(m: Tag): (n: nat) {
    if MaxOccurs(m) > 0 then MaxOccurs(m) else 0
  }

  // No tag occurs more often than the template allows.
  predicate Occurs(m: Tag, d: Node)
    decreases m
  {
    forall i :: 0 <= i < |m.children| ==>
      && |Select(d.kids, m.children[i].name)| <= Allowed(m.children[i])
      && forall j :: 0 <= j < |d.kids| && d.kids[j].name == m.children[i].name ==> Occurs(m.children[i], d.kids[j])
  }

  // The maxOccurs of the tag is missing, unbounded, or a number.
  ghost predicate Limited(m: Tag) {
    SaysNothing(m) || Says(m, "unbounded") || exists k :: Says(m, Numeral(k))
  }

  // The same of every tag below.
  ghost predicate Plain(m: Tag) {
    forall i :: 0 <= i < |m.children| ==> Limited(m.children[i]) && Plain(m.children[i])
  }

  /** What the text of the template permits: tags without a maxOccurs occur once at most, those
      with a number so many times at most, and those that are unbounded any number of times. */
  ghost predicate Permitted(m: Tag, d: Node)
    decreases m
  {
    forall i :: 0 <= i < |m.children| ==>
      && (SaysNothing(m.children[i]) ==> |Places(d.kids, m.children[i].name)| <= 1)
      && (forall k :: Says(m.children[i], Numeral(k)) ==> |Places(d.kids, m.children[i].name)| <= k)
      && forall j :: 0 <= j < |d.kids| && d.kids[j].name == m.children[i].name ==> Permitted(m.children[i], d.kids[j])
  }

  // The same for one tag, of which a document has n instances.
  lemma CountPermitted(m: Tag, n: nat)
    requires Limited(m) && n <= 0x7fff_ffff
    ensures n <= Allowed(m) <==> (SaysNothing(m) ==> n <= 1) && forall k :: Says(m, Numeral(k)) ==> n <= k
  {
    hide Numeral, Says, SaysNothing, MaxOccurs;
    MaxOccursMeans(m);
    if SaysNothing(m) || Says(m, "unbounded") {
      OneSaying(m);
    } else {
      var k :| Says(m, Numeral(k));
      ValueSaid(m, Numeral(k));
      NumeralIsNumber(k);
    }
  }

  // A tag says one thing only.
  lemma OneSaying(m: Tag)
    requires SaysNothing(m) || Says(m, "unbounded")
    ensures forall k :: !Says(m, Numeral(k))
  {
    hide Numeral, Says, SaysNothing;
    ValueSaid(m, "unbounded");
    forall k ensures !Says(m, Numeral(k)) {
      ValueSaid(m, Numeral(k));
      NumeralIsNumber(k);
    }
  }

  lemma {:induction false} OccursMeans(m: Tag, d: Node)
    requires Typed(m, d) && Plain(m)
    ensures Occurs(m, d) <==> Permitted(m, d)
    decreases m
  {
    hide Numeral, Says, SaysNothing, Allowed, Columns, Select, Places, Limited;
    forall i | 0 <= i < |m.children|
      ensures var n, kid := |Places(d.kids, m.children[i].name)|, m.children[i];
              && |Select(d.kids, kid.name)| == n
              && (n <= Allowed(kid) <==> (SaysNothing(kid) ==> n <= 1) && forall k :: Says(kid, Numeral(k)) ==> n <= k)
    {
      PlacesCount(d.kids, m.children[i].name);
      CountPermitted(m.children[i], |Places(d.kids, m.children[i].name)|);
    }
    forall i, j | 0 <= i < |m.children| && 0 <= j < |d.kids| && d.kids[j].name == m.children[i].name
      ensures Occurs(m.children[i], d.kids[j]) <==> Permitted(m.children[i], d.kids[j])
    {
      OccursMeans(m.children[i], d.kids[j]);
    }
  }

  // The document sorted into the members of the template: a repeating tag always has a
  // list, even an empty one.
  function Arranged(m: Tag, d: Node): (c: CElem)
    decreases m, 1
  {
    CElem(d.vals, seq(|m.children|, i requires 0 <= i < |m.children| => ArrangedList(m.children[i], d.kids)))
  }

  function ArrangedList(m: Tag, kids: seq<Node>): (list: CMember)
    decreases m, 2
  {
    var ks := Select(kids, m.name);
    if !Repeats(m) && ks == [] then NullPointer
    else Array(seq(|ks|, j requires 0 <= j < |ks| => Arranged(m, ks[j])))
  }

  lemma {:induction false} SelectSnoc(kids: seq<Node>, k: Node, name: string)
    ensures Select(kids + [k], name) == if k.name == name then Select(kids, name) + [k] else Select(kids, name)
  {
    if kids != [] {
      assert (kids + [k])[1..] == kids[1..] + [k];
      SelectSnoc(kids[1..], k, name);
    }
  }

  /** The document sorted by the template: the values of each element stay with it, a member
      has the instances of its tag in the order of the document, and without any instance it
      is an empty list if the tag repeats, and otherwise missing. */
  lemma ArrangedMeans(m: Tag, d: Node, i: nat) returns (ps: seq<nat>)
    requires i < |m.children|
    ensures Arranged(m, d).vals == d.vals && |Arranged(m, d).members| == |m.children|
    ensures forall j, k :: 0 <= j < k < |ps| ==> ps[j] < ps[k] < |d.kids|
    ensures forall p :: 0 <= p < |d.kids| ==> (d.kids[p].name == m.children[i].name <==> p in ps)
    ensures var member := Arranged(m, d).members[i];
            && (member == NullPointer <==> !Repeats(m.children[i]) && ps == [])
            && (member.Array? ==>
                  && |member.elems| == |ps|
                  && forall j :: 0 <= j < |ps| ==>
                       ps[j] < |d.kids| && member.elems[j] == Arranged(m.children[i], d.kids[ps[j]]))
  {
    hide Select, Repeats;
    ps := SelectPlaces(d.kids, m.children[i].name);
  }

  // The bytes of a member without any instance.
  lemma NoInstance(m: Tag, kids: seq<Node>)
    requires forall k :: k in kids ==> k.name != m.name
    ensures CConformsList(m, ArrangedList(m, kids))
    ensures Block(PackList(m, ArrangedList(m, kids))) == if Repeats(m) then Four(4) + Four(0) else Four(0)
  {
    hide BigEndian, Select, Repeats;
    SelectNone(kids, m.name);
    FourIsWord(4);
    FourIsWord(0);
    if Repeats(m) { assert PackList(m, Array([])) == U32(0) + []; }
  }

  lemma {:induction false} SelectNone(kids: seq<Node>, name: string)
    requires forall k :: k in kids ==> k.name != name
    ensures Select(kids, name) == []
  {
    if kids != [] {
      assert kids[0] in kids;
      SelectNone(kids[1..], name);
    }
  }

  function ArrangedAll(m: Tag, ks: seq<Node>): (cs: seq<CElem>)
    ensures |cs| == |ks|
  {
    seq(|ks|, j requires 0 <= j < |ks| => Arranged(m, ks[j]))
  }

  // All instances conform, and can be packed.
  predicate Packable(m: Tag, ks: seq<Node>) {
    forall j :: 0 <= j < |ks| ==> CConforms(m, Arranged(m, ks[j]))
  }

  function Packed(m: Tag, ks: seq<Node>): (b: seq<byte>)
    requires Packable(m, ks)
  {
    Joined(PackParts(m, ArrangedAll(m, ks)), 0)
  }

  lemma PackedSnoc(m: Tag, ks: seq<Node>, k: Node)
    requires Packable(m, ks) && CConforms(m, Arranged(m, k))
    ensures Packable(m, ks + [k]) && Packed(m, ks + [k]) == Packed(m, ks) + Pack(m, Arranged(m, k))
  {
    hide CConforms, Pack, Arranged, Joined;
    assert PackParts(m, ArrangedAll(m, ks + [k])) == PackParts(m, ArrangedAll(m, ks)) + [Pack(m, Arranged(m, k))];
    JoinedSnoc(PackParts(m, ArrangedAll(m, ks)), Pack(m, Arranged(m, k)), 0);
  }

  lemma ListIsPacked(m: Tag, kids: seq<Node>)
    requires Packable(m, Select(kids, m.name)) && |kids| < TWO31 && |Select(kids, m.name)| <= |kids|
    requires !Repeats(m) ==> |Select(kids, m.name)| <= 1
    ensures CConformsList(m, ArrangedList(m, kids))
    ensures PackList(m, ArrangedList(m, kids))
            == (if Repeats(m) then U32(|Select(kids, m.name)|) else []) + Packed(m, Select(kids, m.name))
  {
    hide CConforms, Pack, Arranged, Repeats;
    var ks := Select(kids, m.name);
    assert ArrangedAll(m, ks) == seq(|ks|, j requires 0 <= j < |ks| => Arranged(m, ks[j]));
  }

  /** outputStream: it accepts the documents in which no tag occurs too often, and writes
      the packed form of the document sorted by the template. */
  method OutputStream(d: Node, m: Tag) returns (ok: bool, ofs: seq<byte>)
    requires Typed(m, d)
    ensures ok == Occurs(m, d)
    ensures Plain(m) ==> ok == Permitted(m, d)
    ensures ok ==> CConforms(m, Arranged(m, d)) && ofs == Pack(m, Arranged(m, d))
    decreases m, 1
  {
    hide BigEndian, Columns, PackList, Repeats, MaxOccurs, ArrangedList, EncodeValues, CConformsList, Plain, Permitted,
         Allowed;
    if Plain(m) { OccursMeans(m, d); }
    ok, ofs := true, EncodeValues(Columns(m.attrs), d.vals);
    ghost var bodies := [];
    for i := 0 to |m.children|
      invariant |bodies| == i && ofs == EncodeValues(Columns(m.attrs), d.vals) + Framed(bodies, 0)
      invariant forall k :: 0 <= k < i ==> MemberOccurs(m.children[k], d)
      invariant forall k :: 0 <= k < i ==>
                  && CConformsList(m.children[k], ArrangedList(m.children[k], d.kids))
                  && bodies[k] == PackList(m.children[k], ArrangedList(m.children[k], d.kids))
    {
      var block;
      ok, block := OutputMember(d, m.children[i]);
      if !ok { return; }
      ghost var body := PackList(m.children[i], ArrangedList(m.children[i], d.kids));
      FramedSnoc(bodies, body, 0);
      ofs := ofs + block;
      bodies := bodies + [body];
    }
    ghost var c := Arranged(m, d);
    assert CConforms(m, c);
    assert PackBodies(m, c) == bodies;
  }

  predicate MemberOccurs(m: Tag, d: Node) {
    && |Select(d.kids, m.name)| <= Allowed(m)
    && forall j :: 0 <= j < |d.kids| && d.kids[j].name == m.name ==> Occurs(m, d.kids[j])
  }

  // The instances of one tag, gathered in a buffer, and their length in front.
  method OutputMember(d: Node, m: Tag) returns (ok: bool, block: seq<byte>)
    requires |d.kids| < TWO31 && forall j :: 0 <= j < |d.kids| && d.kids[j].name == m.name ==> Typed(m, d.kids[j])
    ensures ok == MemberOccurs(m, d)
    ensures ok ==> CConformsList(m, ArrangedList(m, d.kids)) && block == Block(PackList(m, ArrangedList(m, d.kids)))
    decreases m, 2
  {
    hide BigEndian, Pack, CConforms, Arranged, MaxOccurs, Repeats, Occurs, Typed, Select, Packed, Packable,
         ArrangedList, PackList;
    var rep, repCount, ofsbuf: seq<byte> := MaxOccurs(m), 0, [];
    ok, block := true, [];
    RepeatsIsMore(m);
    NoneSelected(m);
    for i := 0 to |d.kids|
      invariant repCount == |Select(d.kids[..i], m.name)| <= i && Packable(m, Select(d.kids[..i], m.name))
      invariant ofsbuf == Packed(m, Select(d.kids[..i], m.name)) && (repCount == 0 || repCount <= rep)
      invariant forall j :: 0 <= j < i && d.kids[j].name == m.name ==> Occurs(m, d.kids[j])
    {
      assert d.kids[..i + 1] == d.kids[..i] + [d.kids[i]];
      SelectSnoc(d.kids[..i], d.kids[i], m.name);
      if d.kids[i].name == m.name {
        var b;
        ok, b := OutputStream(d.kids[i], m);
        if !ok { return; }
        PackedSnoc(m, Select(d.kids[..i], m.name), d.kids[i]);
        ofsbuf := ofsbuf + b;
        repCount := repCount + 1;
        if (repCount > 1 && rep == 1) || repCount > rep {
          SelectGrows(d.kids, i + 1, m.name);
          return false, [];
        }
      }
    }
    assert d.kids[..|d.kids|] == d.kids;
    ListIsPacked(m, d.kids);
    var size := |ofsbuf|;
    if rep > 1 {
      block := U32(if size > 0 then size + 4 else 4) + U32(repCount) + ofsbuf;
    } else {
      block := U32(if size > 0 then size else 0) + ofsbuf;
    }
  }

  lemma NoneSelected(m: Tag)
    ensures Select([], m.name) == [] && Packable(m, []) && Packed(m, []) == []
  {
  }

  lemma {:induction false} SelectGrows(kids: seq<Node>, i: nat, name: string)
    requires i <= |kids|
    ensures |Select(kids[..i], name)| <= |Select(kids, name)|
    decreases |kids| - i
  {
    if i < |kids| {
      assert kids[..i + 1] == kids[..i] + [kids[i]];
      SelectSnoc(kids[..i], kids[i], name);
      SelectGrows(kids, i + 1, name);
    } else {
      assert kids[..i] == kids;
    }
  }

  /** There and back: a document that xml-hddm accepts comes out of hddm-xml, if that
      accepts its packed form, with the same elements sorted as the template has them. */
  method ThereAndBack(d: Node, m: Tag) returns (done: bool, es: seq<Rec>)
    requires Typed(m, d) && Occurs(m, d) && HasContent(m) && MaxOccurs(m) == 1
    ensures CConforms(m, Arranged(m, d))
    ensures done == (|Pack(m, Arranged(m, d))| < TWO31 && Accepted(m, Arranged(m, d)))
    ensures done && NoneSilent(m, Arranged(m, d)) ==> es == [AsRec(m, Arranged(m, d))]
  {
    hide At, HasContent, Occurs, Typed, CConforms, Pack, Arranged, AsRec, Shown, Accepted, NoneSilent, MaxOccurs;
    ghost var c := Arranged(m, d);
    var ok, ofs := OutputStream(d, m);
    if |ofs| >= TWO31 { return false, []; }
    var ifx := new InBuffer(ofs);
    RepeatsIsMore(m);
    ghost var list := Array([c]);
    assert PackParts(m, [c]) == [Pack(m, c)];
    OnePart(PackParts(m, [c]));
    assert PackList(m, list) == [] + Pack(m, c) == ofs;
    AtSlice(ofs, 0, |ofs|);
    assert ofs[0..0 + |ofs|] == ofs;
    PackVisible(m, c);
    done, es := ConstructXML(ifx, m, |ofs|, list);
    ShownIsAll(m, c);
    assert ShownList(m, list) == [Shown(m, c)];
    assert AcceptedList(m, list) <==> Accepted(m, list.elems[0]);
  }

  // ------------------------------------------------- what the C++ streamers write

  // The C++ record in C: a list without elements is no list.
  function FromRec(m: Tag, r: Rec): (c: CElem)
    requires Conforms(m, r)
    decreases m, 0
  {
    CElem(r.vals, seq(|m.children|, i requires 0 <= i < |m.children| => FromList(m.children[i], r.lists[i])))
  }

  function FromList(m: Tag, es: seq<Rec>): (list: CMember)
    requires ConformsList(m, es)
    decreases m, 1
  {
    if es == [] then NullPointer else Array(seq(|es|, j requires 0 <= j < |es| => FromRec(m, es[j])))
  }

  /** Every C++ record is the same data as a C structure, and the C packers write the bytes
      that the C++ streamers write: what is said of packed elements holds for all files. */
  lemma {:induction false} StreamersPack(m: Tag, r: Rec)
    requires Conforms(m, r)
    ensures CConforms(m, FromRec(m, r)) && AsRec(m, FromRec(m, r)) == r
    ensures Pack(m, FromRec(m, r)) == EncodeElem(m, r)
    decreases m, 0
  {
    hide Columns, Repeats, EncodeValues, Framed;
    var c := FromRec(m, r);
    forall i | 0 <= i < |m.children|
      ensures CConformsList(m.children[i], c.members[i]) && AsList(m.children[i], c.members[i]) == r.lists[i]
      ensures PackList(m.children[i], c.members[i]) == EncodeList(m.children[i], r.lists[i])
    {
      StreamersPackList(m.children[i], r.lists[i]);
    }
    assert AsRec(m, c).lists == r.lists;
    assert PackBodies(m, c) == Bodies(m, r);
  }

  lemma {:induction false} StreamersPackList(m: Tag, es: seq<Rec>)
    requires ConformsList(m, es)
    ensures CConformsList(m, FromList(m, es)) && AsList(m, FromList(m, es)) == es
    ensures PackList(m, FromList(m, es)) == EncodeList(m, es)
    decreases m, 1
  {
    hide Columns, Repeats, EncodeElem, Pack, FromRec, Conforms, CConforms, Joined;
    forall j | 0 <= j < |es|
      ensures CConforms(m, FromRec(m, es[j])) && AsRec(m, FromRec(m, es[j])) == es[j]
      ensures Pack(m, FromRec(m, es[j])) == EncodeElem(m, es[j])
    {
      StreamersPack(m, es[j]);
    }
    if es != [] {
      var list := FromList(m, es);
      assert AsList(m, list) == es;
      assert PackParts(m, list.elems) == ElemParts(m, es);
      if !Repeats(m) { OnePart(ElemParts(m, es)); }
    }
  }
}
