/** The header of a file: the model printed as text in normal form, and the walk over
    two such texts that pairs the tags of the file with the tags of the reader. */
module Document {
  import opened Slices
  import opened Model
  import opened TagText
  import opened Sequencer
  import opened Evolution

  // ------------------------------------------------- printing

  function Indent(n: nat): (s: string)
    ensures |s| == 2 * n
  {
    if n == 0 then "" else "  " + Indent(n - 1)
  }

  function EndTag(name: string): (s: string) {
    "</" + name + ">"
  }

  // constructDocument at indentation lvl.
  function Print(m: Tag, lvl: nat): (s: string)
    decreases m
  {
    Indent(lvl) + OpenTag(m) + "\n" + Inside(m, lvl)
  }

  // What follows the opening line of m.
  function Inside(m: Tag, lvl: nat): (s: string)
    decreases m, 0
  {
    PrintFrom(m.children, 0, lvl + 1) + Closing(m, lvl)
  }

  function Closing(m: Tag, lvl: nat): (s: string) {
    if m.children == [] then "" else Indent(lvl) + EndTag(m.name) + "\n"
  }

  function PrintFrom(ms: seq<Tag>, i: nat, lvl: nat): (s: string)
    requires i <= |ms|
    decreases ms, |ms| - i
  {
    if i == |ms| then "" else Print(ms[i], lvl) + PrintFrom(ms, i + 1, lvl)
  }

  lemma Indents()
    ensures Indent(0) == "" && Indent(1) == "  " && Indent(2) == "    "
  {
    assert Indent(1) == "  " + Indent(0) && Indent(2) == "  " + Indent(1);
  }

  // The opening line of a tag with one attribute, and with two.
  lemma OpenOne(x: string, a: Attr, kids: seq<Tag>)
    ensures OpenTag(Tag(x, [a], kids))
            == "<" + x + (" " + (a.name + "=" + "\"" + a.value + "\"")) + if kids == [] then " />" else ">"
  {
    hide OneAttr;
    assert [a][1..] == [];
    assert AttrText([a]) == " " + OneAttr(a);
    OneAttrIs(a);
  }

  lemma OpenTwo(x: string, a: Attr, b: Attr)
    ensures OpenTag(Tag(x, [a, b], []))
            == "<" + x + (" " + (a.name + "=" + "\"" + a.value + "\"")
                          + (" " + (b.name + "=" + "\"" + b.value + "\""))) + " />"
  {
    hide OneAttr;
    assert [a, b][1..] == [b] && [b][1..] == [];
    assert AttrText([b]) == " " + OneAttr(b);
    assert AttrText([a, b]) == " " + OneAttr(a) + (" " + OneAttr(b));
    OneAttrIs(a);
    OneAttrIs(b);
  }

  lemma OneAttrIs(a: Attr)
    ensures OneAttr(a) == a.name + "=" + "\"" + a.value + "\""
  {
  }

  lemma PrintLeaf(m: Tag, lvl: nat)
    requires m.children == []
    ensures Print(m, lvl) == Indent(lvl) + OpenTag(m) + "\n"
  {
    hide OpenTag, Indent;
    assert Inside(m, lvl) == "" + "";
  }

  lemma PrintAround(m: Tag, k: Tag, lvl: nat)
    requires m.children == [k]
    ensures Print(m, lvl)
            == Indent(lvl) + OpenTag(m) + "\n" + Print(k, lvl + 1) + (Indent(lvl) + "</" + m.name + ">\n")
  {
    hide OpenTag, Indent;
    assert PrintFrom([k], 1, lvl + 1) == "";
    assert PrintFrom([k], 0, lvl + 1) == Print(k, lvl + 1) + "" == Print(k, lvl + 1);
    assert Closing(m, lvl) == Indent(lvl) + ("</" + m.name + ">") + "\n" == Indent(lvl) + "</" + m.name + ">\n";
  }

  /** A document of three tags, one within the other, in normal form: two blanks for each
      level, attributes in quotes behind a blank, and an end tag for each that has children. */
  lemma PrintMeans(x: string, a: Attr, y: string, b: Attr, z: string, c: Attr, c': Attr)
    ensures var doc := Tag(x, [a], [Tag(y, [b], [Tag(z, [c, c'], [])])]);
            var first := "<" + x + (" " + (a.name + "=" + "\"" + a.value + "\"")) + ">";
            var second := "<" + y + (" " + (b.name + "=" + "\"" + b.value + "\"")) + ">";
            var third := "<" + z + (" " + (c.name + "=" + "\"" + c.value + "\"")
                                    + (" " + (c'.name + "=" + "\"" + c'.value + "\""))) + " />";
            Print(doc, 0)
            == "" + first + "\n"
               + ("  " + second + "\n"
                  + ("    " + third + "\n")
                  + ("  " + "</" + y + ">\n"))
               + ("" + "</" + x + ">\n")
  {
    hide OpenTag, Indent, Print;
    Indents();
    var leaf := Tag(z, [c, c'], []);
    var node := Tag(y, [b], [leaf]);
    PrintLeaf(leaf, 2);
    OpenTwo(z, c, c');
    PrintAround(node, leaf, 1);
    OpenOne(y, b, [leaf]);
    PrintAround(Tag(x, [a], [node]), node, 0);
    OpenOne(x, a, [node]);
  }

  predicate NormalAttr(a: Attr) {
    Free(a.name, "\"<>") && '"' !in a.value
  }

  // Names without special characters and values without quotes.
  predicate WellNamed(m: Tag) {
    && m.name != "" && Free(m.name, "\"<>/ \n")
    && (forall i :: 0 <= i < |m.attrs| ==> NormalAttr(m.attrs[i]))
  }

  predicate WellNamedTree(m: Tag) {
    WellNamed(m) && forall i :: 0 <= i < |m.children| ==> WellNamedTree(m.children[i])
  }

  // ... and an attribute on every tag that has children.
  predicate NormalTag(m: Tag) {
    WellNamed(m) && (m.children != [] ==> m.attrs != [])
  }

  predicate NormalTree(m: Tag) {
    NormalTag(m) && forall i :: 0 <= i < |m.children| ==> NormalTree(m.children[i])
  }

  lemma {:induction false} NormalIsNamed(m: Tag)
    requires NormalTree(m)
    ensures WellNamedTree(m)
  {
    forall i | 0 <= i < |m.children| ensures WellNamedTree(m.children[i]) { NormalIsNamed(m.children[i]); }
  }

  // No tag with children in m is called x.
  predicate NoContainer(m: Tag, x: string) {
    (m.children != [] ==> m.name != x) && forall i :: 0 <= i < |m.children| ==> NoContainer(m.children[i], x)
  }

  // No tag is its own ancestor.
  predicate NoSelfNesting(m: Tag) {
    forall i :: 0 <= i < |m.children| ==> NoContainer(m.children[i], m.name) && NoSelfNesting(m.children[i])
  }

  // ------------------------------------------------- std::string searches

  const NPOS: nat := 0xFFFF_FFFF_FFFF_FFFF

  function FindChar(s: string, c: char, p: nat): (r: nat)
    ensures r == NPOS || (p <= r < |s| && s[r] == c)
    decreases |s| - p
  {
    if p >= |s| then NPOS else if s[p] == c then p else FindChar(s, c, p + 1)
  }

  // The last c at or before position p, which may be NPOS.
  function FindLast(s: string, c: char, p: nat): (r: nat)
    decreases p
  {
    if s == "" then NPOS
    else if p >= |s| then FindLast(s, c, |s| - 1)
    else if s[p] == c then p
    else if p == 0 then NPOS
    else FindLast(s, c, p - 1)
  }

  function FindText(s: string, pat: string, p: nat): (r: nat)
    ensures r == NPOS || (p <= r && At(s, r, pat))
    decreases |s| - p
  {
    if p >= |s| then NPOS else if At(s, p, pat) then p else FindText(s, pat, p + 1)
  }

  // The first place from p on, outside quotes, where pat stands; inq: p is inside quotes.
  function Outside(s: string, p: nat, inq: bool, pat: string): (r: nat)
    ensures r == NPOS || (p <= r < |s| && At(s, r, pat))
    decreases |s| - p
  {
    if p >= |s| then NPOS
    else if !inq && At(s, p, pat) then p
    else Outside(s, p + 1, if s[p] == '"' then !inq else inq, pat)
  }

  predicate Balanced(s: string, p: nat, inq: bool)
    decreases |s| - p
  {
    if p >= |s| then !inq else Balanced(s, p + 1, if s[p] == '"' then !inq else inq)
  }

  // The search for etag meets the end of every string it enters: quotes are balanced, or
  // etag is found.
  predicate StringsEnd(s: string, p: nat, inq: bool, etag: string) {
    Balanced(s, p, inq) || Outside(s, p, inq, etag) != NPOS
  }

  /** The searches of std::string: the first place from p on. */
  lemma {:induction false} FindCharMeans(s: string, c: char, p: nat)
    requires |s| < NPOS
    ensures var r := FindChar(s, c, p);
            if r == 0xFFFF_FFFF_FFFF_FFFF then forall i :: p <= i < |s| ==> s[i] != c
            else p <= r < |s| && s[r] == c && forall i :: p <= i < r ==> s[i] != c
    decreases |s| - p
  {
    if p < |s| && s[p] != c { FindCharMeans(s, c, p + 1); }
  }

  // The last place up to p.
  lemma {:induction false} FindLastMeans(s: string, c: char, p: nat)
    requires |s| < NPOS
    ensures var r := FindLast(s, c, p);
            if r == 0xFFFF_FFFF_FFFF_FFFF then forall i :: 0 <= i < |s| && i <= p ==> s[i] != c
            else r <= p && r < |s| && s[r] == c && forall i :: r < i < |s| && i <= p ==> s[i] != c
    decreases p
  {
    if s != "" {
      if p >= |s| {
        FindLastMeans(s, c, |s| - 1);
      } else if s[p] != c && p > 0 {
        FindLastMeans(s, c, p - 1);
      }
    }
  }

  predicate Stands(s: string, i: nat, pat: string) {
    i + |pat| <= |s| && s[i..i + |pat|] == pat
  }

  lemma AtStands(s: string, p: nat, pat: string)
    requires pat != ""
    ensures At(s, p, pat) <==> Stands(s, p, pat)
  {
    if At(s, p, pat) { AtInside(s, p, pat); }
    if Stands(s, p, pat) { AtSlice(s, p, |pat|); }
  }

  lemma {:induction false} FindTextMeans(s: string, pat: string, p: nat)
    requires |s| < NPOS && pat != ""
    ensures var r := FindText(s, pat, p);
            if r == 0xFFFF_FFFF_FFFF_FFFF then forall i :: i >= p ==> !Stands(s, i, pat)
            else p <= r < |s| && Stands(s, r, pat) && forall i :: p <= i < r ==> !Stands(s, i, pat)
    decreases |s| - p
  {
    hide At;
    if p < |s| {
      AtStands(s, p, pat);
      if !At(s, p, pat) { FindTextMeans(s, pat, p + 1); }
    }
  }

  function Quotes(s: string): (n: nat) {
    if s == "" then 0 else (if s[0] == '"' then 1 else 0) + Quotes(s[1..])
  }

  // Is position i inside of a string, if position p is (inq) or is not?
  predicate InString(s: string, p: nat, inq: bool, i: nat)
    requires p <= i <= |s|
  {
    (Quotes(s[p..i]) + if inq then 1 else 0) % 2 == 1
  }

  lemma InStringStep(s: string, p: nat, inq: bool, i: nat)
    requires p <= i <= |s|
    ensures i == p ==> InString(s, p, inq, i) == inq
    ensures i > p ==> InString(s, p, inq, i) == InString(s, p + 1, if s[p] == '"' then !inq else inq, i)
  {
    if i == p {
      assert s[p..p] == "";
    } else {
      assert s[p..i][1..] == s[p + 1..i];
    }
  }

  /** The first place outside of strings: behind an even number of quotes. */
  lemma {:induction false} OutsideMeans(s: string, p: nat, inq: bool, pat: string)
    requires |s| < NPOS && pat != "" && p <= |s|
    ensures var r := Outside(s, p, inq, pat);
            if r == 0xFFFF_FFFF_FFFF_FFFF then
              forall i :: p <= i < |s| && Stands(s, i, pat) ==> InString(s, p, inq, i)
            else
              && p <= r < |s| && Stands(s, r, pat) && !InString(s, p, inq, r)
              && forall i :: p <= i < r && Stands(s, i, pat) ==> InString(s, p, inq, i)
    decreases |s| - p
  {
    hide At, InString, Stands;
    if p < |s| {
      AtStands(s, p, pat);
      InStringStep(s, p, inq, p);
      if inq || !At(s, p, pat) {
        OutsideMeans(s, p + 1, if s[p] == '"' then !inq else inq, pat);
        forall i | p < i <= |s|
          ensures InString(s, p, inq, i) == InString(s, p + 1, if s[p] == '"' then !inq else inq, i)
        {
          InStringStep(s, p, inq, i);
        }
      }
    }
  }

  // ------------------------------------------------- reading one tag

  // Unclosed stands for the bad-header exception.
  datatype TagRead = Unclosed | TagRead(tag: string, level: int, next: nat)

  function LineOf(s: string, p: nat): (b: nat) {
    var l := FindLast(s, '\n', p);
    if l == NPOS then 0 else l + 1
  }

  /** The tag that starts at or after start, its level by indentation and the position
      after its line; without any tag left the level comes out negative. */
  function TagAt(s: string, start: nat): (r: TagRead) {
    var b := FindChar(s, '<', start);
    if b == NPOS then TagRead("", 0 - (1 + LineOf(s, b)) / 2, 1)
    else
      var e := Outside(s, b, false, ">");
      if e == NPOS then Unclosed else TagRead(s[b..e + 1], (b - LineOf(s, b)) / 2, e + 2)
  }

  // The loop of getTag, which copies the tag while it counts the quotes.
  method GetTag(s: string, start: nat) returns (r: TagRead)
    requires |s| < NPOS
    ensures r == TagAt(s, start)
  {
    hide FindChar, FindLast, Outside;
    var b := FindChar(s, '<', start);
    var bline: int := LineOf(s, b);
    if b == NPOS { return TagRead("", 0 - (1 + bline) / 2, 1); }
    var tag, e, quotes := "", b, 0;
    while e < |s|
      invariant b <= e <= |s| && tag == s[b..e]
      invariant Outside(s, e, quotes % 2 == 1, ">") == Outside(s, b, false, ">")
    {
      OutsideGt(s, e, quotes % 2 == 1);
      tag := tag + [s[e]];
      if s[e] == '"' {
        quotes := quotes + 1;
      } else if quotes % 2 == 0 && s[e] == '>' {
        break;
      }
      e := e + 1;
    }
    if e == |s| { return Unclosed; }
    return TagRead(tag, (b - bline) / 2, e + 2);
  }

  lemma OutsideGt(s: string, e: nat, inq: bool)
    requires e < |s|
    ensures Outside(s, e, inq, ">")
            == if !inq && s[e] == '>' then e else Outside(s, e + 1, if s[e] == '"' then !inq else inq, ">")
  {
    assert ">"[1..] == "";
  }

  function TagName(tag: string): (n: string) {
    if tag == "" then ""
    else var k := FindChar(tag, ' ', 0); if k == NPOS || k == 0 then tag[1..] else tag[1..k]
  }

  // ------------------------------------------------- skipping over one element

  predicate SelfClosing(tag: string) {
    |tag| >= 2 && tag[|tag| - 2..] == "/>"
  }

  // The position after the end of the element that starts at start; NPOS stands for the
  // bad-header exception.
  function EndTagAt(s: string, start: nat, tag: string): (p: nat) {
    if SelfClosing(tag) then
      var p := FindText(s, tag, start); if p == NPOS then NPOS else p + |tag| + 1
    else
      var etag := EndTag(TagName(tag));
      var p := Outside(s, start, false, etag); if p == NPOS then NPOS else p + |etag| + 1
  }

  // The loop of getEndTag, which steps from one quoted string to the next.
  method GetEndTag(s: string, start: nat, tag: string) returns (p: nat)
    requires |s| < NPOS
    requires SelfClosing(tag) || StringsEnd(s, start, false, EndTag(TagName(tag)))
    ensures p == EndTagAt(s, start, tag)
  {
    hide At, FindText, FindChar, Outside, StringsEnd, TagName, EndTag;
    if SelfClosing(tag) {
      p := FindText(s, tag, start);
      return if p == NPOS then NPOS else p + |tag| + 1;
    }
    var etag := EndTag(TagName(tag));
    EndTagStarts(TagName(tag));
    var p_etag := FindText(s, etag, start);
    var p_quote := FindChar(s, '"', start);
    ghost var x := start;
    while p_quote != NPOS && p_quote < p_etag
      invariant start <= x && StringsEnd(s, x, false, etag)
      invariant p_etag == FindText(s, etag, x) && p_quote == FindChar(s, '"', x)
      invariant Outside(s, x, false, etag) == Outside(s, start, false, etag)
      decreases |s| - x
    {
      NextString(s, x, p_quote, etag);
      p_quote := FindChar(s, '"', p_quote + 1);
      x := p_quote + 1;
      if p_quote > p_etag {
        p_etag := FindText(s, etag, p_quote + 1);
      }
      p_quote := FindChar(s, '"', p_quote + 1);
    }
    NoMoreStrings(s, x, etag);
    return if p_etag == NPOS then NPOS else p_etag + |etag| + 1;
  }

  // No quote before the first occurrence: it is outside all strings.
  lemma {:induction false} NoMoreStrings(s: string, x: nat, etag: string)
    requires |s| < NPOS
    requires FindChar(s, '"', x) == NPOS || FindChar(s, '"', x) >= FindText(s, etag, x)
    ensures Outside(s, x, false, etag) == FindText(s, etag, x)
    decreases |s| - x
  {
    if x < |s| && !At(s, x, etag) {
      NoMoreStrings(s, x + 1, etag);
    }
  }

  // From the opening quote q, the first after x, on to the position after its string.
  lemma NextString(s: string, x: nat, q: nat, etag: string)
    requires |s| < NPOS && StringsEnd(s, x, false, etag) && etag != "" && etag[0] == '<'
    requires q == FindChar(s, '"', x) && q < FindText(s, etag, x)
    ensures var q2 := FindChar(s, '"', q + 1);
            && x < q2 + 1 <= |s| && StringsEnd(s, q2 + 1, false, etag)
            && Outside(s, q2 + 1, false, etag) == Outside(s, x, false, etag)
            && q2 != FindText(s, etag, x)
            && (FindText(s, etag, x) > q2 ==> FindText(s, etag, q2 + 1) == FindText(s, etag, x))
  {
    BeforeString(s, x, etag);
    InsideString(s, q + 1, etag);
    var q2 := FindChar(s, '"', q + 1);
    FindTextLater(s, x, q2 + 1, etag);
  }

  lemma {:induction false} BeforeString(s: string, x: nat, etag: string)
    requires |s| < NPOS && StringsEnd(s, x, false, etag) && etag != "" && etag[0] == '<'
    requires FindChar(s, '"', x) < FindText(s, etag, x) && FindChar(s, '"', x) != NPOS
    ensures var q := FindChar(s, '"', x);
            StringsEnd(s, q + 1, true, etag) && Outside(s, q + 1, true, etag) == Outside(s, x, false, etag)
    decreases |s| - x
  {
    if s[x] != '"' {
      BeforeString(s, x + 1, etag);
    }
  }

  lemma {:induction false} InsideString(s: string, x: nat, etag: string)
    requires |s| < NPOS && StringsEnd(s, x, true, etag)
    ensures var q := FindChar(s, '"', x);
            && q != NPOS && StringsEnd(s, q + 1, false, etag)
            && Outside(s, q + 1, false, etag) == Outside(s, x, true, etag)
    decreases |s| - x
  {
    if s[x] != '"' {
      InsideString(s, x + 1, etag);
    }
  }

  lemma {:induction false} FindTextLater(s: string, x: nat, y: nat, etag: string)
    requires |s| < NPOS && x <= y <= |s|
    ensures FindText(s, etag, x) >= y ==> FindText(s, etag, y) == FindText(s, etag, x)
    decreases y - x
  {
    if x < y {
      FindTextLater(s, x + 1, y, etag);
    }
  }

  // ------------------------------------------------- scanning printed text

  lemma {:induction false} SkipPlain(s: string, p: nat, t: string, pat: string)
    requires At(s, p, t) && pat != "" && pat[0] !in t && '"' !in t
    ensures Outside(s, p, false, pat) == Outside(s, p + |t|, false, pat)
    decreases |t|
  {
    if t != "" {
      assert pat[0] !in t[1..] && '"' !in t[1..];
      SkipPlain(s, p + 1, t[1..], pat);
    }
  }

  lemma OutsideHere(s: string, p: nat, pat: string)
    requires At(s, p, pat) && pat != ""
    ensures Outside(s, p, false, pat) == p < |s|
  {
  }

  lemma OutsideStep(s: string, p: nat, pat: string)
    requires p < |s| && s[p] != '"' && !At(s, p, pat)
    ensures Outside(s, p, false, pat) == Outside(s, p + 1, false, pat)
  {
  }

  lemma {:induction false} SkipQuoted(s: string, p: nat, v: string, pat: string)
    requires At(s, p, v) && '"' !in v
    ensures Outside(s, p, true, pat) == Outside(s, p + |v|, true, pat)
    decreases |v|
  {
    if v != "" {
      assert '"' !in v[1..];
      SkipQuoted(s, p + 1, v[1..], pat);
    }
  }

  lemma SkipString(s: string, p: nat, v: string, pat: string)
    requires At(s, p, "\"" + v + "\"") && '"' !in v && pat != "" && pat[0] != '"'
    ensures Outside(s, p, false, pat) == Outside(s, p + |v| + 2, false, pat)
  {
    AtConcat(s, p, "\"" + v, "\"");
    AtConcat(s, p, "\"", v);
    SkipQuoted(s, p + 1, v, pat);
  }

  lemma SkipAttr(s: string, p: nat, a: Attr, pat: string)
    requires At(s, p, " " + OneAttr(a)) && NormalAttr(a) && pat != "" && pat[0] in "<>"
    ensures Outside(s, p, false, pat) == Outside(s, p + |" " + OneAttr(a)|, false, pat)
  {
    var head, tail := " " + a.name + "=", "\"" + a.value + "\"";
    assert " " + OneAttr(a) == head + tail;
    AtConcat(s, p, head, tail);
    assert pat[0] !in head && '"' !in head by {
      var cs := "\"<>";
      assert cs[0] == '"' && cs[1] == '<' && cs[2] == '>';
    }
    SkipPlain(s, p, head, pat);
    SkipString(s, p + |head|, a.value, pat);
  }

  lemma {:induction false} SkipAttrs(s: string, p: nat, attrs: seq<Attr>, pat: string)
    requires At(s, p, AttrText(attrs)) && pat != "" && pat[0] in "<>"
    requires forall i :: 0 <= i < |attrs| ==> NormalAttr(attrs[i])
    ensures Outside(s, p, false, pat) == Outside(s, p + |AttrText(attrs)|, false, pat)
    decreases |attrs|
  {
    if attrs != [] {
      var one := " " + OneAttr(attrs[0]);
      AtConcat(s, p, one, AttrText(attrs[1..]));
      SkipAttr(s, p, attrs[0], pat);
      SkipAttrs(s, p + |one|, attrs[1..], pat);
    }
  }

  // The opening tag is one whole tag: its only > outside quotes is the last character.
  lemma OpenTagCloses(s: string, p: nat, m: Tag)
    requires At(s, p, OpenTag(m)) && WellNamed(m)
    ensures Outside(s, p, false, ">") == p + |OpenTag(m)| - 1
  {
    hide At, Outside, AttrText;
    var head, attrs := "<" + m.name, AttrText(m.attrs);
    AtConcat(s, p, head + attrs, Tail(m));
    AtConcat(s, p, head, attrs);
    NameIsPlain(m);
    SkipPlain(s, p, head, ">");
    SkipAttrs(s, p + |head|, m.attrs, ">");
    var q := p + |head + attrs|;
    if m.children == [] {
      AtConcat(s, q, " /", ">");
      assert " />" == " /" + ">";
      SkipPlain(s, q, " /", ">");
      OutsideHere(s, q + 2, ">");
    } else {
      OutsideHere(s, q, ">");
    }
  }

  lemma NameIsPlain(m: Tag)
    requires WellNamed(m)
    ensures '"' !in m.name && '<' !in m.name && '>' !in m.name && '/' !in m.name && ' ' !in m.name && '\n' !in m.name
  {
    var cs := "\"<>/ \n";
    assert cs[0] == '"' && cs[1] == '<' && cs[2] == '>' && cs[3] == '/' && cs[4] == ' ' && cs[5] == '\n';
  }

  lemma SecondChar(s: string, p: nat, t: string)
    requires At(s, p, t) && |t| >= 2
    ensures p + 1 < |s| && s[p] == t[0] && s[p + 1] == t[1]
  {
    assert At(s, p + 1, t[1..]);
  }

  // An opening tag contains no end tag.
  lemma SkipOpenTag(s: string, p: nat, m: Tag, x: string)
    requires At(s, p, OpenTag(m)) && WellNamed(m)
    ensures Outside(s, p, false, EndTag(x)) == Outside(s, p + |OpenTag(m)|, false, EndTag(x))
  {
    hide At, Outside, AttrText;
    var etag, attrs := EndTag(x), AttrText(m.attrs);
    var head := "<" + m.name;
    AtConcat(s, p, head + attrs, Tail(m));
    AtConcat(s, p, head, attrs);
    AtConcat(s, p, "<", m.name);
    NameIsPlain(m);
    SecondChar(s, p, head);
    assert m.name[0] in m.name;
    if At(s, p, etag) { SecondChar(s, p, etag); }
    OutsideStep(s, p, etag);
    SkipPlain(s, p + 1, m.name, etag);
    SkipAttrs(s, p + |head|, m.attrs, etag);
    SkipPlain(s, p + |head + attrs|, Tail(m), etag);
  }

  // The end tag at p determines the name.
  lemma EndTagNames(s: string, p: nat, n: string, x: string)
    requires At(s, p, EndTag(n)) && At(s, p, EndTag(x)) && '>' !in n && '>' !in x
    ensures n == x
  {
    NameEnds(s, p, n);
    NameEnds(s, p, x);
  }

  lemma NameEnds(s: string, p: nat, n: string)
    requires At(s, p, EndTag(n)) && '>' !in n
    ensures FindChar(s, '>', p + 2) == p + 2 + |n| < |s| && s[p + 2..p + 2 + |n|] == n
  {
    assert EndTag(n) == "</" + n + ">";
    AtConcat(s, p, "</" + n, ">");
    AtConcat(s, p, "</", n);
    AtInside(s, p + 2, n);
    FindAfter(s, p + 2, n, '>');
  }

  lemma {:induction false} FindAfter(s: string, p: nat, t: string, c: char)
    requires At(s, p, t) && c !in t
    ensures FindChar(s, c, p) == FindChar(s, c, p + |t|)
    decreases |t|
  {
    if t != "" {
      assert c !in t[1..];
      FindAfter(s, p + 1, t[1..], c);
    }
  }

  // What getEndTag looks for, "</" + x + ">", is not in the line of the end tag of n.
  predicate Foreign(n: string, x: string) {
    || (n != x && '>' !in x)
    || (x != "" && x[|x| - 1] == '>' && '>' !in x[..|x| - 1])
  }

  // ... nor in the line of any end tag below m.
  predicate Passable(m: Tag, x: string) {
    (m.children != [] ==> Foreign(m.name, x)) && forall i :: 0 <= i < |m.children| ==> Passable(m.children[i], x)
  }

  lemma {:induction false} OthersPass(m: Tag, x: string)
    requires NoContainer(m, x) && '>' !in x
    ensures Passable(m, x)
  {
    forall i | 0 <= i < |m.children| ensures Passable(m.children[i], x) { OthersPass(m.children[i], x); }
  }

  // With a closing angle too much, the end tag is not in any printed line.
  lemma {:induction false} AnglePasses(m: Tag, x: string)
    requires '>' !in x
    ensures Foreign(m.name, x + ">") && Passable(m, x + ">")
  {
    assert (x + ">")[..|x + ">"| - 1] == x;
    forall i | 0 <= i < |m.children| ensures Passable(m.children[i], x + ">") { AnglePasses(m.children[i], x); }
  }

  // The end tag of n is not the end tag of another name x.
  lemma SkipEndTag(s: string, p: nat, n: string, x: string)
    requires At(s, p, EndTag(n)) && n != x && Free(n, "\"<>/ \n") && '>' !in x
    ensures Outside(s, p, false, EndTag(x)) == Outside(s, p + |EndTag(n)|, false, EndTag(x))
  {
    var etag, rest := EndTag(x), "/" + n + ">";
    var cs := "\"<>/ \n";
    assert cs[0] == '"' && cs[1] == '<' && cs[2] == '>';
    assert EndTag(n) == "<" + rest;
    AtConcat(s, p, "<", rest);
    assert '<' !in rest && '"' !in rest;
    SkipPlain(s, p + 1, rest, etag);
    if At(s, p, etag) { EndTagNames(s, p, n, x); }
  }

  // No container called x in the tree: its text contains no end tag of x.
  lemma {:induction false} SkipTree(s: string, p: nat, m: Tag, lvl: nat, x: string)
    requires At(s, p, Print(m, lvl)) && WellNamedTree(m) && Passable(m, x)
    ensures Outside(s, p, false, EndTag(x)) == Outside(s, p + |Print(m, lvl)|, false, EndTag(x))
    decreases m
  {
    hide At, Outside, Indent, OpenTag, Inside, EndTag, WellNamedTree, Passable;
    var open, inside := Indent(lvl) + OpenTag(m) + "\n", Inside(m, lvl);
    NamedHead(m);
    AtConcat(s, p, open, inside);
    SkipOpenLine(s, p, m, lvl, x);
    SkipInside(s, p + |open|, m, lvl, x);
  }

  lemma SkipOpenLine(s: string, p: nat, m: Tag, lvl: nat, x: string)
    requires At(s, p, Indent(lvl) + OpenTag(m) + "\n") && WellNamed(m)
    ensures Outside(s, p, false, EndTag(x)) == Outside(s, p + |Indent(lvl) + OpenTag(m) + "\n"|, false, EndTag(x))
  {
    hide At, Outside, Indent, OpenTag, WellNamed;
    AtConcat(s, p, Indent(lvl) + OpenTag(m), "\n");
    AtConcat(s, p, Indent(lvl), OpenTag(m));
    IndentIsBlank(lvl);
    SkipPlain(s, p, Indent(lvl), EndTag(x));
    SkipOpenTag(s, p + 2 * lvl, m, x);
    SkipPlain(s, p + 2 * lvl + |OpenTag(m)|, "\n", EndTag(x));
  }

  lemma {:induction false} IndentIsBlank(lvl: nat)
    ensures forall c :: c in Indent(lvl) ==> c == ' '
  {
    if lvl > 0 { IndentIsBlank(lvl - 1); }
  }

  lemma {:induction false} SkipInside(s: string, p: nat, m: Tag, lvl: nat, x: string)
    requires At(s, p, Inside(m, lvl)) && WellNamedTree(m) && Passable(m, x)
    ensures Outside(s, p, false, EndTag(x)) == Outside(s, p + |Inside(m, lvl)|, false, EndTag(x))
    decreases m, 0
  {
    hide At, Outside, Indent, OpenTag, EndTag, WellNamed, Print, PrintFrom;
    var forest := PrintFrom(m.children, 0, lvl + 1);
    AtConcat(s, p, forest, Closing(m, lvl));
    SkipForest(s, p, m.children, 0, lvl + 1, x);
    if m.children != [] {
      SkipClosing(s, p + |forest|, m, lvl, x);
    }
  }

  lemma SkipClosing(s: string, p: nat, m: Tag, lvl: nat, x: string)
    requires m.children != [] && At(s, p, Closing(m, lvl)) && WellNamed(m) && Foreign(m.name, x)
    ensures Outside(s, p, false, EndTag(x)) == Outside(s, p + |Closing(m, lvl)|, false, EndTag(x))
  {
    hide At, Outside, Indent;
    AtConcat(s, p, Indent(lvl) + EndTag(m.name), "\n");
    AtConcat(s, p, Indent(lvl), EndTag(m.name));
    IndentIsBlank(lvl);
    SkipPlain(s, p, Indent(lvl), EndTag(x));
    if m.name != x && '>' !in x {
      SkipEndTag(s, p + 2 * lvl, m.name, x);
    } else {
      SkipShortEnd(s, p + 2 * lvl, m.name, x[..|x| - 1]);
      assert x == x[..|x| - 1] + ">";
    }
    SkipPlain(s, p + 2 * lvl + |EndTag(m.name)|, "\n", EndTag(x));
  }

  // An end tag and the end of its line: no second angle follows the first.
  lemma SkipShortEnd(s: string, p: nat, n: string, y: string)
    requires At(s, p, EndTag(n)) && At(s, p + |EndTag(n)|, "\n") && Free(n, "\"<>/ \n") && '>' !in y
    ensures Outside(s, p, false, EndTag(y + ">")) == Outside(s, p + |EndTag(n)|, false, EndTag(y + ">"))
  {
    hide Outside;
    var etag, rest := EndTag(y + ">"), "/" + n + ">";
    var cs := "\"<>/ \n";
    assert cs[0] == '"' && cs[1] == '<' && cs[2] == '>';
    assert EndTag(n) == "<" + rest && etag == EndTag(y) + ">";
    AtConcat(s, p, "<", rest);
    assert '<' !in rest && '"' !in rest;
    if At(s, p, etag) {
      AtConcat(s, p, EndTag(y), ">");
      EndTagNames(s, p, n, y);
    }
    OutsideStep(s, p, etag);
    SkipPlain(s, p + 1, rest, etag);
  }

  lemma {:induction false} SkipForest(s: string, p: nat, ms: seq<Tag>, i: nat, lvl: nat, x: string)
    requires i <= |ms| && At(s, p, PrintFrom(ms, i, lvl))
    requires forall j :: 0 <= j < |ms| ==> WellNamedTree(ms[j]) && Passable(ms[j], x)
    ensures Outside(s, p, false, EndTag(x)) == Outside(s, p + |PrintFrom(ms, i, lvl)|, false, EndTag(x))
    decreases ms, |ms| - i
  {
    hide At, Print, WellNamedTree, Passable, Outside, EndTag;
    if i < |ms| {
      AtConcat(s, p, Print(ms[i], lvl), PrintFrom(ms, i + 1, lvl));
      SkipTree(s, p, ms[i], lvl, x);
      SkipForest(s, p + |Print(ms[i], lvl)|, ms, i + 1, lvl, x);
    }
  }

  // ------------------------------------------------- what the walk reads

  lemma NameOf(m: Tag)
    requires NormalTag(m) && |OpenTag(m)| < NPOS
    ensures TagName(OpenTag(m)) == m.name
  {
    var tag := OpenTag(m);
    NameIsPlain(m);
    var head, rest := "<" + m.name, AttrText(m.attrs) + Tail(m);
    assert tag == head + rest && rest[0] == ' ';
    AtSlice(tag, 0, |head|);
    assert tag[0..|head|] == head && head[1..] == m.name && ' ' !in head;
    FindAfter(tag, 0, head, ' ');
    assert tag[|head|] == ' ';
  }

  // A line of the document: k levels of indentation, then one tag.
  lemma LineTag(s: string, p: nat, k: nat, tag: string)
    requires |s| < NPOS && At(s, p, Indent(k) + tag)
    requires p == 0 || s[p - 1] == '\n'
    requires tag != "" && tag[0] == '<' && Outside(s, p + 2 * k, false, ">") == p + 2 * k + |tag| - 1
    ensures TagAt(s, p) == TagRead(tag, k, p + 2 * k + |tag| + 1)
  {
    hide At, Outside, Indent, FindLast;
    AtConcat(s, p, Indent(k), tag);
    AtInside(s, p + 2 * k, tag);
    IndentIsBlank(k);
    FindAfter(s, p, Indent(k), '<');
    LastBreak(s, p, Indent(k), p + 2 * k);
  }

  // No line break from p up to b.
  lemma {:induction false} LastBreak(s: string, p: nat, t: string, b: nat)
    requires |s| < NPOS && At(s, p, t) && (p == 0 || s[p - 1] == '\n') && b == p + |t| < |s| && s[b] != '\n'
    requires forall c :: c in t ==> c == ' '
    ensures LineOf(s, b) == p
  {
    AtInside(s, p, t);
    forall i | p <= i < b
      ensures s[i] != '\n'
    {
      assert s[p..p + |t|][i - p] == s[i] && t[i - p] in t;
    }
    BackTo(s, p, b);
  }

  lemma {:induction false} BackTo(s: string, p: nat, b: nat)
    requires p <= b < |s| && (forall i :: p <= i <= b ==> s[i] != '\n') && (p == 0 || s[p - 1] == '\n')
    ensures FindLast(s, '\n', b) == if p == 0 then NPOS else p - 1
    decreases b
  {
    if b > p { BackTo(s, p, b - 1); }
  }

  lemma {:induction false} FindTextAfter(s: string, p: nat, t: string, pat: string)
    requires At(s, p, t) && pat != "" && pat[0] !in t
    ensures FindText(s, pat, p) == FindText(s, pat, p + |t|)
    decreases |t|
  {
    if t != "" {
      assert pat[0] !in t[1..];
      FindTextAfter(s, p + 1, t[1..], pat);
    }
  }

  lemma EndOfLeaf(s: string, p: nat, m: Tag, lvl: nat)
    requires |s| < NPOS && m.children == [] && At(s, p, Print(m, lvl))
    ensures SelfClosing(OpenTag(m)) && EndTagAt(s, p, OpenTag(m)) == p + |Print(m, lvl)|
  {
    hide At, EndTagAt, FindText, SelfClosing;
    LeafText(m, lvl);
    AtConcat(s, p, Indent(lvl), OpenTag(m) + "\n");
    AtConcat(s, p + 2 * lvl, OpenTag(m), "\n");
    IndentIsBlank(lvl);
    FindTextAfter(s, p, Indent(lvl), OpenTag(m));
    FindTextHere(s, p + 2 * lvl, OpenTag(m));
    AtInside(s, p + 2 * lvl, OpenTag(m));
    LeafIsClosed(m);
    EndTagAtLeaf(s, p, OpenTag(m));
  }

  lemma LeafText(m: Tag, lvl: nat)
    requires m.children == []
    ensures Print(m, lvl) == Indent(lvl) + (OpenTag(m) + "\n")
  {
    assert Inside(m, lvl) == "";
  }

  lemma FindTextHere(s: string, p: nat, pat: string)
    requires At(s, p, pat) && pat != ""
    ensures FindText(s, pat, p) == p
  {
  }

  lemma LeafIsClosed(m: Tag)
    requires m.children == []
    ensures SelfClosing(OpenTag(m))
  {
  }

  lemma EndTagAtLeaf(s: string, p: nat, tag: string)
    requires SelfClosing(tag)
    ensures EndTagAt(s, p, tag)
            == if FindText(s, tag, p) == NPOS then NPOS else FindText(s, tag, p) + |tag| + 1
  {
  }

  lemma EndTagAtContainer(s: string, p: nat, m: Tag)
    requires NormalTag(m) && m.children != [] && |OpenTag(m)| < NPOS
    ensures EndTagAt(s, p, OpenTag(m))
            == var q := Outside(s, p, false, EndTag(m.name)); if q == NPOS then NPOS else q + |EndTag(m.name)| + 1
    ensures !SelfClosing(OpenTag(m)) && TagName(OpenTag(m)) == m.name
  {
    NameOf(m);
    ContainerIsOpen(m);
  }

  lemma ContainerIsOpen(m: Tag)
    requires m.children != [] && m.attrs != []
    ensures !SelfClosing(OpenTag(m))
  {
    AttrsEndQuoted(m.attrs);
    var tag := OpenTag(m);
    assert tag == "<" + m.name + AttrText(m.attrs) + ">";
    assert tag[|tag| - 2] == AttrText(m.attrs)[|AttrText(m.attrs)| - 1];
  }

  lemma {:induction false} AttrsEndQuoted(attrs: seq<Attr>)
    requires attrs != []
    ensures AttrText(attrs) != "" && AttrText(attrs)[|AttrText(attrs)| - 1] == '"'
  {
    if |attrs| > 1 { AttrsEndQuoted(attrs[1..]); }
  }

  // The first end tag of m's name outside strings is m's own.
  lemma EndOfContainer(s: string, p: nat, m: Tag, lvl: nat)
    requires |s| < NPOS && m.children != [] && At(s, p, Print(m, lvl))
    requires WellNamedTree(m) && m.attrs != [] && NoSelfNesting(m) && |OpenTag(m)| < NPOS
    ensures StringsEnd(s, p, false, EndTag(m.name))
    ensures EndTagAt(s, p, OpenTag(m)) == p + |Print(m, lvl)|
  {
    hide At, Print, Inside, PrintFrom, Closing, Outside, EndTagAt, Balanced, EndTag, WellNamedTree, NoSelfNesting,
         NoContainer, WellNamed, Passable;
    ContainerParts(s, p, m, lvl);
    var line, forest := Indent(lvl) + OpenTag(m) + "\n", PrintFrom(m.children, 0, lvl + 1);
    SkipOpenLine(s, p, m, lvl, m.name);
    forall j | 0 <= j < |m.children| ensures Passable(m.children[j], m.name) { OthersPass(m.children[j], m.name); }
    SkipForest(s, p + |line|, m.children, 0, lvl + 1, m.name);
    OwnEndTag(s, p + |line| + |forest|, m, lvl);
    EndTagAtContainer(s, p, m);
  }

  lemma ContainerParts(s: string, p: nat, m: Tag, lvl: nat)
    requires m.children != [] && At(s, p, Print(m, lvl)) && WellNamedTree(m) && NoSelfNesting(m)
    ensures var line, forest := Indent(lvl) + OpenTag(m) + "\n", PrintFrom(m.children, 0, lvl + 1);
            && At(s, p, line) && At(s, p + |line|, forest) && At(s, p + |line| + |forest|, Closing(m, lvl))
            && |Print(m, lvl)| == |line| + |forest| + 2 * lvl + |EndTag(m.name)| + 1
    ensures WellNamed(m) && '>' !in m.name
    ensures forall j :: 0 <= j < |m.children| ==> WellNamedTree(m.children[j]) && NoContainer(m.children[j], m.name)
  {
    hide At, Outside;
    var line, forest := Indent(lvl) + OpenTag(m) + "\n", PrintFrom(m.children, 0, lvl + 1);
    AtConcat(s, p, line, Inside(m, lvl));
    AtConcat(s, p + |line|, forest, Closing(m, lvl));
    NameIsPlain(m);
  }

  lemma OwnEndTag(s: string, p: nat, m: Tag, lvl: nat)
    requires m.children != [] && At(s, p, Closing(m, lvl))
    ensures Outside(s, p, false, EndTag(m.name)) == p + 2 * lvl < |s|
  {
    AtConcat(s, p, Indent(lvl) + EndTag(m.name), "\n");
    AtConcat(s, p, Indent(lvl), EndTag(m.name));
    IndentIsBlank(lvl);
    SkipPlain(s, p, Indent(lvl), EndTag(m.name));
  }

  lemma TagFitsIn(s: string, p: nat, m: Tag, lvl: nat)
    requires At(s, p, Print(m, lvl))
    ensures |OpenTag(m)| <= |s|
  {
    AtInside(s, p, Print(m, lvl));
  }

  // ------------------------------------------------- containers in a document

  // A way from a tag down to one below it: the number of a child, and so on.
  predicate IsPath(d: Tag, a: seq<nat>)
    decreases |a|
  {
    a != [] ==> a[0] < |d.children| && IsPath(d.children[a[0]], a[1..])
  }

  function TagBelow(d: Tag, a: seq<nat>): (m: Tag)
    requires IsPath(d, a)
    decreases |a|
  {
    if a == [] then d else TagBelow(d.children[a[0]], a[1..])
  }

  // The text of the first i tags.
  function Ahead(ms: seq<Tag>, i: nat, lvl: nat): (n: nat)
    requires i <= |ms|
    decreases i
  {
    if i == 0 then 0 else Ahead(ms, i - 1, lvl) + |Print(ms[i - 1], lvl)|
  }

  // Where the text of child i of d begins, if that of d begins at p.
  function ChildPlace(d: Tag, lvl: nat, p: nat, i: nat): (q: nat)
    requires i < |d.children|
  {
    p + |Indent(lvl) + OpenTag(d) + "\n"| + Ahead(d.children, i, lvl + 1)
  }

  // Where the text of the tag below d begins.
  function Place(d: Tag, lvl: nat, p: nat, a: seq<nat>): (q: nat)
    requires IsPath(d, a)
    decreases |a|
  {
    if a == [] then p else Place(d.children[a[0]], lvl + 1, ChildPlace(d, lvl, p, a[0]), a[1..])
  }

  lemma {:induction false} AheadAt(s: string, p: nat, ms: seq<Tag>, i: nat, lvl: nat)
    requires i <= |ms| && At(s, p, PrintFrom(ms, 0, lvl))
    ensures At(s, p + Ahead(ms, i, lvl), PrintFrom(ms, i, lvl))
    ensures Ahead(ms, i, lvl) + |PrintFrom(ms, i, lvl)| == |PrintFrom(ms, 0, lvl)|
    decreases i
  {
    hide At, Print;
    if i > 0 {
      AheadAt(s, p, ms, i - 1, lvl);
      AtConcat(s, p + Ahead(ms, i - 1, lvl), Print(ms[i - 1], lvl), PrintFrom(ms, i, lvl));
    }
  }

  // Where child i of d begins and ends, and what follows it within d.
  lemma ChildAt(s: string, p: nat, d: Tag, lvl: nat, i: nat)
    requires i < |d.children| && At(s, p, Print(d, lvl))
    ensures var q := ChildPlace(d, lvl, p, i);
            var q' := q + |Print(d.children[i], lvl + 1)|;
            var rest := PrintFrom(d.children, i + 1, lvl + 1);
            && At(s, q, Print(d.children[i], lvl + 1)) && At(s, q', rest) && At(s, q' + |rest|, Closing(d, lvl))
            && q' + |rest| + |Closing(d, lvl)| == p + |Print(d, lvl)|
  {
    hide At, Ahead, Closing, Indent, OpenTag;
    var line, forest := Indent(lvl) + OpenTag(d) + "\n", PrintFrom(d.children, 0, lvl + 1);
    AtConcat(s, p, line, Inside(d, lvl));
    AtConcat(s, p + |line|, forest, Closing(d, lvl));
    AheadAt(s, p + |line|, d.children, i, lvl + 1);
    AtConcat(s, p + |line| + Ahead(d.children, i, lvl + 1), Print(d.children[i], lvl + 1),
             PrintFrom(d.children, i + 1, lvl + 1));
  }

  lemma {:induction false} PlacedAt(s: string, p: nat, d: Tag, lvl: nat, a: seq<nat>)
    requires IsPath(d, a) && At(s, p, Print(d, lvl)) && WellNamedTree(d)
    ensures At(s, Place(d, lvl, p, a), Print(TagBelow(d, a), lvl + |a|)) && WellNamedTree(TagBelow(d, a))
    decreases |a|
  {
    hide At, Print, ChildPlace, WellNamed;
    if a != [] {
      ChildAt(s, p, d, lvl, a[0]);
      PlacedAt(s, ChildPlace(d, lvl, p, a[0]), d.children[a[0]], lvl + 1, a[1..]);
    }
  }

  // From any tag below d to the end of d's text there is no end tag with two angles.
  lemma {:induction false} NoLongEnd(s: string, p: nat, d: Tag, lvl: nat, a: seq<nat>, x: string)
    requires IsPath(d, a) && At(s, p, Print(d, lvl)) && WellNamedTree(d) && '>' !in x
    ensures Outside(s, Place(d, lvl, p, a), false, EndTag(x + ">"))
            == Outside(s, p + |Print(d, lvl)|, false, EndTag(x + ">"))
    decreases |a|
  {
    hide At, Print, WellNamed, Outside, EndTag, PrintFrom, Closing, ChildPlace, Foreign, Passable;
    AnglePasses(d, x);
    if a == [] {
      SkipTree(s, p, d, lvl, x + ">");
    } else {
      var i := a[0];
      var q := ChildPlace(d, lvl, p, i);
      var rest, q' := PrintFrom(d.children, i + 1, lvl + 1), q + |Print(d.children[i], lvl + 1)|;
      ChildAt(s, p, d, lvl, i);
      NoLongEnd(s, q, d.children[i], lvl + 1, a[1..], x);
      forall j | 0 <= j < |d.children| ensures Passable(d.children[j], x + ">") { AnglePasses(d.children[j], x); }
      SkipForest(s, q', d.children, i + 1, lvl + 1, x + ">");
      SkipClosing(s, q' + |rest|, d, lvl, x + ">");
    }
  }

  /** In the text of a document, getEndTag finds the end of a container, at any depth and
      from its own place, exactly when its tag has an attribute: without one it cuts the
      name to include the closing angle, and finds no end at all. */
  lemma EndNeedsAttribute(d: Tag, a: seq<nat>)
    requires WellNamedTree(d) && |Print(d, 0)| < NPOS && IsPath(d, a)
    requires TagBelow(d, a).children != [] && NoSelfNesting(TagBelow(d, a))
    ensures var s, m, p := Print(d, 0), TagBelow(d, a), Place(d, 0, 0, a);
            && At(s, p, Print(m, |a|)) && p + |Print(m, |a|)| < NPOS
            && EndTagAt(s, p, OpenTag(m)) == (if m.attrs != [] then p + |Print(m, |a|)| else NPOS)
  {
    hide At, Outside, NoSelfNesting, WellNamedTree, Print, EndTagAt, EndTag, TagName, SelfClosing, WellNamed, Place,
         TagBelow;
    var s, m, p := Print(d, 0), TagBelow(d, a), Place(d, 0, 0, a);
    AtSlice(s, 0, |s|);
    assert s[0..|s|] == s;
    PlacedAt(s, 0, d, 0, a);
    AtInside(s, p, Print(m, |a|));
    TagFitsIn(s, p, m, |a|);
    if m.attrs != [] {
      EndOfContainer(s, p, m, |a|);
    } else {
      NamedHead(m);
      NameIsPlain(m);
      NoLongEnd(s, 0, d, 0, a, m.name);
      NothingBehind(s, EndTag(m.name + ">"));
      BareName(m);
      EndTagAtOpen(s, p, OpenTag(m));
    }
  }

  lemma NothingBehind(s: string, pat: string)
    ensures Outside(s, |s|, false, pat) == NPOS
  {
  }

  lemma NamedHead(m: Tag)
    requires WellNamedTree(m)
    ensures WellNamed(m)
  {
  }

  lemma EndTagAtOpen(s: string, p: nat, tag: string)
    requires !SelfClosing(tag) && Outside(s, p, false, EndTag(TagName(tag))) == NPOS
    ensures EndTagAt(s, p, tag) == NPOS
  {
  }

  lemma BareName(m: Tag)
    requires m.children != [] && m.attrs == [] && WellNamed(m) && |OpenTag(m)| < NPOS
    ensures !SelfClosing(OpenTag(m)) && TagName(OpenTag(m)) == m.name + ">"
  {
    var tag := OpenTag(m);
    NameIsPlain(m);
    assert tag == "<" + m.name + ">" && tag[1..] == m.name + ">";
    assert ' ' !in tag && '/' !in tag;
    assert |tag| >= 3 && tag[|tag| - 2] in tag;
    assert tag[|tag| - 2..][0] == tag[|tag| - 2] != '/';
    AtSlice(tag, 0, |tag|);
    assert tag[0..|tag|] == tag;
    FindAfter(tag, 0, tag, ' ');
  }

  predicate LineStart(s: string, p: nat) {
    p == 0 || (p <= |s| && s[p - 1] == '\n')
  }

  // What comes next is no deeper than lvl: a sibling, the parent's end tag, or nothing.
  predicate Follows(s: string, p: nat, lvl: nat) {
    TagAt(s, p).TagRead? && TagAt(s, p).level <= lvl
  }

  // The text of m stands at p.
  predicate Whole(s: string, p: nat, m: Tag, lvl: nat) {
    && |s| < NPOS && LineStart(s, p) && At(s, p, Print(m, lvl))
    && NormalTree(m) && NoSelfNesting(m)
    && Follows(s, p + |Print(m, lvl)|, lvl)
  }

  function Remainder(m: Tag, i: nat, lvl: nat): (t: string)
    requires i <= |m.children|
  {
    PrintFrom(m.children, i, lvl + 1) + Closing(m, lvl)
  }

  // The text of m's children from number i on stands at p.
  predicate Inner(s: string, p: nat, m: Tag, i: nat, lvl: nat)
    requires i <= |m.children|
  {
    && |s| < NPOS && LineStart(s, p) && At(s, p, Remainder(m, i, lvl))
    && NormalTree(m) && NoSelfNesting(m)
    && Follows(s, p + |Remainder(m, i, lvl)|, lvl)
  }

  lemma AfterBreak(s: string, p: nat, t: string)
    requires At(s, p, t + "\n")
    ensures LineStart(s, p + |t| + 1)
  {
    AtInside(s, p, t + "\n");
    AtConcat(s, p, t, "\n");
  }

  lemma OpenTagStarts(m: Tag)
    ensures OpenTag(m) != "" && OpenTag(m)[0] == '<'
  {
  }

  lemma OpenLine(s: string, p: nat, m: Tag, lvl: nat)
    requires |s| < NPOS && LineStart(s, p) && At(s, p, Print(m, lvl)) && NormalTag(m)
    ensures var q := p + |Indent(lvl) + OpenTag(m)| + 1;
            && TagAt(s, p) == TagRead(OpenTag(m), lvl, q)
            && LineStart(s, q) && At(s, q, Inside(m, lvl))
  {
    hide At, TagAt, Outside, Inside, OpenTag, Indent;
    var line := Indent(lvl) + OpenTag(m);
    OpenTagStarts(m);
    AtConcat(s, p, line + "\n", Inside(m, lvl));
    AfterBreak(s, p, line);
    AtConcat(s, p, line, "\n");
    AtConcat(s, p, Indent(lvl), OpenTag(m));
    OpenTagCloses(s, p + 2 * lvl, m);
    LineTag(s, p, lvl, OpenTag(m));
  }

  lemma InnerStart(s: string, p: nat, m: Tag, lvl: nat)
    requires Whole(s, p, m, lvl)
    ensures var q := p + |Indent(lvl) + OpenTag(m)| + 1;
            TagAt(s, p) == TagRead(OpenTag(m), lvl, q) && Inner(s, q, m, 0, lvl)
  {
    hide At, TagAt, NoSelfNesting, NormalTree, PrintFrom, Closing, OpenTag, Indent;
    NormalHead(m);
    OpenLine(s, p, m, lvl);
  }

  lemma NormalHead(m: Tag)
    requires NormalTree(m)
    ensures NormalTag(m) && WellNamed(m)
  {
  }

  lemma InnerEnd(s: string, p: nat, m: Tag, lvl: nat)
    requires Inner(s, p, m, |m.children|, lvl)
    ensures Follows(s, p, lvl)
  {
    hide At, TagAt, NoSelfNesting, NormalTree, OpenTag, Outside, EndTag, NormalTag, Remainder, PrintFrom, Closing,
         Indent, WellNamed;
    var line := Indent(lvl) + EndTag(m.name);
    RemainderEnd(m, lvl);
    if m.children != [] {
      NormalHead(m);
      AtConcat(s, p, line, "\n");
      AtConcat(s, p, Indent(lvl), EndTag(m.name));
      EndTagCloses(s, p + 2 * lvl, m);
      EndTagStarts(m.name);
      LineTag(s, p, lvl, EndTag(m.name));
    }
  }

  lemma EndTagStarts(name: string)
    ensures EndTag(name) != "" && EndTag(name)[0] == '<'
  {
  }

  lemma RemainderEnd(m: Tag, lvl: nat)
    ensures Remainder(m, |m.children|, lvl)
            == if m.children == [] then "" else Indent(lvl) + EndTag(m.name) + "\n"
  {
  }

  lemma EndTagCloses(s: string, p: nat, m: Tag)
    requires At(s, p, EndTag(m.name)) && WellNamed(m)
    ensures Outside(s, p, false, ">") == p + |EndTag(m.name)| - 1
  {
    var head := "</" + m.name;
    NameIsPlain(m);
    AtConcat(s, p, head, ">");
    assert '>' !in head && '"' !in head;
    SkipPlain(s, p, head, ">");
  }

  // One round of the walk: the child's tag is read, its text is skipped.
  lemma InnerNext(s: string, p: nat, m: Tag, i: nat, lvl: nat)
    requires i < |m.children| && Inner(s, p, m, i, lvl)
    ensures var c := m.children[i];
            && Whole(s, p, c, lvl + 1)
            && TagAt(s, p) == TagRead(OpenTag(c), lvl + 1, p + |Indent(lvl + 1) + OpenTag(c)| + 1)
            && EndTagAt(s, p, OpenTag(c)) == p + |Print(c, lvl + 1)|
            && (SelfClosing(OpenTag(c)) || StringsEnd(s, p, false, EndTag(TagName(OpenTag(c)))))
            && TagName(OpenTag(c)) == c.name
            && Inner(s, p + |Print(c, lvl + 1)|, m, i + 1, lvl)
  {
    hide At, TagAt, NoSelfNesting, NormalTree, OpenTag, Indent, Print, Remainder, Outside, EndTag, EndTagAt, Balanced,
         SelfClosing, NormalTag, TagName;
    var c := m.children[i];
    NextText(s, p, m, i, lvl);
    ChildIsNormal(m, i);
    ChildFollowed(s, p + |Print(c, lvl + 1)|, m, i + 1, lvl);
    OpenLine(s, p, c, lvl + 1);
    TagFitsIn(s, p, c, lvl + 1);
    NameOf(c);
    if c.children == [] {
      EndOfLeaf(s, p, c, lvl + 1);
    } else {
      NormalIsNamed(c);
      EndOfContainer(s, p, c, lvl + 1);
    }
  }

  lemma ChildIsNormal(m: Tag, i: nat)
    requires i < |m.children| && NormalTree(m) && NoSelfNesting(m)
    ensures NormalTree(m.children[i]) && NormalTag(m.children[i]) && NoSelfNesting(m.children[i])
  {
  }

  // After a child comes its sibling or the end tag of its parent.
  lemma ChildFollowed(s: string, p: nat, m: Tag, i: nat, lvl: nat)
    requires i <= |m.children| && Inner(s, p, m, i, lvl)
    ensures Follows(s, p, lvl + 1)
  {
    hide At, TagAt, NoSelfNesting, NormalTree, OpenTag, Indent, Print, Remainder;
    if i < |m.children| {
      NextText(s, p, m, i, lvl);
      ChildIsNormal(m, i);
      OpenLine(s, p, m.children[i], lvl + 1);
    } else {
      InnerEnd(s, p, m, lvl);
    }
  }

  lemma NextText(s: string, p: nat, m: Tag, i: nat, lvl: nat)
    requires i < |m.children| && Inner(s, p, m, i, lvl)
    ensures At(s, p, Print(m.children[i], lvl + 1))
    ensures Inner(s, p + |Print(m.children[i], lvl + 1)|, m, i + 1, lvl)
  {
    hide At, TagAt, NoSelfNesting, NormalTree, OpenTag, Indent, Print, Remainder, LineStart;
    var text := Print(m.children[i], lvl + 1);
    RemainderStep(m, i, lvl);
    AtConcat(s, p, text, Remainder(m, i + 1, lvl));
    PrintEndsLine(s, p, m.children[i], lvl + 1);
  }

  lemma RemainderStep(m: Tag, i: nat, lvl: nat)
    requires i < |m.children|
    ensures Remainder(m, i, lvl) == Print(m.children[i], lvl + 1) + Remainder(m, i + 1, lvl)
  {
    hide Print, Closing;
    var text, rest := Print(m.children[i], lvl + 1), PrintFrom(m.children, i + 1, lvl + 1);
    assert (text + rest) + Closing(m, lvl) == text + (rest + Closing(m, lvl));
  }

  lemma PrintEndsLine(s: string, p: nat, m: Tag, lvl: nat)
    requires At(s, p, Print(m, lvl))
    ensures LineStart(s, p + |Print(m, lvl)|)
  {
    var line, text := Indent(lvl) + OpenTag(m), Print(m, lvl);
    if m.children == [] {
      LeafText(m, lvl);
      assert text == line + "\n";
      AfterBreak(s, p, line);
    } else {
      var front, last := line + "\n" + PrintFrom(m.children, 0, lvl + 1), Indent(lvl) + EndTag(m.name);
      assert Inside(m, lvl) == PrintFrom(m.children, 0, lvl + 1) + Closing(m, lvl);
      assert text == (line + "\n") + (PrintFrom(m.children, 0, lvl + 1) + (last + "\n"));
      assert text == (front + last) + "\n";
      AfterBreak(s, p, front + last);
    }
  }

  // ------------------------------------------------- the matcher

  /** synthesize: the codons for the tags of the file text src below the tag at p_src,
      matched with the reader's text ref below the tag at p_ref.  The ghost parameters
      name the model trees that the two texts print. */
  method Synthesize(src: string, p_src0: nat, ref: string, p_ref0: nat, ghost w: Tag, ghost r: Tag, ghost lvl: nat)
    returns (chrom: seq<Gene>)
    requires Whole(src, p_src0, w, lvl) && Whole(ref, p_ref0, r, lvl) && w.name == r.name
    ensures chrom == if TagsMatch(OpenTag(w), OpenTag(r)) then Genes(w, r) else []
    decreases w, 0
  {
    hide At, TagAt, EndTagAt, NoSelfNesting, NormalTree, OpenTag, Indent, Print, PrintFrom, Closing, LineStart,
         TagsMatch, GeneFor, SelfClosing, Outside, Balanced;
    chrom := [];
    InnerStart(src, p_src0, w, lvl);
    InnerStart(ref, p_ref0, r, lvl);
    var stag := GetTag(src, p_src0);
    var rtag := GetTag(ref, p_ref0);
    var matches := TagsMatchLoop(stag.tag, rtag.tag);
    if !matches { return; }
    var p_ref, p_src := rtag.next, stag.next;
    var s2tag := GetTag(src, p_src);
    ghost var i := 0;
    if i < |w.children| { InnerNext(src, p_src, w, i, lvl); } else { InnerEnd(src, p_src, w, lvl); }
    while s2tag.level > stag.level
      invariant i <= |w.children| && Inner(src, p_src, w, i, lvl)
      invariant s2tag == TagAt(src, p_src) && s2tag.TagRead?
      invariant s2tag.level > lvl <==> i < |w.children|
      invariant chrom == Genes(w, r)[..i]
      decreases |w.children| - i
    {
      InnerNext(src, p_src, w, i, lvl);
      var s2tagname := TagName(s2tag.tag);
      var order, sequence := MatchInRef(src, p_src, s2tag.tag, s2tag.level, ref, p_ref, w.children[i], r, lvl);
      chrom := chrom + [Gene(order, s2tagname, sequence)];
      p_src := GetEndTag(src, p_src, s2tag.tag);
      s2tag := GetTag(src, p_src);
      i := i + 1;
      if i < |w.children| { InnerNext(src, p_src, w, i, lvl); } else { InnerEnd(src, p_src, w, lvl); }
    }
  }

  // The inner loop of synthesize: look for the file's tag among the children of r.
  method MatchInRef(src: string, p_src: nat, s2tag: string, s2level: int, ref: string, p_ref: nat,
                    ghost wc: Tag, ghost r: Tag, ghost lvl: nat)
    returns (order: nat, sequence: seq<Gene>)
    requires Whole(src, p_src, wc, lvl + 1) && s2tag == OpenTag(wc) && s2level == lvl + 1
    requires TagName(OpenTag(wc)) == wc.name && Inner(ref, p_ref, r, 0, lvl)
    ensures Gene(order, wc.name, sequence) == GeneFor(wc, r)
    decreases wc, 1
  {
    hide At, TagAt, EndTagAt, NoSelfNesting, NormalTree, OpenTag, Indent, Print, PrintFrom, Closing, LineStart,
         TagsMatch, Genes, SelfClosing, Outside, Balanced;
    order, sequence := 0, [];
    var s2tagname := TagName(s2tag);
    var p2_ref, order_in_ref := p_ref, 1;
    var r2tag := GetTag(ref, p2_ref);
    ghost var k := 0;
    if k < |r.children| { InnerNext(ref, p2_ref, r, k, lvl); } else { InnerEnd(ref, p2_ref, r, lvl); }
    while r2tag.level == s2level
      invariant k <= |r.children| && order_in_ref == k + 1 && Inner(ref, p2_ref, r, k, lvl)
      invariant r2tag == TagAt(ref, p2_ref) && r2tag.TagRead?
      invariant r2tag.level == lvl + 1 <==> k < |r.children|
      invariant forall j :: 0 <= j < k ==> r.children[j].name != wc.name
      invariant order == 0 && sequence == []
      decreases |r.children| - k
    {
      InnerNext(ref, p2_ref, r, k, lvl);
      var r2tagname := TagName(r2tag.tag);
      if s2tagname == r2tagname {
        var matches := TagsMatchLoop(s2tag, r2tag.tag);
        if matches {
          order := order_in_ref;
          sequence := Synthesize(src, p_src, ref, p2_ref, wc, r.children[k], lvl + 1);
        }
        break;
      }
      p2_ref := GetEndTag(ref, p2_ref, r2tag.tag);
      r2tag := GetTag(ref, p2_ref);
      order_in_ref := order_in_ref + 1;
      k := k + 1;
      if k < |r.children| { InnerNext(ref, p2_ref, r, k, lvl); } else { InnerEnd(ref, p2_ref, r, lvl); }
    }
    assert FirstNamed(r.children, wc.name) == k;
  }
}
