/** The text of one tag in normal form, and the comparison of two such texts. */
module TagText {
  import opened Model

  function OneAttr(a: Attr): (s: string) {
    a.name + "=" + "\"" + a.value + "\""
  }

  function AttrText(attrs: seq<Attr>): (s: string) {
    if attrs == [] then "" else " " + OneAttr(attrs[0]) + AttrText(attrs[1..])
  }

  // A tag without children closes itself.
  function Tail(m: Tag): (s: string) {
    if m.children == [] then " />" else ">"
  }

  // The opening line of a tag without its indentation.
  function OpenTag(m: Tag): (s: string) {
    "<" + m.name + AttrText(m.attrs) + Tail(m)
  }

  predicate StartsWith(s: string, p: string) {
    |p| <= |s| && s[..|p|] == p
  }

  function DropRun(s: string, c: char): (r: string) {
    if s != "" && s[0] == c then DropRun(s[1..], c) else s
  }

  function AfterCommon(a: string, b: string): (r: (string, string))
  {
    if a != "" && b != "" && a[0] == b[0] then AfterCommon(a[1..], b[1..]) else (a, b)
  }

  function Loosened(s: string): (r: string) {
    DropRun(DropRun(s, ' '), '/')
  }

  // After the common part both go on alike, once a run of blanks and a run of slashes is skipped.
  predicate LooseMatch(a: string, b: string) {
    Loosened(AfterCommon(a, b).0) == Loosened(AfterCommon(a, b).1)
  }

  predicate TagsMatch(a: string, b: string) {
    a == b || (StartsWith(a, "<HDDM ") && StartsWith(b, "<HDDM ")) || LooseMatch(a, b)
  }

  // Two roots match whatever stands behind their name.
  lemma RootTexts(x: string, y: string)
    ensures TagsMatch("<HDDM " + x, "<HDDM " + y)
  {
    assert ("<HDDM " + x)[..6] == "<HDDM " == ("<HDDM " + y)[..6];
  }

  // The loops of tags_match: ia and ib run over a and b.
  method TagsMatchLoop(a: string, b: string) returns (match_: bool)
    ensures match_ == TagsMatch(a, b)
  {
    if a == b { return true; }
    if StartsWith(a, "<HDDM ") && StartsWith(b, "<HDDM ") { return true; }
    var ia, ib := 0, 0;
    assert a[ia..] == a && b[ib..] == b;
    while ia < |a| && ib < |b| && a[ia] == b[ib]
      invariant 0 <= ia == ib <= |a| && ib <= |b|
      invariant AfterCommon(a[ia..], b[ib..]) == AfterCommon(a, b)
    {
      ia, ib := ia + 1, ib + 1;
    }
    ia := SkipLoop(a, ia, ' ');
    ia := SkipLoop(a, ia, '/');
    ib := SkipLoop(b, ib, ' ');
    ib := SkipLoop(b, ib, '/');
    match_ := a[ia..] == b[ib..];
  }

  method SkipLoop(s: string, i: nat, c: char) returns (j: nat)
    requires i <= |s|
    ensures i <= j <= |s| && s[j..] == DropRun(s[i..], c)
  {
    j := i;
    while j < |s| && s[j] == c
      invariant i <= j <= |s| && DropRun(s[j..], c) == DropRun(s[i..], c)
    {
      assert s[j..][1..] == s[j + 1..];
      j := j + 1;
    }
  }

  // ------------------------------------------------- what is skipped

  function Run(c: char, n: nat): (s: string) {
    seq(n, _ => c)
  }

  // A text is i blanks, j slashes and then u, where no more of them could be skipped.
  predicate Skips(s: string, i: nat, j: nat, u: string) {
    && s == Run(' ', i) + Run('/', j) + u
    && (u != "" ==> u[0] != '/' && (j == 0 ==> u[0] != ' '))
  }

  lemma {:induction false} DropsRun(c: char, n: nat, u: string)
    requires u != "" ==> u[0] != c
    ensures DropRun(Run(c, n) + u, c) == u
  {
    if n == 0 {
      assert Run(c, 0) + u == u;
    } else {
      assert (Run(c, n) + u)[1..] == Run(c, n - 1) + u;
      DropsRun(c, n - 1, u);
    }
  }

  lemma LoosenedIs(s: string, i: nat, j: nat, u: string)
    requires Skips(s, i, j, u)
    ensures Loosened(s) == u
  {
    var more := Run('/', j) + u;
    assert s == Run(' ', i) + more;
    if more != "" { assert more[0] == if j > 0 then '/' else u[0]; }
    DropsRun(' ', i, more);
    DropsRun('/', j, u);
  }

  // Every text has these parts.
  lemma {:induction false} SomeSkips(s: string) returns (i: nat, j: nat, u: string)
    ensures Skips(s, i, j, u)
  {
    if s != "" && s[0] == ' ' {
      i, j, u := SomeSkips(s[1..]);
      assert s == [s[0]] + s[1..] && Run(' ', i + 1) == [' '] + Run(' ', i);
      i := i + 1;
    } else {
      j, u := SlashesOf(s);
      i := 0;
      assert s == Run(' ', 0) + Run('/', j) + u;
    }
  }

  lemma {:induction false} SlashesOf(s: string) returns (j: nat, u: string)
    ensures s == Run('/', j) + u && (u != "" ==> u[0] != '/') && (j == 0 ==> u == s)
  {
    if s != "" && s[0] == '/' {
      j, u := SlashesOf(s[1..]);
      assert s == [s[0]] + s[1..] && Run('/', j + 1) == ['/'] + Run('/', j);
      j := j + 1;
    } else {
      j, u := 0, s;
      assert Run('/', 0) + s == s;
    }
  }

  /** Two texts match loosely if they go on alike behind their common part, once a run of
      blanks and then a run of slashes is skipped in each. */
  lemma LooseMeans(p: string, x: string, y: string, i: nat, j: nat, u: string, k: nat, l: nat, v: string)
    requires x == "" || y == "" || x[0] != y[0]
    requires Skips(x, i, j, u) && Skips(y, k, l, v)
    ensures LooseMatch(p + x, p + y) <==> u == v
  {
    AfterCommonPrefix(p, x, y);
    LoosenedIs(x, i, j, u);
    LoosenedIs(y, k, l, v);
  }

  // ------------------------------------------------- what a match means

  predicate Free(s: string, cs: string) {
    forall i :: 0 <= i < |s| ==> s[i] !in cs
  }

  predicate Skipped(c: char) {
    c == ' ' || c == '/'
  }

  predicate XmlName(s: string) {
    ' ' !in s && '/' !in s && '=' !in s && '"' !in s
  }

  predicate SpelledAttr(a: Attr) {
    XmlName(a.name) && '"' !in a.value
  }

  // Attribute names are names of xml, and no value has quotes in it.
  predicate Spelled(attrs: seq<Attr>) {
    forall i :: 0 <= i < |attrs| ==> SpelledAttr(attrs[i])
  }

  // The lists differ in the value of attribute number i and in nothing else, and these two
  // values agree loosely.
  predicate LooseAt(a: seq<Attr>, b: seq<Attr>, i: nat) {
    && i < |a| == |b| && a[..i] == b[..i] && a[i + 1..] == b[i + 1..]
    && a[i].name == b[i].name && a[i].value != b[i].value && LooseMatch(a[i].value, b[i].value)
  }

  predicate OneLoose(a: seq<Attr>, b: seq<Attr>) {
    exists i :: 0 <= i < |a| && LooseAt(a, b, i)
  }

  /** What tags_match takes for one and the same tag, said of the tags and not of their text. */
  predicate SameTag(w: Tag, r: Tag) {
    w.attrs == r.attrs || (Tail(w) == Tail(r) && OneLoose(w.attrs, r.attrs))
  }

  lemma {:induction false} AfterCommonPrefix(p: string, x: string, y: string)
    ensures AfterCommon(p + x, p + y) == AfterCommon(x, y)
  {
    if p == "" {
      assert p + x == x && p + y == y;
    } else {
      assert (p + x)[1..] == p[1..] + x && (p + y)[1..] == p[1..] + y;
      AfterCommonPrefix(p[1..], x, y);
    }
  }

  lemma {:induction false} CommonSwaps(a: string, b: string)
    ensures AfterCommon(b, a) == (AfterCommon(a, b).1, AfterCommon(a, b).0)
  {
    if a != "" && b != "" && a[0] == b[0] { CommonSwaps(a[1..], b[1..]); }
  }

  lemma MatchSwaps(a: string, b: string)
    ensures LooseMatch(a, b) <==> LooseMatch(b, a)
  {
    CommonSwaps(a, b);
  }

  lemma MatchesItself(a: string)
    ensures LooseMatch(a, a)
  {
    AfterCommonPrefix(a, "", "");
    assert a + "" == a;
  }

  // Two texts that go on with different characters, neither of which is skipped.
  lemma HeadsDiffer(x: string, y: string)
    requires x != "" && y != "" && x[0] != y[0] && !Skipped(x[0]) && !Skipped(y[0])
    ensures !LooseMatch(x, y)
  {
  }

  lemma {:induction false} NamesDiffer(m: string, x: string, n: string, y: string)
    requires XmlName(m) && XmlName(n) && m != n
    ensures !LooseMatch(m + "=" + x, n + "=" + y)
  {
    var a, b := m + "=" + x, n + "=" + y;
    if m != "" && n != "" && m[0] == n[0] {
      assert a[1..] == m[1..] + "=" + x && b[1..] == n[1..] + "=" + y;
      assert m == [m[0]] + m[1..] && n == [n[0]] + n[1..];
      NamesDiffer(m[1..], x, n[1..], y);
    } else {
      assert a[0] == (if m == "" then '=' else m[0]) && b[0] == (if n == "" then '=' else n[0]);
      HeadsDiffer(a, b);
    }
  }

  lemma {:induction false} CommonQuoted(v: string, x: string, u: string, y: string)
    requires v != u && '"' !in v && '"' !in u
    ensures var (s, t) := AfterCommon(v, u);
            && AfterCommon(v + "\"" + x, u + "\"" + y) == (s + "\"" + x, t + "\"" + y)
            && '"' !in s && '"' !in t
  {
    if v != "" && u != "" && v[0] == u[0] {
      assert (v + "\"" + x)[1..] == v[1..] + "\"" + x && (u + "\"" + y)[1..] == u[1..] + "\"" + y;
      assert v == [v[0]] + v[1..] && u == [u[0]] + u[1..];
      CommonQuoted(v[1..], x, u[1..], y);
    }
  }

  lemma {:induction false} DropRunQuoted(s: string, x: string, c: char)
    requires c != '"' && '"' !in s
    ensures DropRun(s + "\"" + x, c) == DropRun(s, c) + "\"" + x && '"' !in DropRun(s, c)
  {
    if s != "" && s[0] == c {
      assert (s + "\"" + x)[1..] == s[1..] + "\"" + x;
      DropRunQuoted(s[1..], x, c);
    }
  }

  lemma LoosenedQuoted(s: string, x: string)
    requires '"' !in s
    ensures Loosened(s + "\"" + x) == Loosened(s) + "\"" + x && '"' !in Loosened(s)
  {
    hide DropRun;
    DropRunQuoted(s, x, ' ');
    DropRunQuoted(DropRun(s, ' '), x, '/');
  }

  // A text up to the first c determines what stands before and after it.
  lemma SplitAt(x: string, x': string, y: string, y': string, c: char)
    requires c !in x && c !in y
    ensures x + [c] + x' == y + [c] + y' <==> x == y && x' == y'
  {
    var l, r := x + [c] + x', y + [c] + y';
    if l == r {
      assert l[|x|] == c && r[|y|] == c;
      assert l[..|x|] == x && r[..|y|] == y;
      assert |x| == |y|;
      assert l[|x| + 1..] == x' && r[|y| + 1..] == y';
    }
  }

  lemma ValuesDiffer(v: string, x: string, u: string, y: string)
    requires v != u && '"' !in v && '"' !in u
    ensures LooseMatch(v + "\"" + x, u + "\"" + y) <==> LooseMatch(v, u) && x == y
  {
    hide AfterCommon, Loosened;
    CommonQuoted(v, x, u, y);
    var (s, t) := AfterCommon(v, u);
    LoosenedQuoted(s, x);
    LoosenedQuoted(t, y);
    SplitAt(Loosened(s), x, Loosened(t), y, '"');
  }

  // An attribute in front of more text.
  function Before(a: Attr, x: string): (s: string) {
    a.name + "=" + ("\"" + (a.value + "\"" + x))
  }

  lemma BeforesEqual(a: Attr, x: string, b: Attr, y: string)
    requires SpelledAttr(a) && SpelledAttr(b)
    ensures Before(a, x) == Before(b, y) <==> a == b && x == y
  {
    var x1, y1 := a.value + "\"" + x, b.value + "\"" + y;
    assert ("\"" + x1)[1..] == x1 && ("\"" + y1)[1..] == y1;
    SplitAt(a.name, "\"" + x1, b.name, "\"" + y1, '=');
    SplitAt(a.value, x, b.value, y, '"');
  }

  lemma BeforesMatch(a: Attr, x: string, b: Attr, y: string)
    requires SpelledAttr(a) && SpelledAttr(b) && a != b
    ensures LooseMatch(Before(a, x), Before(b, y))
            <==> a.name == b.name && LooseMatch(a.value, b.value) && x == y
  {
    hide LooseMatch, XmlName;
    var x1, y1 := a.value + "\"" + x, b.value + "\"" + y;
    if a.name == b.name {
      var p := a.name + "=" + "\"";
      assert Before(a, x) == p + x1 && Before(b, y) == p + y1;
      PrefixMatch(p, x1, y1);
      ValuesDiffer(a.value, x, b.value, y);
    } else {
      NamesDiffer(a.name, "\"" + x1, b.name, "\"" + y1);
    }
  }

  lemma PrefixMatch(p: string, x: string, y: string)
    ensures LooseMatch(p + x, p + y) <==> LooseMatch(x, y)
  {
    AfterCommonPrefix(p, x, y);
  }

  predicate IsTail(s: string) {
    s == ">" || s == " />"
  }

  lemma TailsMatch(s: string, t: string)
    requires IsTail(s) && IsTail(t)
    ensures LooseMatch(s, t)
  {
    assert " />"[1..] == "/>" && "/>"[1..] == ">";
    assert DropRun(" />", ' ') == "/>";
    if s == t { MatchesItself(s); }
  }

  lemma LoosenedHead(t: string)
    requires t != "" && !Skipped(t[0])
    ensures Loosened(t) == t == Loosened(" " + t)
  {
    assert (" " + t)[1..] == t;
    assert DropRun(t, ' ') == t == DropRun(t, '/');
  }

  lemma LoosenedTail()
    ensures Loosened("/>") == ">" == Loosened(">")
  {
    assert "/>"[1..] == ">";
    assert DropRun("/>", ' ') == "/>" && DropRun(">", '/') == ">" == DropRun(">", ' ');
  }

  // The end of a tag does not match where another attribute follows.
  lemma TailOrAttr(s: string, a: Attr, x: string)
    requires IsTail(s) && SpelledAttr(a)
    ensures !LooseMatch(s, " " + Before(a, x)) && s != " " + Before(a, x)
  {
    hide Before;
    var t := Before(a, x);
    BeforeStarts(a, x);
    LoosenedHead(t);
    LoosenedTail();
    if s == " />" {
      assert s == " " + "/>";
      PrefixMatch(" ", "/>", t);
    }
  }

  lemma BeforeStarts(a: Attr, x: string)
    requires SpelledAttr(a)
    ensures |Before(a, x)| >= 3 && !Skipped(Before(a, x)[0])
  {
    assert Before(a, x)[0] == if a.name == "" then '=' else a.name[0];
  }

  // Attributes up to the end of the tag.
  function Ending(attrs: seq<Attr>, s: string): (t: string) {
    AttrText(attrs) + s
  }

  lemma EndingStep(attrs: seq<Attr>, s: string)
    requires attrs != []
    ensures Ending(attrs, s) == " " + Before(attrs[0], Ending(attrs[1..], s))
  {
    hide OneAttr, Before;
    var one, rest := OneAttr(attrs[0]), AttrText(attrs[1..]);
    BeforeIsOne(attrs[0], rest + s);
    assert (" " + one + rest) + s == " " + (one + (rest + s));
  }

  lemma BeforeIsOne(a: Attr, x: string)
    ensures OneAttr(a) + x == Before(a, x)
  {
    var head := a.name + "=";
    assert OneAttr(a) == head + ("\"" + (a.value + "\""));
    assert (head + ("\"" + (a.value + "\""))) + x == head + (("\"" + (a.value + "\"")) + x);
    assert ("\"" + (a.value + "\"")) + x == "\"" + (a.value + "\"" + x);
  }

  lemma NoAttrs(s: string)
    ensures Ending([], s) == s
  {
  }

  lemma SameFirst(p: string, x: string, y: string)
    ensures p + x == p + y <==> x == y
  {
    assert (p + x)[|p|..] == x && (p + y)[|p|..] == y;
  }

  lemma {:induction false} EndingsEqual(a: seq<Attr>, s: string, b: seq<Attr>, t: string)
    requires Spelled(a) && Spelled(b) && IsTail(s) && IsTail(t)
    ensures Ending(a, s) == Ending(b, t) <==> a == b && s == t
  {
    hide Before, LooseMatch, SpelledAttr, Ending;
    if a != [] { EndingStep(a, s); } else { NoAttrs(s); }
    if b != [] { EndingStep(b, t); } else { NoAttrs(t); }
    if a == [] && b == [] {
    } else if a == [] {
      TailOrAttr(s, b[0], Ending(b[1..], t));
    } else if b == [] {
      TailOrAttr(t, a[0], Ending(a[1..], s));
    } else {
      SameFirst(" ", Before(a[0], Ending(a[1..], s)), Before(b[0], Ending(b[1..], t)));
      BeforesEqual(a[0], Ending(a[1..], s), b[0], Ending(b[1..], t));
      EndingsEqual(a[1..], s, b[1..], t);
      assert a == [a[0]] + a[1..] && b == [b[0]] + b[1..];
    }
  }

  // The first attribute does not decide whether and where the others differ in one value.
  lemma LooseLater(a: seq<Attr>, b: seq<Attr>)
    requires a != [] && b != [] && a[0] == b[0]
    ensures OneLoose(a, b) <==> OneLoose(a[1..], b[1..])
  {
    hide LooseMatch;
    if OneLoose(a, b) {
      var i :| 0 <= i < |a| && LooseAt(a, b, i);
      assert a[1..][..i - 1] == a[..i][1..] && b[1..][..i - 1] == b[..i][1..];
      assert LooseAt(a[1..], b[1..], i - 1);
    }
    if OneLoose(a[1..], b[1..]) {
      var i :| 0 <= i < |a[1..]| && LooseAt(a[1..], b[1..], i);
      assert a[..i + 1] == [a[0]] + a[1..][..i] && b[..i + 1] == [b[0]] + b[1..][..i];
      assert LooseAt(a, b, i + 1);
    }
  }

  lemma FirstOf(a: seq<Attr>, b: seq<Attr>, i: nat)
    requires 0 < i <= |a| && i <= |b| && a[..i] == b[..i]
    ensures a[0] == b[0]
  {
    assert a[..i][0] == a[0] && b[..i][0] == b[0];
  }

  lemma LooseFirst(a: seq<Attr>, b: seq<Attr>)
    requires a != [] && b != [] && a[0] != b[0]
    ensures OneLoose(a, b)
            <==> a[0].name == b[0].name && LooseMatch(a[0].value, b[0].value) && a[1..] == b[1..]
  {
    hide LooseMatch;
    if OneLoose(a, b) {
      var i :| 0 <= i < |a| && LooseAt(a, b, i);
      if i > 0 { FirstOf(a, b, i); }
    }
    if a[0].name == b[0].name && LooseMatch(a[0].value, b[0].value) && a[1..] == b[1..] {
      assert |a| == |a[1..]| + 1 && |b| == |b[1..]| + 1;
      assert LooseAt(a, b, 0);
    }
  }

  lemma {:induction false} EndingsMatch(a: seq<Attr>, s: string, b: seq<Attr>, t: string)
    requires Spelled(a) && Spelled(b) && IsTail(s) && IsTail(t)
    ensures LooseMatch(Ending(a, s), Ending(b, t)) <==> a == b || (s == t && OneLoose(a, b))
  {
    hide Before, LooseMatch, SpelledAttr, OneLoose, Ending;
    if a != [] { EndingStep(a, s); } else { NoAttrs(s); }
    if b != [] { EndingStep(b, t); } else { NoAttrs(t); }
    if a == [] && b == [] {
      TailsMatch(s, t);
    } else if a == [] {
      TailOrAttr(s, b[0], Ending(b[1..], t));
      LengthsDiffer(a, b);
    } else if b == [] {
      TailOrAttr(t, a[0], Ending(a[1..], s));
      MatchSwaps(t, Ending(a, s));
      LengthsDiffer(a, b);
    } else {
      PrefixMatch(" ", Before(a[0], Ending(a[1..], s)), Before(b[0], Ending(b[1..], t)));
      assert a == [a[0]] + a[1..] && b == [b[0]] + b[1..];
      if a[0] == b[0] {
        SameBefore(a[0], Ending(a[1..], s), Ending(b[1..], t));
        EndingsMatch(a[1..], s, b[1..], t);
        LooseLater(a, b);
      } else {
        BeforesMatch(a[0], Ending(a[1..], s), b[0], Ending(b[1..], t));
        EndingsEqual(a[1..], s, b[1..], t);
        LooseFirst(a, b);
      }
    }
  }

  lemma LengthsDiffer(a: seq<Attr>, b: seq<Attr>)
    requires |a| != |b|
    ensures !OneLoose(a, b)
  {
  }

  lemma SameBefore(a: Attr, x: string, y: string)
    ensures LooseMatch(Before(a, x), Before(a, y)) <==> LooseMatch(x, y)
  {
    var p := a.name + "=" + "\"" + a.value + "\"";
    assert Before(a, x) == p + x && Before(a, y) == p + y;
    PrefixMatch(p, x, y);
  }

  // A tag other than the root, spelled as xml has it.
  predicate InnerTag(m: Tag) {
    ' ' !in m.name && m.name != "HDDM" && Spelled(m.attrs)
  }

  lemma RootName(m: Tag)
    requires ' ' !in m.name && StartsWith(OpenTag(m), "<HDDM ")
    ensures m.name == "HDDM"
  {
    hide AttrText;
    var n, rest, root := |m.name|, AttrText(m.attrs) + Tail(m), "HDDM ";
    RestStarts(m);
    assert OpenTag(m) == "<" + (m.name + rest) && "<HDDM " == "<" + root;
    FirstOff(m.name + rest, root);
    ReachesInto(m.name, rest, root);
    assert root[0] == 'H' && root[1] == 'D' && root[2] == 'D' && root[3] == 'M' && root[4] == ' ';
    assert root[..4] == "HDDM";
  }

  lemma FirstOff(a: string, b: string)
    requires StartsWith("<" + a, "<" + b)
    ensures b <= a
  {
    assert ("<" + a)[1..] == a && ("<" + b)[1..] == b;
    assert ("<" + a)[..|b| + 1][1..] == a[..|b|];
  }

  lemma ReachesInto(a: string, b: string, r: string)
    requires r <= a + b && b != ""
    ensures |a| < |r| ==> r[..|a|] == a && r[|a|] == b[0]
    ensures forall i :: 0 <= i < |a| && i < |r| ==> r[i] in a
  {
    forall i | 0 <= i < |a| && i < |r| ensures r[i] in a { assert r[i] == (a + b)[i] == a[i]; }
    if |a| < |r| { assert r[|a|] == (a + b)[|a|] == b[0]; }
  }

  lemma RestStarts(m: Tag)
    ensures var rest := AttrText(m.attrs) + Tail(m);
            rest != "" && (rest[0] == ' ' || rest[0] == '>')
  {
  }

  lemma NotRoot(m: Tag)
    requires InnerTag(m)
    ensures !StartsWith(OpenTag(m), "<HDDM ")
  {
    if StartsWith(OpenTag(m), "<HDDM ") { RootName(m); }
  }

  /** The comparison of two tags of one name, exactly: it succeeds if and only if their
      attributes are the same, or both or none of them has children and their attributes
      differ in just one value, in which these agree loosely. */
  lemma TagsMatchExactly(w: Tag, r: Tag)
    requires InnerTag(w) && InnerTag(r) && w.name == r.name
    ensures TagsMatch(OpenTag(w), OpenTag(r)) <==> SameTag(w, r)
  {
    hide LooseMatch, OneLoose, Spelled, AttrText;
    var p, x, y := "<" + w.name, Ending(w.attrs, Tail(w)), Ending(r.attrs, Tail(r));
    assert OpenTag(w) == p + x && OpenTag(r) == p + y;
    NotRoot(w);
    PrefixMatch(p, x, y);
    EndingsMatch(w.attrs, Tail(w), r.attrs, Tail(r));
    if OpenTag(w) == OpenTag(r) { MatchesItself(OpenTag(w)); }
  }

  // ------------------------------------------------- what a loose match confuses

  // A value of a maxOccurs attribute that makes the tag a list.
  predicate Plural(rep: string) {
    rep == "unbounded" || Atoi(rep) > 1
  }

  // Loosely equal attributes that do not mean the same: one of the two values is the name
  // of a type, or they tell a list from a link.
  predicate Confused(a: seq<Attr>, b: seq<Attr>, i: nat)
  {
    && i < |a| && i < |b|
    && (|| (WireOf(a[i].value) == Literal) != (WireOf(b[i].value) == Literal)
        || (FirstAttr(a, "maxOccurs") == i && Plural(a[i].value) != Plural(b[i].value)))
  }

  function FirstAttr(a: seq<Attr>, name: string): (k: nat) {
    if a == [] || a[0].name == name then 0 else 1 + FirstAttr(a[1..], name)
  }

  lemma ColumnsOf(a: seq<Attr>)
    ensures Columns(a)
            == if a == [] then []
               else (if WireOf(a[0].value) == Literal then [] else [WireOf(a[0].value)]) + Columns(a[1..])
  {
    hide WireOf;
  }

  lemma {:induction false} ColumnsConcat(a: seq<Attr>, b: seq<Attr>)
    ensures Columns(a + b) == Columns(a) + Columns(b)
  {
    hide WireOf, Columns;
    if a == [] {
      assert a + b == b;
      ColumnsOf(a);
    } else {
      assert (a + b)[1..] == a[1..] + b;
      ColumnsConcat(a[1..], b);
      ColumnsOf(a);
      ColumnsOf(a + b);
    }
  }

  lemma ColumnsCons(x: Attr, rest: seq<Attr>)
    ensures Columns([x] + rest) == (if WireOf(x.value) == Literal then [] else [WireOf(x.value)]) + Columns(rest)
  {
    hide WireOf;
    assert ([x] + rest)[1..] == rest;
  }

  lemma ColumnsAround(a: seq<Attr>, front: seq<Attr>, x: Attr, rest: seq<Attr>)
    requires a == front + ([x] + rest)
    ensures Columns(a)
            == Columns(front) + ((if WireOf(x.value) == Literal then [] else [WireOf(x.value)]) + Columns(rest))
  {
    hide WireOf, Columns;
    ColumnsCons(x, rest);
    ColumnsConcat(front, [x] + rest);
  }

  lemma Around(a: seq<Attr>, i: nat)
    requires i < |a|
    ensures a == a[..i] + ([a[i]] + a[i + 1..])
  {
  }

  lemma TypesAreFree(v: string)
    requires WireOf(v) != Literal
    ensures ' ' !in v && '/' !in v
  {
    hide *;
    TypeNames(v);
    assert ' ' !in "int" && ' ' !in "float" && ' ' !in "boolean" && ' ' !in "Particle_t" && ' ' !in "long";
    assert ' ' !in "double" && ' ' !in "string" && ' ' !in "anyURI";
    assert '/' !in "int" && '/' !in "float" && '/' !in "boolean" && '/' !in "Particle_t" && '/' !in "long";
    assert '/' !in "double" && '/' !in "string" && '/' !in "anyURI";
  }

  lemma TypeNames(v: string)
    ensures WireOf(v) != Literal
            <==> v in {"int", "float", "boolean", "Particle_t", "long", "double", "string", "anyURI"}
  {
  }

  // Texts without anything to skip match only if they are equal.
  lemma {:induction false} FreeMatch(v: string, u: string)
    requires LooseMatch(v, u) && ' ' !in v && '/' !in v && ' ' !in u && '/' !in u
    ensures v == u
  {
    if v != "" && u != "" && v[0] == u[0] {
      assert v == [v[0]] + v[1..] && u == [u[0]] + u[1..];
      FreeMatch(v[1..], u[1..]);
    }
  }

  /** Loosely matched tags store different columns exactly if one of the two values is the
      name of a type and the other is not; then they differ in number. */
  lemma LooseColumns(a: seq<Attr>, b: seq<Attr>, i: nat)
    requires LooseAt(a, b, i)
    ensures var t, u := WireOf(a[i].value), WireOf(b[i].value);
            && ((t == Literal) != (u == Literal) <==> Columns(a) != Columns(b))
            && ((t == Literal) != (u == Literal) <==> |Columns(a)| != |Columns(b)|)
  {
    hide WireOf, Columns, LooseMatch;
    Around(a, i);
    Around(b, i);
    ColumnsAround(a, a[..i], a[i], a[i + 1..]);
    ColumnsAround(b, a[..i], b[i], a[i + 1..]);
    var t, u := WireOf(a[i].value), WireOf(b[i].value);
    if t != Literal && u != Literal {
      TypesAreFree(a[i].value);
      TypesAreFree(b[i].value);
      FreeMatch(a[i].value, b[i].value);
    }
  }

  lemma {:induction false} FirstAttrDecides(a: seq<Attr>, name: string)
    ensures AttrValue(a, name) == if FirstAttr(a, name) < |a| then a[FirstAttr(a, name)].value else ""
  {
    if a != [] && a[0].name != name { FirstAttrDecides(a[1..], name); }
  }

  lemma {:induction false} FirstAttrOfNames(a: seq<Attr>, b: seq<Attr>, name: string)
    requires |a| == |b| && forall j :: 0 <= j < |a| ==> a[j].name == b[j].name
    ensures FirstAttr(a, name) == FirstAttr(b, name)
  {
    if a != [] && a[0].name != name {
      forall j | 0 <= j < |a[1..]| ensures a[1..][j].name == b[1..][j].name { assert a[j + 1].name == b[j + 1].name; }
      FirstAttrOfNames(a[1..], b[1..], name);
    }
  }

  lemma LooseElsewhere(a: seq<Attr>, b: seq<Attr>, i: nat, j: nat)
    requires LooseAt(a, b, i) && j < |a|
    ensures a[j].name == b[j].name && (j != i ==> a[j] == b[j])
  {
    if j < i {
      assert a[..i][j] == b[..i][j];
    } else if j > i {
      assert a[i + 1..][j - i - 1] == b[i + 1..][j - i - 1];
    }
  }

  /** They repeat differently exactly if that one value is the maxOccurs that counts. */
  lemma LooseRepeats(w: Tag, r: Tag, i: nat)
    requires LooseAt(w.attrs, r.attrs, i)
    ensures Repeats(w) != Repeats(r)
            <==> FirstAttr(w.attrs, "maxOccurs") == i && Plural(w.attrs[i].value) != Plural(r.attrs[i].value)
  {
    hide LooseMatch, Atoi;
    var a, b := w.attrs, r.attrs;
    forall j | 0 <= j < |a| ensures a[j].name == b[j].name && (j != i ==> a[j] == b[j]) { LooseElsewhere(a, b, i, j); }
    FirstAttrOfNames(a, b, "maxOccurs");
    FirstAttrDecides(a, "maxOccurs");
    FirstAttrDecides(b, "maxOccurs");
  }

  // The texts of w and r match, although they store or repeat differently.
  predicate Mistaken(w: Tag, r: Tag) {
    exists i :: 0 <= i < |w.attrs| && LooseAt(w.attrs, r.attrs, i) && Confused(w.attrs, r.attrs, i)
  }

  /** Matched tags differ in what they store, or in being a list or a link, exactly if the
      one value in which they differ is the name of a type on one side only, or a maxOccurs. */
  lemma MistakenExactly(w: Tag, r: Tag)
    requires SameTag(w, r)
    ensures Columns(w.attrs) == Columns(r.attrs) && Repeats(w) == Repeats(r) <==> !Mistaken(w, r)
    ensures |Columns(w.attrs)| == |Columns(r.attrs)| ==> Columns(w.attrs) == Columns(r.attrs)
  {
    hide LooseMatch, Columns, WireOf, Repeats, Plural, LooseAt;
    if w.attrs == r.attrs {
      NotLoose(w.attrs);
      SameRepeats(w, r);
    } else {
      forall i | 0 <= i < |w.attrs| && LooseAt(w.attrs, r.attrs, i)
        ensures Columns(w.attrs) == Columns(r.attrs) && Repeats(w) == Repeats(r)
                <==> !Confused(w.attrs, r.attrs, i)
        ensures |Columns(w.attrs)| == |Columns(r.attrs)| ==> Columns(w.attrs) == Columns(r.attrs)
      {
        LooseLengths(w.attrs, r.attrs, i);
        LooseColumns(w.attrs, r.attrs, i);
        LooseRepeats(w, r, i);
      }
    }
  }

  lemma LooseLengths(a: seq<Attr>, b: seq<Attr>, i: nat)
    requires LooseAt(a, b, i)
    ensures i < |a| == |b|
  {
  }

  lemma NotLoose(a: seq<Attr>)
    ensures forall i :: 0 <= i < |a| ==> !LooseAt(a, a, i)
  {
  }

  lemma SameRepeats(w: Tag, r: Tag)
    requires w.attrs == r.attrs
    ensures Repeats(w) == Repeats(r)
  {
  }

  // ------------------------------------------------- values that cannot be mistaken

  function Squeeze(s: string): (r: string) {
    if s == "" then "" else if Skipped(s[0]) then Squeeze(s[1..]) else [s[0]] + Squeeze(s[1..])
  }

  lemma {:induction false} SqueezeDropRun(s: string, c: char)
    requires Skipped(c)
    ensures Squeeze(DropRun(s, c)) == Squeeze(s)
  {
    if s != "" && s[0] == c { SqueezeDropRun(s[1..], c); }
  }

  lemma {:induction false} SqueezeFree(s: string)
    requires ' ' !in s && '/' !in s
    ensures Squeeze(s) == s
  {
    if s != "" { SqueezeFree(s[1..]); }
  }

  lemma {:induction false} AfterCommonSqueeze(a: string, b: string)
    requires Squeeze(AfterCommon(a, b).0) == Squeeze(AfterCommon(a, b).1)
    ensures Squeeze(a) == Squeeze(b)
  {
    if a != "" && b != "" && a[0] == b[0] { AfterCommonSqueeze(a[1..], b[1..]); }
  }

  lemma MatchSqueezes(a: string, b: string)
    requires LooseMatch(a, b)
    ensures Squeeze(a) == Squeeze(b)
  {
    var (x, y) := AfterCommon(a, b);
    SqueezeDropRun(x, ' ');
    SqueezeDropRun(DropRun(x, ' '), '/');
    SqueezeDropRun(y, ' ');
    SqueezeDropRun(DropRun(y, ' '), '/');
    AfterCommonSqueeze(a, b);
  }

  /** No value is the name of a type but for blanks and slashes, and no maxOccurs has any of
      these in it. */
  predicate Tidy(m: Tag) {
    forall i :: 0 <= i < |m.attrs| ==> TidyAttr(m.attrs[i])
  }

  predicate TidyAttr(a: Attr) {
    && (WireOf(Squeeze(a.value)) != Literal ==> WireOf(a.value) != Literal)
    && (a.name == "maxOccurs" ==> ' ' !in a.value && '/' !in a.value)
  }

  lemma {:induction false} FirstAttrNamed(a: seq<Attr>, name: string)
    ensures FirstAttr(a, name) < |a| ==> a[FirstAttr(a, name)].name == name
  {
    if a != [] && a[0].name != name { FirstAttrNamed(a[1..], name); }
  }

  lemma TidyAttrs(a: Attr, b: Attr)
    requires TidyAttr(a) && TidyAttr(b) && a.name == b.name && LooseMatch(a.value, b.value)
    ensures WireOf(a.value) == Literal <==> WireOf(b.value) == Literal
    ensures a.name == "maxOccurs" ==> a == b
  {
    hide WireOf, LooseMatch;
    MatchSqueezes(a.value, b.value);
    if WireOf(a.value) != Literal { TypesAreFree(a.value); SqueezeFree(a.value); }
    if WireOf(b.value) != Literal { TypesAreFree(b.value); SqueezeFree(b.value); }
    if a.name == "maxOccurs" { FreeMatch(a.value, b.value); }
  }

  lemma TidyTags(w: Tag, r: Tag)
    requires Tidy(w) && Tidy(r)
    ensures !Mistaken(w, r)
  {
    hide WireOf, LooseMatch, TidyAttr, Plural;
    forall i | 0 <= i < |w.attrs| && LooseAt(w.attrs, r.attrs, i)
      ensures !Confused(w.attrs, r.attrs, i)
    {
      TidyAttrs(w.attrs[i], r.attrs[i]);
      FirstAttrNamed(w.attrs, "maxOccurs");
    }
  }

  /** A pair that is mistaken: a slash in front of the name of a type is skipped, although
      it turns a stored attribute into a literal one. */
  lemma SlashHidesMismatch()
    ensures var w := Tag("a", [Attr("x", "int")], []);
            var r := Tag("a", [Attr("x", "/int")], []);
            InnerTag(w) && InnerTag(r) && SameTag(w, r) && Mistaken(w, r)
  {
    var w := Tag("a", [Attr("x", "int")], []);
    var r := Tag("a", [Attr("x", "/int")], []);
    var v := "/int";
    assert v[1..] == "int" && AfterCommon("int", v) == ("int", v);
    assert DropRun(v, '/') == DropRun("int", '/');
    assert LooseAt(w.attrs, r.attrs, 0) && WireOf(v) == Literal && WireOf("int") == Word;
    assert Confused(w.attrs, r.attrs, 0);
  }
}
