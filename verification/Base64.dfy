/** Base64 with line breaks: a stream that encodes into lines of a given width, and one
    that decodes them. */
module Base64 {
  import opened Basics
  import opened Xdr

  const UPPER := "ABCDEFGHIJKLMNOPQRSTUVWXYZ"
  const LOWER := "abcdefghijklmnopqrstuvwxyz"
  const OTHER := "0123456789+/"
  const DICTIONARY := UPPER + LOWER + OTHER

  // ------------------------------------------------- four characters for three bytes

  type sextet = x: int | 0 <= x < 64

  // The dictionary in figures.
  function Letter(x: sextet): (c: char) {
    if x < 26 then ('A' as int + x) as char
    else if x < 52 then ('a' as int + x - 26) as char
    else if x < 62 then ('0' as int + x - 52) as char
    else if x == 62 then '+'
    else '/'
  }

  // The mapping back; no character outside of the dictionary has an index.
  function Index(c: char): (x: int)
    ensures -1 <= x < 64
  {
    if 'A' <= c <= 'Z' then c as int - 'A' as int
    else if 'a' <= c <= 'z' then c as int - 'a' as int + 26
    else if '0' <= c <= '9' then c as int - '0' as int + 52
    else if c == '+' then 62
    else if c == '/' then 63
    else -1
  }

  lemma LettersOfDictionary(x: sextet)
    ensures |DICTIONARY| == 64 && DICTIONARY[x] == Letter(x)
  {
    if x < 26 {
      assert DICTIONARY[x] == UPPER[x];
      UpperCase(x);
    } else if x < 52 {
      assert DICTIONARY[x] == LOWER[x - 26];
      LowerCase(x - 26);
    } else {
      assert DICTIONARY[x] == OTHER[x - 52];
    }
  }

  lemma UpperCase(x: nat)
    requires x < 26
    ensures UPPER[x] as int == 'A' as int + x
  {
    if x < 13 { assert UPPER[..13] == "ABCDEFGHIJKLM" && UPPER[..13][x] as int == 'A' as int + x; }
  }

  lemma LowerCase(x: nat)
    requires x < 26
    ensures LOWER[x] as int == 'a' as int + x
  {
    if x < 13 { assert LOWER[..13] == "abcdefghijklm" && LOWER[..13][x] as int == 'a' as int + x; }
  }

  lemma IndexOfLetter(x: sextet)
    ensures Index(Letter(x)) == x && Letter(x) != '='
  {
  }

  // encode
  function Encode(b: seq<byte>): (q: string)
    requires |b| == 3
    ensures |q| == 4
  {
    [Letter(b[0] / 4), Letter(b[0] % 4 * 16 + b[1] / 16), Letter(b[1] % 16 * 4 + b[2] / 64), Letter(b[2] % 64)]
  }

  // decode; none if a character is not part of the alphabet
  function Decode(q: string): (r: Option<seq<byte>>)
    requires |q| == 4
    ensures r.Some? ==> |r.value| == 3
  {
    var i0, i1, i2, i3 := Index(q[0]), Index(q[1]), Index(q[2]), Index(q[3]);
    if i0 < 0 || i1 < 0 || i2 < 0 || i3 < 0 then None
    else Some([(i0 * 4 + i1 / 16) % 256, i1 % 16 * 16 + i2 / 4, i2 % 4 * 64 + i3])
  }

  lemma DecodeEncode(b: seq<byte>)
    requires |b| == 3
    ensures Decode(Encode(b)) == Some(b)
  {
    hide Letter, Index;
    var i0, i1, i2, i3 := b[0] / 4, b[0] % 4 * 16 + b[1] / 16, b[1] % 16 * 4 + b[2] / 64, b[2] % 64;
    IndexOfLetter(i0);
    IndexOfLetter(i1);
    IndexOfLetter(i2);
    IndexOfLetter(i3);
    Bits(b[0], b[1], b[2]);
    assert b == [b[0], b[1], b[2]];
  }

  lemma Bits(b0: byte, b1: byte, b2: byte)
    ensures var i0, i1, i2, i3 := b0 / 4, b0 % 4 * 16 + b1 / 16, b1 % 16 * 4 + b2 / 64, b2 % 64;
            && (i0 * 4 + i1 / 16) % 256 == b0
            && i1 % 16 * 16 + i2 / 4 == b1
            && i2 % 4 * 64 + i3 == b2
  {
  }

  // Section 4 of RFC 4648: a last group of one or two bytes is filled up with zero bits, and
  // characters that carry none of its bits are replaced by the padding character.
  function LastQuad(b: seq<byte>): (q: string)
    requires 1 <= |b| <= 3
    ensures |q| == 4
  {
    var full := Encode(b + Zeros(3 - |b|));
    if |b| == 3 then full else if |b| == 2 then full[..3] + "=" else full[..2] + "=="
  }

  function Quads(s: seq<byte>): (qs: seq<string>)
    ensures forall q :: q in qs ==> |q| == 4
  {
    if s == [] then [] else if |s| <= 3 then [LastQuad(s)] else [Encode(s[..3])] + Quads(s[3..])
  }

  // ------------------------------------------------- the 24 bits

  lemma LetterIsThere(x: sextet)
    ensures |DICTIONARY| == 64 && DICTIONARY[x] == Letter(x)
    ensures forall i :: 0 <= i < 64 && DICTIONARY[i] == Letter(x) ==> i == x
  {
    hide Letter, Index;
    LettersOfDictionary(x);
    forall i | 0 <= i < 64 && DICTIONARY[i] == Letter(x) ensures i == x {
      LettersOfDictionary(i);
      IndexOfLetter(i);
      IndexOfLetter(x);
    }
  }

  // The positions of the letters of a text in the dictionary.
  predicate Positions(q: string, i: seq<nat>) {
    |i| == |q| && forall k :: 0 <= k < |q| ==> i[k] < 64 == |DICTIONARY| && q[k] == DICTIONARY[i[k]]
  }

  // What Encode does, without its name.
  lemma LettersOf(b: seq<byte>) returns (i: seq<nat>)
    requires |b| == 3
    ensures i == [b[0] / 4, b[0] % 4 * 16 + b[1] / 16, b[1] % 16 * 4 + b[2] / 64, b[2] % 64]
    ensures Positions(Encode(b), i)
  {
    hide Letter;
    i := [b[0] / 4, b[0] % 4 * 16 + b[1] / 16, b[1] % 16 * 4 + b[2] / 64, b[2] % 64];
    LetterIsThere(i[0]);
    LetterIsThere(i[1]);
    LetterIsThere(i[2]);
    LetterIsThere(i[3]);
  }

  // No other letters are at these positions.
  lemma OnePosition(q: string, i: seq<nat>, j: seq<nat>)
    requires Positions(q, i) && Positions(q, j)
    ensures i == j
  {
    hide Letter;
    forall k | 0 <= k < |q| ensures i[k] == j[k] {
      LettersOfDictionary(i[k]);
      LetterIsThere(i[k]);
    }
  }

  /** Section 4 of RFC 4648: the positions of the four letters, read as one number to the
      base 64, are the three bytes, read as one number to the base 256. */
  lemma EncodeBits(b: seq<byte>, i: seq<nat>)
    requires |b| == 3
    ensures exists j :: Positions(Encode(b), j)
    ensures Positions(Encode(b), i) ==>
              |i| == 4 && ((i[0] * 64 + i[1]) * 64 + i[2]) * 64 + i[3] == (b[0] as nat * 256 + b[1]) * 256 + b[2]
  {
    hide Encode, Positions;
    var j := LettersOf(b);
    NumberOfLetters(b[0], b[1], b[2]);
    if Positions(Encode(b), i) { OnePosition(Encode(b), i, j); }
  }

  lemma NumberOfLetters(b0: byte, b1: byte, b2: byte)
    ensures var i0, i1, i2, i3 := b0 / 4, b0 % 4 * 16 + b1 / 16, b1 % 16 * 4 + b2 / 64, b2 % 64;
            ((i0 as nat * 64 + i1) * 64 + i2) * 64 + i3 == (b0 as nat * 256 + b1) * 256 + b2
  {
    var x: nat, y: nat := b0 / 4, b0 % 4;
    var u: nat, v: nat := b1 / 16, b1 % 16;
    var z: nat, w: nat := b2 / 64, b2 % 64;
    assert b0 == 4 * x + y && b1 == 16 * u + v && b2 == 64 * z + w;
  }

  lemma NoBits(x: nat, y: nat, n: nat)
    requires x * 64 + y == n * 256 && y < 64
    ensures x == 4 * n
  {
  }

  /** A last group of two bytes: three letters for them, the last one with two zero bits, and
      a padding character. */
  lemma LastTwo(b: seq<byte>)
    requires |b| == 2
    ensures LastQuad(b)[3] == '='
    ensures exists i :: Positions(LastQuad(b)[..3], i)
    ensures forall i :: Positions(LastQuad(b)[..3], i) ==>
              |i| == 3 && (i[0] * 64 + i[1]) * 64 + i[2] == (b[0] as nat * 256 + b[1]) * 4
  {
    hide Encode, Positions;
    var full := b + Zeros(1);
    var j := LettersOf(full);
    EncodeBits(full, j);
    NoBits((j[0] * 64 + j[1]) * 64 + j[2], j[3], b[0] as nat * 256 + b[1]);
    assert LastQuad(b)[..3] == Encode(full)[..3];
    FrontPositions(Encode(full), j, 3);
    forall i | Positions(LastQuad(b)[..3], i)
      ensures |i| == 3 && (i[0] * 64 + i[1]) * 64 + i[2] == (b[0] as nat * 256 + b[1]) * 4
    {
      OnePosition(LastQuad(b)[..3], i, j[..3]);
    }
  }

  /** A last group of one byte: two letters for it, the second one with four zero bits, and
      two padding characters. */
  lemma LastOne(b: seq<byte>)
    requires |b| == 1
    ensures LastQuad(b)[2] == '=' && LastQuad(b)[3] == '='
    ensures exists i :: Positions(LastQuad(b)[..2], i)
    ensures forall i :: Positions(LastQuad(b)[..2], i) ==> |i| == 2 && i[0] * 64 + i[1] == b[0] as nat * 16
  {
    hide Encode, Positions;
    var full := b + Zeros(2);
    var j := LettersOf(full);
    EncodeBits(full, j);
    NoBits((j[0] * 64 + j[1]) * 64 + j[2], j[3], b[0] as nat * 256);
    NoBits(j[0] * 64 + j[1], j[2], 4 * (b[0] as nat));
    assert LastQuad(b)[..2] == Encode(full)[..2];
    FrontPositions(Encode(full), j, 2);
    forall i | Positions(LastQuad(b)[..2], i) ensures |i| == 2 && i[0] * 64 + i[1] == b[0] as nat * 16 {
      OnePosition(LastQuad(b)[..2], i, j[..2]);
    }
  }

  lemma FrontPositions(q: string, i: seq<nat>, n: nat)
    requires Positions(q, i) && n <= |q|
    ensures |i| == |q| && Positions(q[..n], i[..n])
  {
  }

  lemma {:induction false} QuadCount(s: seq<byte>)
    ensures |Quads(s)| == (|s| + 2) / 3
  {
    hide Encode, LastQuad;
    if |s| > 3 {
      QuadCount(s[3..]);
      MoreThirds(|s[3..]|);
    }
  }

  lemma MoreThirds(n: nat)
    ensures (n + 3 + 2) / 3 == 1 + (n + 2) / 3
  {
  }

  // Group number k: three bytes, or what is left of the message.
  function Group(s: seq<byte>, k: nat): (b: seq<byte>)
    requires 3 * k < |s|
    ensures 1 <= |b| <= 3
  {
    if 3 * k + 3 <= |s| then s[3 * k..3 * k + 3] else s[3 * k..]
  }

  lemma LaterGroup(s: seq<byte>, k: nat)
    requires k > 0 && 3 * k < |s|
    ensures 3 * (k - 1) < |s[3..]| && Group(s[3..], k - 1) == Group(s, k)
  {
  }

  lemma FirstGroup(s: seq<byte>)
    requires s != []
    ensures Group(s, 0) == if |s| >= 3 then s[..3] else s
    ensures |s| == 3 ==> LastQuad(s) == Encode(s) && s[..3] == s
  {
    hide Encode;
    if |s| == 3 { FullIsLast(s); }
  }

  /** The groups of a message: three bytes each, and at the end what is left. */
  lemma {:induction false} QuadAt(s: seq<byte>, k: nat)
    requires 3 * k < |s|
    ensures k < |Quads(s)| == (|s| + 2) / 3
    ensures var b := Group(s, k); Quads(s)[k] == if |b| == 3 then Encode(b) else LastQuad(b)
    decreases k
  {
    hide Encode, LastQuad, Quads, Group;
    QuadCount(s);
    QuadsStep(s);
    FirstGroup(s);
    if k > 0 {
      LaterGroup(s, k);
      QuadAt(s[3..], k - 1);
    }
  }

  lemma QuadsStep(s: seq<byte>)
    requires s != []
    ensures Quads(s) == if |s| <= 3 then [LastQuad(s)] else [Encode(s[..3])] + Quads(s[3..])
  {
    hide Encode, LastQuad;
  }

  // ------------------------------------------------- lines

  const SIZE_T: int := TWO64

  // write: up to the line's end, a delimiter, and the rest; or all in one line.
  function WriteQuad(w: nat, d: char, col: nat, q: string): (r: (string, nat))
    requires |q| == 4
  {
    var rcol := (w - col) % SIZE_T;
    if w > 0 && rcol <= 4 then (q[..rcol] + [d] + q[rcol..], 4 - rcol) else (q, (col + 4) % SIZE_T)
  }

  function WriteQuads(w: nat, d: char, col: nat, qs: seq<string>): (t: string)
    requires forall q :: q in qs ==> |q| == 4
    decreases |qs|
  {
    if qs == [] then ""
    else
      var (t, col') := WriteQuad(w, d, col, qs[0]);
      t + WriteQuads(w, d, col', qs[1..])
  }

  // What a reader makes of the characters in front of it: the end, a missing delimiter, an
  // access outside of its buffer, or four characters with what follows them.
  datatype Line = End | Missing | Outside | Four(q: string, rest: string, col: nat)

  // The first part of underflow; the columns left are computed in an int.
  function ReadQuad(w: nat, d: char, col: nat, t: string): (l: Line)
    ensures l.Four? ==> |l.q| == 4 && |l.rest| < |t|
  {
    var av := Signed((w - col) % TWO32);
    if w > 0 && av <= 4 then
      if |t| < 5 then End
      else if av < 0 then Outside
      else if t[av] != d then Missing
      else Four(t[..av] + t[av + 1..5], t[5..], 4 - av)
    else if |t| < 4 then End
    else Four(t[..4], t[4..], (col + 4) % TWO32)
  }

  // The second part: padding tells how many bytes there are.
  function Unpad(q: string): (r: (string, nat))
    requires |q| == 4
    ensures |r.0| == 4 && 1 <= r.1 <= 3
  {
    if q[3] == '=' then if q[2] == '=' then (q[..2] + "AA", 1) else (q[..3] + "A", 2) else (q, 3)
  }

  // Everything a reader delivers, and whether it comes to the end without an error.
  function ReadAll(w: nat, d: char, col: nat, t: string): (r: (seq<byte>, bool))
    decreases |t|
  {
    match ReadQuad(w, d, col, t)
    case End => ([], true)
    case Missing => ([], false)
    case Outside => ([], false)
    case Four(q, rest, col') =>
      var (u, len) := Unpad(q);
      var b := Decode(u);
      if b == None then ([], false)
      else if len < 3 then (b.value[..len], true)
      else
        var (more, ok) := ReadAll(w, d, col', rest);
        (b.value + more, ok)
  }

  // Widths for which reader and writer agree.
  predicate Usable(w: nat) {
    w == 0 || 4 <= w < TWO31
  }

  lemma QuadReadsBack(w: nat, d: char, col: nat, q: string, more: string)
    requires Usable(w) && |q| == 4 && (w == 0 || col < w)
    ensures var (t, col') := WriteQuad(w, d, col, q);
            && (w == 0 || col' < w)
            && var l := ReadQuad(w, d, if w == 0 then col % TWO32 else col, t + more);
               && l.Four? && l.q == q && l.rest == more && l.col == if w == 0 then col' % TWO32 else col'
  {
    if w == 0 {
      PlainReadsBack(w, d, col, col % TWO32, q, more);
      WrapTwice(col);
    } else if w - col <= 4 {
      ColumnsLeft(w, col);
      BrokenReadsBack(w, d, col, q, more);
    } else {
      ColumnsLeft(w, col);
      PlainReadsBack(w, d, col, col, q, more);
    }
  }

  lemma ColumnsLeft(w: nat, col: nat)
    requires 4 <= w < TWO31 && col < w
    ensures (w - col) % SIZE_T == w - col == Signed((w - col) % TWO32)
    ensures w - col > 4 ==> (col + 4) % SIZE_T == col + 4 == (col + 4) % TWO32
  {
  }

  lemma WrapTwice(col: nat)
    ensures (col % TWO32 + 4) % TWO32 == (col + 4) % SIZE_T % TWO32
  {
    var k, r := (col + 4) / SIZE_T, (col + 4) % SIZE_T;
    var n, m := col / TWO32, col % TWO32;
    assert m + 4 == r + TWO32 * (TWO32 * k - n);
    SameRemainder(m + 4, r, TWO32 * k - n);
  }

  lemma SameRemainder(x: int, y: int, k: int)
    requires x == y + TWO32 * k
    ensures x % TWO32 == y % TWO32
  {
  }

  // No delimiter in this group.
  lemma PlainReadsBack(w: nat, d: char, col: nat, rcol: nat, q: string, more: string)
    requires |q| == 4 && (w == 0 || ((w - col) % SIZE_T > 4 && Signed((w - rcol) % TWO32) > 4))
    ensures WriteQuad(w, d, col, q) == (q, (col + 4) % SIZE_T)
    ensures ReadQuad(w, d, rcol, q + more) == Four(q, more, (rcol + 4) % TWO32)
  {
    assert (q + more)[..4] == q && (q + more)[4..] == more;
  }

  // The line ends behind, or in, this group.
  lemma BrokenReadsBack(w: nat, d: char, col: nat, q: string, more: string)
    requires |q| == 4 && 0 < w && 0 <= (w - col) % SIZE_T == w - col == Signed((w - col) % TWO32) <= 4
    ensures var k := w - col;
            && WriteQuad(w, d, col, q) == (q[..k] + [d] + q[k..], 4 - k)
            && ReadQuad(w, d, col, (q[..k] + [d] + q[k..]) + more) == Four(q, more, 4 - k)
  {
    var k := w - col;
    var t := (q[..k] + [d] + q[k..]) + more;
    assert t[k] == d && t[5..] == more;
    assert t[..k] + t[k + 1..5] == q[..k] + q[k..] == q;
  }

  lemma LastReadsBack(b: seq<byte>)
    requires 1 <= |b| <= 3
    ensures var (u, len) := Unpad(LastQuad(b));
            len == |b| && Decode(u).Some? && Decode(u).value[..len] == b
  {
    hide Letter, Index;
    var p := b + Zeros(3 - |b|);
    DecodeEncode(p);
    NotPadding(p);
    PaddingLetters(p);
    assert p[..|b|] == b;
  }

  lemma NotPadding(b: seq<byte>)
    requires |b| == 3
    ensures Encode(b)[2] != '=' && Encode(b)[3] != '='
  {
    hide Letter;
    IndexOfLetter(b[1] % 16 * 4 + b[2] / 64);
    IndexOfLetter(b[2] % 64);
  }

  // Zero bits encode as the letter that replaces the padding.
  lemma PaddingLetters(b: seq<byte>)
    requires |b| == 3
    ensures b[2] == 0 ==> Encode(b)[..3] + "A" == Encode(b)
    ensures b[1] == 0 && b[2] == 0 ==> Encode(b)[..2] + "AA" == Encode(b)
  {
    assert Letter(0) == 'A';
  }

  /** Round trip across line breaks: for every message, every usable width and every
      delimiter, reading what was written gives the message, and then the end. */
  lemma {:induction false} RoundTrip(w: nat, d: char, col: nat, s: seq<byte>)
    requires Usable(w) && (w == 0 || col < w)
    ensures ReadAll(w, d, if w == 0 then col % TWO32 else col, WriteQuads(w, d, col, Quads(s))) == (s, true)
    decreases |s|
  {
    hide WriteQuad, ReadQuad, Encode, Decode, LastQuad, Unpad;
    var rcol := if w == 0 then col % TWO32 else col;
    var qs := Quads(s);
    if s == [] {
      NothingWritten(w, d, rcol);
    } else {
      var q := qs[0];
      assert q in qs;
      var (t, col') := WriteQuad(w, d, col, q);
      var more := WriteQuads(w, d, col', qs[1..]);
      QuadReadsBack(w, d, col, q, more);
      if |s| <= 3 {
        LastReadsBack(s);
        if |s| == 3 {
          NothingWritten(w, d, if w == 0 then col' % TWO32 else col');
          assert s + [] == s && Decode(Unpad(q).0).value[..3] == Decode(Unpad(q).0).value;
        }
      } else {
        FullReadsBack(s[..3]);
        RoundTrip(w, d, col', s[3..]);
        assert qs[1..] == Quads(s[3..]) && s[..3] + s[3..] == s;
      }
    }
  }

  lemma FullReadsBack(b: seq<byte>)
    requires |b| == 3
    ensures Unpad(Encode(b)) == (Encode(b), 3) && Decode(Encode(b)) == Some(b)
  {
    NotPadding(b);
    DecodeEncode(b);
  }

  lemma NothingWritten(w: nat, d: char, col: nat)
    ensures ReadAll(w, d, col, "") == ([], true)
  {
  }

  // ------------------------------------------------- other widths

  // When the reader's column count is negative it wants a fifth character.
  lemma LastIsLost(w: nat, d: char, col: nat)
    requires w < TWO32 && ((0 < w <= 3 && w < col <= 8) || (w >= TWO31 && col == 0))
    ensures ReadAll(w, d, col, WriteQuads(w, d, col, Quads([0]))) == ([], true)
  {
    hide WriteQuads, ReadAll, LastQuad;
    var q := LastQuad([0]);
    assert Quads([0]) == [q];
    ColumnsLost(w, col);
    OneQuad(w, d, col, q);
    TooShort(w, d, col, q);
  }

  lemma TooShort(w: nat, d: char, col: nat, t: string)
    requires |t| == 4 && w > 0 && Signed((w - col) % TWO32) < 0
    ensures ReadAll(w, d, col, t) == ([], true)
  {
    hide Unpad, Decode;
  }

  lemma ColumnsLost(w: nat, col: nat)
    requires w < TWO32 && ((0 < w <= 3 && w < col <= 8) || (w >= TWO31 && col == 0))
    ensures (w - col) % SIZE_T > 4 && Signed((w - col) % TWO32) < 0
  {
    if w < col {
      assert (w - col) % SIZE_T == w - col + SIZE_T && (w - col) % TWO32 == w - col + TWO32;
    }
  }

  lemma OneQuad(w: nat, d: char, col: nat, q: string)
    requires |q| == 4 && w > 0 && (w - col) % SIZE_T > 4
    ensures WriteQuads(w, d, col, [q]) == q
  {
    var (t, col') := WriteQuad(w, d, col, q);
    assert WriteQuads(w, d, col', []) == "" && q + "" == q;
  }

  // In a line of one to three characters the writer soon is beyond the end of it.
  lemma {:induction false} NarrowFails(w: nat, d: char, col: nat) returns (s: seq<byte>)
    requires 0 < w <= 3 && col <= 8
    ensures s != [] && ReadAll(w, d, col, WriteQuads(w, d, col, Quads(s))) != (s, true)
    decreases if col <= w then w + 1 - col else 0
  {
    hide Encode, Decode, Unpad;
    if col > w {
      s := [0];
      LastIsLost(w, d, col);
    } else {
      var b: seq<byte> := [0, 0, 0];
      var q := Encode(b);
      var (t, col') := WriteQuad(w, d, col, q);
      var more := NarrowFails(w, d, col');
      s := b + more;
      assert s[..3] == b && s[3..] == more;
      assert Quads(s) == [q] + Quads(more) && ([q] + Quads(more))[1..] == Quads(more);
      var rest := WriteQuads(w, d, col', Quads(more));
      NarrowReadsBack(w, d, col, q, rest);
      FullReadsBack(b);
    }
  }

  lemma NarrowReadsBack(w: nat, d: char, col: nat, q: string, more: string)
    requires 0 < w <= 3 && col <= w && |q| == 4
    ensures var (t, col') := WriteQuad(w, d, col, q);
            col' <= 8 && ReadQuad(w, d, col, t + more) == Four(q, more, col')
  {
    var av := w - col;
    assert av % SIZE_T == av && av % TWO32 == av;
    BrokenReadsBack(w, d, col, q, more);
  }

  /** A width is good for all messages exactly if it is zero, or at least four and a
      positive int; the constructors take any unsigned int. */
  lemma WidthsExactly(w: nat, d: char)
    requires w < TWO32
    ensures (forall s :: ReadAll(w, d, 0, WriteQuads(w, d, 0, Quads(s))) == (s, true)) <==> Usable(w)
  {
    hide ReadAll, WriteQuads, Quads;
    if Usable(w) {
      forall s ensures ReadAll(w, d, 0, WriteQuads(w, d, 0, Quads(s))) == (s, true) {
        RoundTrip(w, d, 0, s);
      }
    } else if w <= 3 {
      var s := NarrowFails(w, d, 0);
    } else {
      LastIsLost(w, d, 0);
    }
  }

  // ------------------------------------------------- what a line is

  // The text with a delimiter behind every w characters; room is what is left of this line.
  function Wrapped(text: string, room: nat, w: nat, d: char): (t: string)
  {
    if text == "" then ""
    else if room == 1 then [text[0]] + [d] + Wrapped(text[1..], w, w, d)
    else [text[0]] + Wrapped(text[1..], if room == 0 then 0 else room - 1, w, d)
  }

  function Text(qs: seq<string>): (t: string) {
    if qs == [] then "" else qs[0] + Text(qs[1..])
  }

  // No delimiter as long as the text fits.
  lemma {:induction false} WrappedPart(a: string, b: string, room: nat, w: nat, d: char)
    requires |a| < room || room == 0
    ensures Wrapped(a + b, room, w, d) == a + Wrapped(b, if room == 0 then 0 else room - |a|, w, d)
    decreases |a|
  {
    if a == "" {
      assert a + b == b;
    } else {
      assert (a + b)[1..] == a[1..] + b;
      WrappedPart(a[1..], b, if room == 0 then 0 else room - 1, w, d);
    }
  }

  /** The lines: what is written is the base64 text with a delimiter behind every w characters. */
  lemma {:induction false} LinesAreWrapped(w: nat, d: char, col: nat, qs: seq<string>)
    requires (w == 0 || (4 <= w < SIZE_T && col < w)) && forall q :: q in qs ==> |q| == 4
    ensures WriteQuads(w, d, col, qs) == Wrapped(Text(qs), if w == 0 then 0 else w - col, w, d)
    decreases |qs|
  {
    hide WriteQuad, Wrapped;
    if qs == [] {
      NothingWrapped(if w == 0 then 0 else w - col, w, d);
    } else {
      var q, rest := qs[0], Text(qs[1..]);
      assert q in qs;
      WriteShape(w, d, col, q);
      var (t, col') := WriteQuad(w, d, col, q);
      LinesAreWrapped(w, d, col', qs[1..]);
      if w > 0 && w - col <= 4 {
        WrappedQuad(q, rest, w - col, w, d);
      } else {
        WrappedPart(q, rest, if w == 0 then 0 else w - col, w, d);
      }
    }
  }

  lemma NothingWrapped(room: nat, w: nat, d: char)
    ensures Wrapped("", room, w, d) == ""
  {
  }

  lemma WriteShape(w: nat, d: char, col: nat, q: string)
    requires |q| == 4 && (w == 0 || (4 <= w < SIZE_T && col < w))
    ensures var k := w - col;
            WriteQuad(w, d, col, q)
            == if w > 0 && k <= 4 then (q[..k] + [d] + q[k..], 4 - k)
               else (q, if w == 0 then (col + 4) % SIZE_T else col + 4)
  {
    if w > 0 {
      assert (w - col) % SIZE_T == w - col;
      if w - col > 4 { assert (col + 4) % SIZE_T == col + 4; }
    }
  }

  // A group of four that reaches the end of the line.
  lemma WrappedQuad(q: string, rest: string, k: nat, w: nat, d: char)
    requires |q| == 4 && 1 <= k <= 4 <= w
    ensures Wrapped(q + rest, k, w, d) == q[..k] + [d] + q[k..] + Wrapped(rest, w - (4 - k), w, d)
  {
    hide Wrapped;
    var head, x, tail := q[..k - 1], q[k - 1], q[k..];
    var after := [x] + (tail + rest);
    assert q + rest == head + after && q[..k] == head + [x];
    assert after != "" && after[0] == x && after[1..] == tail + rest;
    WrappedPart(head, after, k, w, d);
    WrappedStep(after, w, d);
    WrappedPart(tail, rest, w, w, d);
    var more := Wrapped(rest, w - (4 - k), w, d);
    assert head + ([x] + [d] + (tail + more)) == head + [x] + [d] + tail + more;
  }

  lemma WrappedStep(text: string, w: nat, d: char)
    requires text != ""
    ensures Wrapped(text, 1, w, d) == [text[0]] + [d] + Wrapped(text[1..], w, w, d)
  {
  }

  /** A line is w characters and a delimiter, and the next line follows; what is shorter than a
      line has no delimiter, and with width 0 there is only one line. */
  lemma LineByLine(text: string, w: nat, d: char)
    ensures w > 0 && |text| >= w ==> Wrapped(text, w, w, d) == text[..w] + [d] + Wrapped(text[w..], w, w, d)
    ensures w == 0 || |text| < w ==> Wrapped(text, w, w, d) == text
  {
    hide Wrapped;
    if w > 0 && |text| >= w {
      var head, after := text[..w - 1], text[w - 1..];
      assert text == head + after && after[1..] == text[w..] && text[..w] == head + [after[0]];
      WrappedPart(head, after, w, w, d);
      WrappedStep(after, w, d);
      var more := Wrapped(text[w..], w, w, d);
      assert head + ([after[0]] + [d] + more) == head + [after[0]] + [d] + more;
    } else {
      WrappedPart(text, "", w, w, d);
      NothingWrapped(if w == 0 then 0 else w - |text|, w, d);
      assert text + "" == text;
    }
  }

  // ------------------------------------------------- the streams

  // The text and the column after these groups.
  function WriteState(w: nat, d: char, qs: seq<string>): (r: (string, nat))
    requires forall q :: q in qs ==> |q| == 4
    decreases |qs|
  {
    if qs == [] then ("", 0)
    else
      var front, q := qs[..|qs| - 1], qs[|qs| - 1];
      var (t, col) := WriteState(w, d, front);
      var (more, col') := WriteQuad(w, d, col, q);
      (t + more, col')
  }

  lemma {:induction false} StateIsText(w: nat, d: char, done: seq<string>, qs: seq<string>)
    requires (forall q :: q in done ==> |q| == 4) && (forall q :: q in qs ==> |q| == 4)
    ensures forall q :: q in done + qs ==> |q| == 4
    ensures var (t, col) := WriteState(w, d, done);
            WriteState(w, d, done + qs).0 == t + WriteQuads(w, d, col, qs)
    decreases |qs|
  {
    hide WriteQuad, WriteState, WriteQuads;
    QuadsStepped(w, d, done, qs);
    if qs == [] {
      assert done + qs == done;
    } else {
      var q := qs[0];
      assert q in qs && done + qs == (done + [q]) + qs[1..];
      StateIsText(w, d, done + [q], qs[1..]);
    }
  }

  lemma QuadsStepped(w: nat, d: char, done: seq<string>, qs: seq<string>)
    requires (forall q :: q in done ==> |q| == 4) && (forall q :: q in qs ==> |q| == 4)
    ensures qs == [] ==> forall col: nat :: WriteQuads(w, d, col, qs) == ""
    ensures qs != [] ==>
              && |qs[0]| == 4
              && (forall q :: q in done + [qs[0]] ==> |q| == 4) && (forall q :: q in qs[1..] ==> |q| == 4)
              && var (t, col) := WriteState(w, d, done);
                 var (more, col') := WriteQuad(w, d, col, qs[0]);
                 && WriteState(w, d, done + [qs[0]]) == (t + more, col')
                 && WriteQuads(w, d, col, qs) == more + WriteQuads(w, d, col', qs[1..])
  {
    hide WriteQuad;
    if qs != [] {
      assert qs[0] in qs && (done + [qs[0]])[..|done|] == done;
    }
  }

  lemma {:induction false} QuadsConcat(done: seq<byte>, last: seq<byte>)
    requires |done| % 3 == 0 && 1 <= |last| <= 3
    ensures Quads(done + last) == Quads(done) + [LastQuad(last)]
    decreases |done|
  {
    hide LastQuad, Encode;
    if done == [] {
      assert done + last == last;
    } else {
      assert (done + last)[..3] == done[..3] && (done + last)[3..] == done[3..] + last;
      QuadsConcat(done[3..], last);
      if |done| == 3 { FullIsLast(done); }
    }
  }

  lemma FullIsLast(b: seq<byte>)
    requires |b| == 3
    ensures LastQuad(b) == Encode(b) && b[..3] == b && b[3..] == [] && Quads(b) == [Encode(b)] && Quads([]) == []
  {
    assert b + Zeros(0) == b;
  }

  lemma StateStep(w: nat, d: char, done: seq<byte>, last: seq<byte>)
    requires |done| % 3 == 0 && 1 <= |last| <= 3
    ensures var (t, col) := WriteState(w, d, Quads(done));
            var (more, col') := WriteQuad(w, d, col, LastQuad(last));
            WriteState(w, d, Quads(done + last)) == (t + more, col')
  {
    hide WriteQuad, LastQuad, Quads;
    QuadsConcat(done, last);
    var qs := Quads(done + last);
    assert qs[..|qs| - 1] == Quads(done);
  }

  class OStreamBuf {
    var sink: string
    const delim: char
    const delimW: nat
    var col: nat
    const buf: array<byte>
    var n: nat // characters in the buffer

    constructor (w: nat, c: char)
      ensures fresh(buf) && delimW == w && delim == c && Holds([])
    {
      sink, delim, delimW, col, n := "", c, w, 0, 0;
      buf := new byte[3];
      new;
      assert buf[..0] == [];
    }

    // The message so far: what is encoded, and what is in the buffer.
    predicate Holds(m: seq<byte>)
      reads this, buf
    {
      && buf.Length == 3 && n <= 3 && n <= |m| && (|m| - n) % 3 == 0 && buf[..n] == m[|m| - n..]
      && (sink, col) == WriteState(delimW, delim, Quads(m[..|m| - n]))
    }

    // write
    method Write(q: string)
      requires |q| == 4
      modifies `sink, `col
      ensures sink == old(sink) + WriteQuad(delimW, delim, old(col), q).0
      ensures col == WriteQuad(delimW, delim, old(col), q).1
    {
      var rcol := (delimW - col) % SIZE_T;
      if delimW > 0 && rcol <= 4 {
        sink := sink + (q[..rcol] + [delim] + q[rcol..]);
        col := 4 - rcol;
      } else {
        sink := sink + q;
        col := (col + 4) % SIZE_T;
      }
    }

    method Emit(ghost last: seq<byte>, q: string, ghost m: seq<byte>)
      requires Holds(m) && last == buf[..n] && 1 <= n && q == LastQuad(last)
      modifies `sink, `col
      ensures (sink, col) == WriteState(delimW, delim, Quads(m))
    {
      hide WriteQuad, LastQuad, Quads, WriteState;
      ghost var done := m[..|m| - n];
      assert done + last == m;
      StateStep(delimW, delim, done, last);
      Write(q);
    }

    // overflow, when the buffer is full
    method Overflow(ghost m: seq<byte>)
      requires Holds(m) && n == 3
      modifies this
      ensures Holds(m) && n == 0
    {
      hide WriteState, WriteQuad, LastQuad, Encode, Quads;
      ghost var last := buf[..n];
      FullIsLast(last);
      Emit(last, Encode(buf[..n]), m);
      n := 0;
      NoneLeft(m);
    }

    // sputc
    method Sputc(c: byte, ghost m: seq<byte>)
      requires Holds(m)
      modifies this, buf
      ensures Holds(m + [c])
    {
      hide WriteState, Quads;
      if n == 3 { Overflow(m); }
      OneMore(m, n, c);
      ghost var was := buf[..n];
      buf[n] := c;
      n := n + 1;
      assert buf[..n] == was + [c];
    }

    // The destructor: the last group is filled up and padded.
    method Close(ghost m: seq<byte>)
      requires Holds(m)
      modifies this, buf
      ensures sink == WriteQuads(delimW, delim, 0, Quads(m))
    {
      hide WriteState, WriteQuad, LastQuad, Encode, Quads;
      Finished(delimW, delim, m);
      var av := 3 - n;
      if av == 3 {
        NoneLeft(m);
      } else {
        ghost var last := buf[..n];
        FillUp();
        var enc := Encode(buf[..]);
        PaddedQuad(last, enc);
        if 1 <= av { enc := enc[..3] + "="; }
        if 2 <= av { enc := enc[..2] + "=" + enc[3..]; }
        Emit(last, enc, m);
      }
    }

    // The rest of the buffer is filled with zeros.
    method FillUp()
      requires buf.Length == 3 && n <= 3
      modifies buf
      ensures buf[..n] == old(buf[..n]) && buf[..] == old(buf[..n]) + Zeros(3 - n)
    {
      ghost var last := buf[..n];
      for i := 0 to 3 - n
        invariant buf[..n] == last && forall k :: 3 - i <= k < 3 ==> buf[k] == 0
        modifies buf
      {
        buf[2 - i] := 0;
      }
      assert buf[..] == last + Zeros(3 - n);
    }
  }

  lemma NoneLeft(m: seq<byte>)
    ensures m[..|m| - 0] == m && m[|m| - 0..] == []
  {
  }

  lemma OneMore(m: seq<byte>, n: nat, c: byte)
    requires n <= |m|
    ensures (m + [c])[..|m| - n] == m[..|m| - n] && (m + [c])[|m| - n..] == m[|m| - n..] + [c]
  {
  }

  lemma Finished(w: nat, d: char, m: seq<byte>)
    ensures WriteState(w, d, Quads(m)).0 == WriteQuads(w, d, 0, Quads(m))
  {
    hide WriteQuads, Quads;
    StateIsText(w, d, [], Quads(m));
    assert [] + Quads(m) == Quads(m);
  }

  lemma PaddedQuad(last: seq<byte>, enc: string)
    requires 1 <= |last| <= 3 && enc == Encode(last + Zeros(3 - |last|))
    ensures |last| == 3 ==> LastQuad(last) == enc
    ensures |last| == 2 ==> LastQuad(last) == enc[..3] + "="
    ensures |last| == 1 ==> LastQuad(last) == (enc[..3] + "=")[..2] + "=" + (enc[..3] + "=")[3..]
  {
  }

  const EOF: int := -1

  class IStreamBuf {
    var source: string // what has not been read yet
    const delim: char
    const delimW: nat
    var col: nat
    var end: bool
    const buf: array<byte>
    var g: nat // the get area
    var e: nat

    constructor (text: string, w: nat, c: char)
      ensures fresh(buf) && delimW == w && delim == c && Valid()
      ensures Pending() == ReadAll(w, c, 0, text).0 && Sound() == ReadAll(w, c, 0, text).1
    {
      source, delim, delimW, col, end, g, e := text, c, w, 0, false, 0, 0;
      buf := new byte[3];
    }

    predicate Valid()
      reads this, buf
    {
      buf.Length == 3 && g <= e <= 3
    }

    // What is still to be delivered, and whether it comes without an error.
    function Pending(): (s: seq<byte>)
      requires Valid()
      reads this, buf
    {
      buf[g..e] + if end then [] else ReadAll(delimW, delim, col, source).0
    }

    predicate Sound()
      reads this
    {
      end || ReadAll(delimW, delim, col, source).1
    }

    /** underflow.  It fills the get area; what it returns is not the next character, as for
        a peek it should be, but 0. */
    method Underflow() returns (r: int)
      requires Valid() && g == e && Sound()
      modifies this, buf
      ensures Valid() && Sound() && Pending() == old(Pending())
      ensures r == if old(Pending()) == [] then -1 else 0
      ensures r == 0 ==> g < e
    {
      hide Unpad, Decode, Index, Letter;
      if end { return EOF; }
      match ReadQuad(delimW, delim, col, source)
      case End =>
        end := true;
        return EOF;
      case Four(enc, rest, c) =>
        source, col := rest, c;
        var (guarded, len) := Unpad(enc);
        if len != 3 { end := true; }
        var b := Decode(guarded).value;
        buf[0], buf[1], buf[2] := b[0], b[1], b[2];
        assert buf[..] == b && buf[0..len] == b[..len];
        assert len == 3 ==> b[..len] == b;
        g, e := 0, len;
        return 0;
    }

    // sbumpc of the base class: the next character, after underflow if there is none.
    method Sbumpc() returns (c: int)
      requires Valid() && Sound()
      modifies this, buf
      ensures Valid() && Sound()
      ensures if old(Pending()) == [] then c == -1 && Pending() == []
              else c == old(Pending())[0] && Pending() == old(Pending())[1..]
    {
      hide ReadAll;
      if g == e {
        var r := Underflow();
        if r == EOF { return EOF; }
      }
      c := Take();
    }

    // The next character of the get area.
    method Take() returns (c: byte)
      requires Valid() && g < e
      modifies `g
      ensures Valid() && old(Pending()) == [c] + Pending()
    {
      hide ReadAll;
      c := buf[g];
      g := g + 1;
    }
  }

  lemma TakeOne(s: seq<byte>, k: nat)
    requires k < |s|
    ensures s[..k + 1] == s[..k] + [s[k]]
  {
  }

  lemma TakeAll(s: seq<byte>)
    ensures s[..|s|] == s && s[..0] == []
  {
  }

  method EncodeAll(message: seq<byte>, w: nat, d: char) returns (text: string)
    ensures text == WriteQuads(w, d, 0, Quads(message))
  {
    hide OStreamBuf.Holds, WriteQuads, Quads;
    var o := new OStreamBuf(w, d);
    TakeAll(message);
    for k := 0 to |message|
      invariant fresh(o) && fresh(o.buf) && o.Holds(message[..k]) && o.delimW == w && o.delim == d
    {
      TakeOne(message, k);
      o.Sputc(message[k], message[..k]);
    }
    TakeAll(message);
    o.Close(message);
    text := o.sink;
  }

  method DecodeAll(text: string, w: nat, d: char) returns (back: seq<byte>)
    requires ReadAll(w, d, 0, text).1
    ensures back == ReadAll(w, d, 0, text).0
  {
    hide ReadAll, IStreamBuf.Pending, IStreamBuf.Sound;
    var i := new IStreamBuf(text, w, d);
    back := [];
    var c := 0;
    while c != EOF
      invariant fresh(i) && fresh(i.buf) && i.Valid() && i.Sound()
      invariant back + i.Pending() == ReadAll(w, d, 0, text).0 && (c == EOF ==> i.Pending() == [])
      decreases |i.Pending()|, c != EOF
    {
      ghost var p := i.Pending();
      c := i.Sbumpc();
      if c != EOF {
        assert back + p == (back + [c]) + p[1..];
        back := back + [c];
      }
    }
    assert back + [] == back;
  }

  /** Through both streams: all bytes come back, in order, and then the end; in between
      they are base64 text, broken into lines. */
  method ThereAndBack(message: seq<byte>, w: nat, d: char) returns (text: string, back: seq<byte>)
    requires Usable(w)
    ensures text == Wrapped(Text(Quads(message)), w, w, d) && back == message
  {
    hide ReadAll, WriteQuads, Quads, Wrapped, Text;
    text := EncodeAll(message, w, d);
    QuadsAreFour(message);
    LinesAreWrapped(w, d, 0, Quads(message));
    RoundTrip(w, d, 0, message);
    back := DecodeAll(text, w, d);
  }

  lemma QuadsAreFour(m: seq<byte>)
    ensures forall q :: q in Quads(m) ==> |q| == 4
  {
  }
}
