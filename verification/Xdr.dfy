/** External data representation: the four-byte units of RFC 1832, as the stream
    classes of xstream write them to and read them from a byte buffer. */
module Xdr {
  import opened Slices

  type byte = x: int | 0 <= x < 256

  const TWO31: int := 0x8000_0000
  const TWO32: int := 0x1_0000_0000
  const TWO64: int := 0x1_0000_0000_0000_0000

  // The C++ int32_t that has the bit pattern v.
  function Signed(v: int): (i: int)
    requires 0 <= v < TWO32
  {
    if v < TWO31 then v else v - TWO32
  }

  function Pow256(n: nat): (p: nat)
    ensures p > 0
  {
    if n == 0 then 1 else 256 * Pow256(n - 1)
  }

  // The low n bytes of v, most significant first.
  function BigEndian(v: nat, n: nat): (b: seq<byte>)
    ensures |b| == n
  {
    if n == 0 then [] else BigEndian(v / 256, n - 1) + [v % 256]
  }

  function FromBigEndian(b: seq<byte>): (v: nat)
  {
    if b == [] then 0 else FromBigEndian(b[..|b| - 1]) * 256 + b[|b| - 1]
  }

  lemma {:induction false} BigEndianRoundTrip(v: nat, n: nat)
    requires v < Pow256(n)
    ensures FromBigEndian(BigEndian(v, n)) == v
  {
    if n > 0 {
      assert v / 256 < Pow256(n - 1);
      BigEndianRoundTrip(v / 256, n - 1);
      assert BigEndian(v, n)[..n - 1] == BigEndian(v / 256, n - 1);
    }
  }

  lemma {:induction false} FromBigEndianBound(b: seq<byte>)
    ensures FromBigEndian(b) < Pow256(|b|)
  {
    if b != [] {
      FromBigEndianBound(b[..|b| - 1]);
    }
  }

  lemma {:induction false} BigEndianConcat(a: seq<byte>, c: seq<byte>)
    ensures FromBigEndian(a + c) == FromBigEndian(a) * Pow256(|c|) + FromBigEndian(c)
    decreases |c|
  {
    if c == [] {
      assert a + c == a;
    } else {
      var c' := c[..|c| - 1];
      assert (a + c)[..|a + c| - 1] == a + c';
      BigEndianConcat(a, c');
      MoveUp(FromBigEndian(a), Pow256(|c'|), FromBigEndian(c'));
    }
  }

  lemma MoveUp(x: nat, p: nat, y: nat)
    ensures (x * p + y) * 256 == x * (256 * p) + y * 256
  {
  }

  lemma {:induction false} FromBigEndianBack(b: seq<byte>)
    ensures BigEndian(FromBigEndian(b), |b|) == b
  {
    if b != [] {
      var front, last := b[..|b| - 1], b[|b| - 1];
      assert (FromBigEndian(front) * 256 + last) / 256 == FromBigEndian(front);
      FromBigEndianBack(front);
    }
  }

  // Eight bytes are two words, the high one first.
  lemma EightBytes(v: nat)
    requires v < TWO64
    ensures BigEndian(v, 8) == BigEndian(v / TWO32, 4) + BigEndian(v % TWO32, 4)
  {
    hide BigEndian, FromBigEndian, Pow256;
    var hi, lo := BigEndian(v / TWO32, 4), BigEndian(v % TWO32, 4);
    Pow256Values();
    BigEndianRoundTrip(v / TWO32, 4);
    BigEndianRoundTrip(v % TWO32, 4);
    BigEndianConcat(hi, lo);
    FromBigEndianBack(hi + lo);
  }

  lemma Pow256Values()
    ensures Pow256(4) == TWO32 && Pow256(8) == TWO64
  {
    assert Pow256(2) == 65536;
    assert Pow256(4) == TWO32;
    assert Pow256(6) == TWO32 * 65536;
  }

  function U32(v: nat): (b: seq<byte>)
    ensures |b| == 4
  {
    BigEndian(v, 4)
  }

  function U64(v: nat): (b: seq<byte>)
    ensures |b| == 8
  {
    BigEndian(v, 8)
  }

  // Section 3.11 of RFC 1832: zero to three residual bytes.
  function PadLength(len: nat): (p: nat)
    ensures p < 4 && (len + p) % 4 == 0
  {
    (4 - len % 4) % 4
  }

  function Zeros(n: nat): (z: seq<byte>)
    ensures |z| == n
  {
    seq(n, _ => 0)
  }

  function Padded(s: seq<byte>): (b: seq<byte>)
    ensures |b| == 4 + |s| + PadLength(|s|)
  {
    U32(|s|) + s + Zeros(PadLength(|s|))
  }

  // ---------------------------------------------------------------- reading

  /** n bytes read as one big-endian number.  When the buffer ends early sbumpc keeps
      returning EOF, which is or-ed into every bit of the number. */
  function ReadWord(b: seq<byte>, p: nat, n: nat): (r: (nat, nat))
    requires n == 4 || n == 8
    ensures r.0 < Pow256(n) && r.1 >= p
  {
    if p + n <= |b| then
      FromBigEndianBound(b[p..p + n]);
      (FromBigEndian(b[p..p + n]), p + n)
    else (Pow256(n) - 1, if p < |b| then |b| else p)
  }

  function ReadInt(b: seq<byte>, p: nat): (r: (int, nat))
    ensures r.1 >= p
  {
    var (v, q) := ReadWord(b, p, 4);
    Pow256Values();
    (Signed(v), q)
  }

  // Up to n bytes starting at p, filled up with zeros when the buffer ends early.
  function Slice(b: seq<byte>, p: nat, n: nat): (s: seq<byte>)
    ensures |s| == n
  {
    if p + n <= |b| then b[p..p + n]
    else if p < |b| then b[p..] + Zeros(n - (|b| - p))
    else Zeros(n)
  }

  function Skip(b: seq<byte>, p: nat, n: nat): (q: nat)
    ensures q >= p
  {
    if p + n <= |b| then p + n else if p < |b| then |b| else p
  }

  // A string of length zero leaves the target s0 as it was.
  function ReadText(b: seq<byte>, p: nat, s0: seq<byte>): (r: (seq<byte>, nat))
    ensures r.1 >= p
  {
    var (len, q) := ReadWord(b, p, 4);
    if len == 0 then (s0, q)
    else
      var q' := Skip(b, q, len);
      (Slice(b, q, len), Skip(b, q', PadLength(len)))
  }

  lemma ReadWordBack(b: seq<byte>, p: nat, v: nat, n: nat)
    requires n == 4 || n == 8
    requires v < Pow256(n) && At(b, p, BigEndian(v, n))
    ensures ReadWord(b, p, n) == (v, p + n)
  {
    BigEndianRoundTrip(v, n);
    AtInside(b, p, BigEndian(v, n));
  }

  lemma ReadIntBack(b: seq<byte>, p: nat, v: nat)
    requires v < TWO31 && At(b, p, U32(v))
    ensures ReadInt(b, p) == (v, p + 4)
  {
    Pow256Values();
    ReadWordBack(b, p, v, 4);
  }

  // What a string read returns from the bytes a string write produced.
  lemma ReadTextBack(b: seq<byte>, p: nat, s: seq<byte>, s0: seq<byte>)
    requires |s| < TWO32 && At(b, p, Padded(s))
    ensures ReadText(b, p, s0) == (if s == [] then s0 else s, p + |Padded(s)|)
  {
    var pad := Zeros(PadLength(|s|));
    assert Padded(s) == U32(|s|) + (s + pad);
    AtConcat(b, p, U32(|s|), s + pad);
    AtConcat(b, p + 4, s, pad);
    AtInside(b, p + 4, s);
    AtInside(b, p + 4 + |s|, pad);
    Pow256Values();
    ReadWordBack(b, p, |s|, 4);
  }

  // ------------------------------------------------- in figures

  // The number that four bytes stand for, from position p on.
  function Figure(b: seq<byte>, p: nat): (v: nat)
    requires p + 4 <= |b|
  {
    b[p] as nat * 0x100_0000 + b[p + 1] as nat * 0x1_0000 + b[p + 2] as nat * 0x100 + b[p + 3]
  }

  // The four bytes of a number.
  function Four(v: nat): (b: seq<byte>)
    ensures |b| == 4
  {
    [v / 0x100_0000 % 0x100, v / 0x1_0000 % 0x100, v / 0x100 % 0x100, v % 0x100]
  }

  lemma FourIsWord(v: nat)
    ensures U32(v) == Four(v)
    ensures v < 0x1_0000_0000 ==> Figure(U32(v), 0) == v
  {
    var v1, v2, v3 := v / 256, v / 256 / 256, v / 256 / 256 / 256;
    assert v2 == v / 0x1_0000 && v3 == v / 0x100_0000;
    assert BigEndian(v, 4) == BigEndian(v1, 3) + [v % 256];
    assert BigEndian(v1, 3) == BigEndian(v2, 2) + [v1 % 256];
    assert BigEndian(v2, 2) == BigEndian(v3, 1) + [v2 % 256];
    assert BigEndian(v3, 1) == BigEndian(v3 / 256, 0) + [v3 % 256];
  }

  // The high word of eight bytes comes first.
  lemma FourTwice(v: nat)
    requires v < 0x1_0000_0000_0000_0000
    ensures U64(v) == Four(v / 0x1_0000_0000) + Four(v % 0x1_0000_0000)
  {
    EightBytes(v);
    FourIsWord(v / 0x1_0000_0000);
    FourIsWord(v % 0x1_0000_0000);
  }

  lemma FigureOf(b: seq<byte>)
    requires |b| == 4
    ensures FromBigEndian(b) == Figure(b, 0)
  {
    assert b[..3][..2] == b[..2] && b[..2][..1] == b[..1] && b[..1][..0] == [];
    assert FromBigEndian(b[..1]) == b[0];
    assert FromBigEndian(b[..2]) == b[0] as nat * 256 + b[1];
    assert FromBigEndian(b[..3]) == (b[0] as nat * 256 + b[1]) * 256 + b[2];
  }

  /** What is read as a word of four bytes: the number in them, most significant first, or
      all one bits at an end of the buffer that comes too early. */
  lemma WordMeans(b: seq<byte>, p: nat)
    ensures ReadWord(b, p, 4)
            == if p + 4 <= |b| then (Figure(b, p), p + 4) else (0xffff_ffff, if p < |b| then |b| else p)
  {
    Pow256Values();
    if p + 4 <= |b| { FigureOf(b[p..p + 4]); }
  }

  lemma LongMeans(b: seq<byte>, p: nat)
    ensures p + 8 <= |b| ==> ReadWord(b, p, 8) == (Figure(b, p) * 0x1_0000_0000 + Figure(b, p + 4), p + 8)
    ensures p + 8 > |b| ==> ReadWord(b, p, 8) == (0xffff_ffff_ffff_ffff, if p < |b| then |b| else p)
  {
    hide FromBigEndian, Pow256;
    Pow256Values();
    if p + 8 <= |b| {
      var hi, lo := b[p..p + 4], b[p + 4..p + 8];
      assert b[p..p + 8] == hi + lo;
      BigEndianConcat(hi, lo);
      FigureOf(hi);
      FigureOf(lo);
    }
  }

  // An int of C++ is the number in two's complement.
  lemma IntMeans(b: seq<byte>, p: nat)
    requires p + 4 <= |b|
    ensures var (i, q) := ReadInt(b, p);
            q == p + 4 && -0x8000_0000 <= i < 0x8000_0000 && (i == Figure(b, p) || i == Figure(b, p) - 0x1_0000_0000)
  {
    WordMeans(b, p);
  }

  // Where a string of n characters at p ends: at a multiple of four bytes behind its length.
  function TextEnd(p: nat, n: nat): (q: nat) {
    p + 4 + (n + 3) / 4 * 4
  }

  lemma PadMeans(n: nat)
    ensures n + PadLength(n) == (n + 3) / 4 * 4
  {
    var q, r := n / 4, n % 4;
    assert n == 4 * q + r;
    if r == 0 {
      assert (n + 3) / 4 == q;
    } else {
      assert (n + 3) / 4 == q + 1;
    }
  }

  /** Section 3.11 of RFC 1832, byte by byte: the length, the characters, and zeros up to a
      multiple of four. */
  lemma TextMeans(s: seq<byte>)
    ensures var b := Padded(s);
            && |b| == TextEnd(0, |s|) && b[..4] == Four(|s|) && b[4..4 + |s|] == s
            && (|s| < 0x1_0000_0000 ==> Figure(b, 0) == |s|)
            && forall i :: 4 + |s| <= i < |b| ==> b[i] == 0
  {
    PadMeans(|s|);
    FourIsWord(|s|);
  }

  /** What is read as a string, if all of it is there. */
  lemma TextReadMeans(b: seq<byte>, p: nat, s0: seq<byte>)
    requires p + 4 <= |b| && TextEnd(p, Figure(b, p)) <= |b|
    ensures var n := Figure(b, p);
            ReadText(b, p, s0) == if n == 0 then (s0, p + 4) else (b[p + 4..p + 4 + n], TextEnd(p, n))
  {
    WordMeans(b, p);
    PadMeans(Figure(b, p));
  }

  // ---------------------------------------------------------------- the read side

  /** The read side: an istreambuffer with the xdr::istream on top of it. */
  class InBuffer {
    var data: seq<byte>
    var pos: nat

    constructor (bytes: seq<byte>)
      ensures data == bytes && pos == 0
    {
      data, pos := bytes, 0;
    }

    method Sbumpc() returns (c: int)
      modifies this`pos
      ensures c == if old(pos) < |data| then data[old(pos)] else -1
      ensures pos == if old(pos) < |data| then old(pos) + 1 else old(pos)
    {
      if pos < |data| {
        c := data[pos];
        pos := pos + 1;
      } else {
        c := -1;
      }
    }

    // The shift loop of operator>>: v <<= 8; v |= c, in a word of n bytes.
    method GetWord(n: nat) returns (v: nat)
      requires n == 4 || n == 8
      modifies this`pos
      ensures (v, pos) == ReadWord(data, old(pos), n)
    {
      hide Pow256, FromBigEndian;
      v := 0;
      var i := 0;
      ghost var p := pos;
      TakeNothing(data, p);
      Pow256Values();
      while i < n
        invariant i <= n && v < Pow256(n) && (i == 0 ==> pos == p)
        invariant p + i <= |data| ==> pos == p + i && v < Pow256(i) && v == FromBigEndian(data[p..p + i])
        invariant p + i > |data| && i > 0 ==> v == Pow256(n) - 1 && pos == if p < |data| then |data| else p
      {
        if p + i < |data| { TakeByte(data, p, i, n); }
        var c := Sbumpc();
        v := v * 256 % Pow256(n);
        if c < 0 {
          v := Pow256(n) - 1;
        } else {
          v := v + c;
        }
        i := i + 1;
      }
    }

    method GetInt() returns (v: int)
      modifies this`pos
      ensures (v, pos) == ReadInt(data, old(pos))
    {
      var u := GetWord(4);
      Pow256Values();
      v := Signed(u);
    }

    method Sgetn(n: nat) returns (s: seq<byte>)
      modifies this`pos
      ensures s == Slice(data, old(pos), n) && pos == Skip(data, old(pos), n)
    {
      s := Slice(data, pos, n);
      pos := Skip(data, pos, n);
    }

    method GetText(s0: seq<byte>) returns (s: seq<byte>)
      modifies this`pos
      ensures (s, pos) == ReadText(data, old(pos), s0)
    {
      s := s0;
      var len := GetWord(4);
      if len > 0 {
        s := Sgetn(len);
        var dummy := Sgetn(PadLength(len));
      }
    }
  }

  // A word of n bytes with i of them filled does not lose bits in the next shift.
  lemma {:induction false} ShiftStep(v: nat, i: nat, n: nat)
    requires i < n
    ensures v < Pow256(i) ==> v * 256 < Pow256(i + 1) <= Pow256(n) && v * 256 % Pow256(n) == v * 256
    ensures v * 256 < Pow256(i + 1) ==> v * 256 + 255 < Pow256(i + 1)
  {
    PowMonotone(i + 1, n);
    var k, m := Pow256(i), Pow256(n);
    assert Pow256(i + 1) == 256 * k;
    hide Pow256;
    if v < k {
      ModSmall(v * 256, m);
    }
  }

  lemma TakeNothing(data: seq<byte>, p: nat)
    ensures p <= |data| ==> FromBigEndian(data[p..p]) == 0
    ensures 0 < Pow256(0)
  {
  }

  // One more byte is shifted in.
  lemma TakeByte(data: seq<byte>, p: nat, i: nat, n: nat)
    requires p + i < |data| && i < n
    ensures var v := FromBigEndian(data[p..p + i]);
            var v' := v * 256 % Pow256(n) + data[p + i];
            v' == FromBigEndian(data[p..p + i + 1]) && v' < Pow256(i + 1) <= Pow256(n)
  {
    hide Pow256;
    var b := data[p..p + i + 1];
    assert b[..i] == data[p..p + i] && b[i] == data[p + i];
    FromBigEndianBound(b[..i]);
    FromBigEndianBound(b);
    ShiftStep(FromBigEndian(b[..i]), i, n);
    PowMonotone(i + 1, n);
  }

  lemma ModSmall(x: nat, m: nat)
    requires x < m
    ensures x % m == x
  {
  }

  lemma {:induction false} PowMonotone(i: nat, n: nat)
    requires i <= n
    ensures Pow256(i) <= Pow256(n)
    decreases n - i
  {
    if i < n {
      PowMonotone(i + 1, n);
    }
  }
}
