/** MD5 on a message that arrives in pieces.  The function that takes one block of 64 bytes
    into the digest is a parameter. */
module Md5 {
  import opened Xdr

  // The four words of the digest buffer.
  datatype Words = Words(a: nat, b: nat, c: nat, d: nat)

  const INITIAL := Words(0x67452301, 0xefcdab89, 0x98badcfe, 0x10325476)

  type Process = (Words, seq<byte>) -> Words

  // ------------------------------------------------- RFC 1321

  // The blocks of m, one after the other.
  function Fold(f: Process, w: Words, m: seq<byte>): (r: Words)
    requires |m| % 64 == 0
    decreases |m|
  {
    if m == [] then w else Fold(f, f(w, m[..64]), m[64..])
  }

  // n bytes of v, least significant first.
  function LittleEndian(v: nat, n: nat): (b: seq<byte>)
    ensures |b| == n
  {
    if n == 0 then [] else [v % 256] + LittleEndian(v / 256, n - 1)
  }

  // Sections 3.1 and 3.2: a one bit, zeros up to 56 bytes modulo 64, and the length in bits.
  function Padding(n: nat): (b: seq<byte>)
    ensures (n + |b|) % 64 == 0
  {
    PadTo(n);
    [0x80] + Zeros((55 - n) % 64) + LittleEndian(8 * n % TWO64, 8)
  }

  // Whole blocks do not count modulo 64.
  lemma BlocksAside(n: int, k: int)
    ensures (n + 64 * k) % 64 == n % 64
  {
  }

  lemma PadTo(n: nat)
    ensures (n + 9 + (55 - n) % 64) % 64 == 0
  {
    var r, q := (55 - n) % 64, (55 - n) / 64;
    assert n + 9 + r == 0 + 64 * (1 - q);
    BlocksAside(0, 1 - q);
  }

  function Digest(w: Words): (d: seq<byte>) {
    LittleEndian(w.a, 4) + LittleEndian(w.b, 4) + LittleEndian(w.c, 4) + LittleEndian(w.d, 4)
  }

  function Md5Of(f: Process, m: seq<byte>): (d: seq<byte>) {
    Digest(Fold(f, INITIAL, m + Padding(|m|)))
  }

  lemma {:induction false} FoldsToItself(f: Process, w: Words, m: seq<byte>)
    requires |m| % 64 == 0 && forall w, b :: f(w, b) == w
    ensures Fold(f, w, m) == w
    decreases |m|
  {
    if m != [] { FoldsToItself(f, w, m[64..]); }
  }

  lemma InitialWords()
    ensures FourReversed(INITIAL.a) == [0x01, 0x23, 0x45, 0x67] && FourReversed(INITIAL.b) == [0x89, 0xab, 0xcd, 0xef]
    ensures FourReversed(INITIAL.c) == [0xfe, 0xdc, 0xba, 0x98] && FourReversed(INITIAL.d) == [0x76, 0x54, 0x32, 0x10]
  {
  }

  /** Section 3.3 of RFC 1321: the bytes that a digest starts with are those that come out
      again if the block function does nothing. */
  lemma InitialBytes(f: Process, m: seq<byte>)
    requires forall w, b :: f(w, b) == w
    ensures Md5Of(f, m) == [0x01, 0x23, 0x45, 0x67, 0x89, 0xab, 0xcd, 0xef,
                            0xfe, 0xdc, 0xba, 0x98, 0x76, 0x54, 0x32, 0x10]
  {
    hide Digest, LittleEndian, Padding, FourReversed;
    InitialWords();
    FoldsToItself(f, INITIAL, m + Padding(|m|));
    DigestBytesAre(INITIAL);
  }

  // The four bytes of a word, least significant first.
  function FourReversed(v: nat): (b: seq<byte>)
    ensures |b| == 4
  {
    [v % 0x100, v / 0x100 % 0x100, v / 0x1_0000 % 0x100, v / 0x100_0000 % 0x100]
  }

  lemma Quarters(v: nat)
    ensures v / 256 / 256 == v / 0x1_0000 && v / 256 / 256 / 256 == v / 0x100_0000
    ensures v / 256 / 256 / 256 / 256 == v / TWO32
  {
  }

  lemma WordBytes(v: nat, n: nat)
    requires n >= 4
    ensures LittleEndian(v, n)[..4] == FourReversed(v) && LittleEndian(v, n)[4..] == LittleEndian(v / TWO32, n - 4)
  {
    hide LittleEndian;
    Quarters(v);
    LittleEndianStep(v, n);
    LittleEndianStep(v / 256, n - 1);
    LittleEndianStep(v / 0x1_0000, n - 2);
    LittleEndianStep(v / 0x100_0000, n - 3);
    var b, more := FourReversed(v), LittleEndian(v / TWO32, n - 4);
    assert LittleEndian(v, n) == [b[0]] + ([b[1]] + ([b[2]] + ([b[3]] + more))) == b + more;
  }

  /** The digest is its four words, each least significant byte first. */
  lemma DigestBytesAre(w: Words)
    ensures Digest(w) == FourReversed(w.a) + FourReversed(w.b) + FourReversed(w.c) + FourReversed(w.d)
  {
    hide LittleEndian, FourReversed;
    WordBytes(w.a, 4);
    WordBytes(w.b, 4);
    WordBytes(w.c, 4);
    WordBytes(w.d, 4);
  }

  /** Sections 3.1 and 3.2, byte by byte: what is digested for a message m fills blocks of 64
      bytes; behind the message are a byte 80 (hex), zeros, and in the last eight bytes the
      length in bits, the low word first, and each word least significant byte first. */
  lemma PaddedMeans(m: seq<byte>)
    requires 8 * |m| < 0x1_0000_0000_0000_0000
    ensures var all := m + Padding(|m|);
            && |all| % 64 == 0 && |m| + 9 <= |all| <= |m| + 72
            && all[..|m|] == m && all[|m|] == 0x80
            && (forall i :: |m| < i < |all| - 8 ==> all[i] == 0)
            && all[|all| - 8..] == FourReversed(8 * |m| % 0x1_0000_0000) + FourReversed(8 * |m| / 0x1_0000_0000)
  {
    hide LittleEndian, FourReversed;
    var n, len := |m|, 8 * |m| % TWO64;
    PadTo(n);
    WordBytes(len, 8);
    WordBytes(len / TWO32, 4);
    LowBytes(len);
    var all := m + Padding(n);
    assert all[|all| - 8..] == LittleEndian(len, 8) == LittleEndian(len, 8)[..4] + LittleEndian(len, 8)[4..];
  }

  lemma LowBytes(v: nat)
    ensures FourReversed(v) == FourReversed(v % TWO32)
  {
    var q, r := v / TWO32, v % TWO32;
    assert v == 0x1_0000_0000 * q + r;
    SameByte(0x100_0000 * q, r, v);
    SecondByte(q, r);
    ThirdByte(q, r);
    FourthByte(q, r);
  }

  lemma SameByte(k: nat, r: nat, v: nat)
    requires v == 0x100 * k + r
    ensures v % 0x100 == r % 0x100
  {
  }

  lemma SecondByte(q: nat, r: nat)
    ensures (0x1_0000_0000 * q + r) / 0x100 % 0x100 == r / 0x100 % 0x100
  {
    assert (0x1_0000_0000 * q + r) / 0x100 == 0x100_0000 * q + r / 0x100;
    SameByte(0x1_0000 * q, r / 0x100, 0x100_0000 * q + r / 0x100);
  }

  lemma ThirdByte(q: nat, r: nat)
    ensures (0x1_0000_0000 * q + r) / 0x1_0000 % 0x100 == r / 0x1_0000 % 0x100
  {
    assert (0x1_0000_0000 * q + r) / 0x1_0000 == 0x1_0000 * q + r / 0x1_0000;
    SameByte(0x100 * q, r / 0x1_0000, 0x1_0000 * q + r / 0x1_0000);
  }

  lemma FourthByte(q: nat, r: nat)
    ensures (0x1_0000_0000 * q + r) / 0x100_0000 % 0x100 == r / 0x100_0000 % 0x100
  {
    assert (0x1_0000_0000 * q + r) / 0x100_0000 == 0x100 * q + r / 0x100_0000;
    SameByte(q, r / 0x100_0000, 0x100 * q + r / 0x100_0000);
  }

  // No padding is shorter: these are the smallest n + k that are 56 modulo 64.
  lemma PaddingIsMinimal(n: nat, k: nat)
    requires 0 < k && (n + k) % 64 == 56
    ensures k >= 1 + (55 - n) % 64
  {
  }

  lemma {:induction false} FoldConcat(f: Process, w: Words, a: seq<byte>, b: seq<byte>)
    requires |a| % 64 == 0 && |b| % 64 == 0
    ensures (|a| + |b|) % 64 == 0 && Fold(f, w, a + b) == Fold(f, Fold(f, w, a), b)
    decreases |a|
  {
    if a == [] {
      assert a + b == b;
    } else {
      assert (a + b)[..64] == a[..64] && (a + b)[64..] == a[64..] + b;
      FoldConcat(f, f(w, a[..64]), a[64..], b);
    }
  }

  lemma FoldOne(f: Process, w: Words, a: seq<byte>)
    requires |a| == 64
    ensures Fold(f, w, a) == f(w, a)
  {
    assert a[..64] == a && a[64..] == [];
  }

  // ------------------------------------------------- the length in two words

  // Two words hold the length in bits of n bytes.
  predicate IsCount(c0: nat, c1: nat, n: nat) {
    c0 < TWO32 && c1 < TWO32 && c0 + TWO32 * c1 == 8 * n % TWO64
  }

  lemma LowWord(c0: nat, n: nat)
    requires c0 < TWO32
    ensures var nbits := 8 * n % TWO32;
            var d0 := (c0 + nbits) % TWO32;
            c0 + 8 * n == d0 + TWO32 * (n / 0x2000_0000 + if d0 < nbits then 1 else 0)
  {
    var nbits, hi := 8 * n % TWO32, n / 0x2000_0000;
    assert 8 * n == TWO32 * hi + nbits;
    var carry := if c0 + nbits >= TWO32 then 1 else 0;
    assert (c0 + nbits) % TWO32 == c0 + nbits - TWO32 * carry;
  }

  lemma HighWord(bits: nat, d0: nat, c: nat, high: nat)
    requires d0 < TWO32 && bits % TWO64 + c == d0 + TWO32 * high
    ensures (bits + c) % TWO64 == d0 + TWO32 * (high % TWO32)
  {
    var k, q := bits / TWO64, high / TWO32;
    assert high == TWO32 * q + high % TWO32;
    assert bits == TWO64 * k + bits % TWO64;
    Remainder(bits + c, k + q, d0 + TWO32 * (high % TWO32));
  }

  /** The two words after a message of len bytes has grown by n. */
  lemma CountStep(c0: nat, c1: nat, n: nat, len: nat)
    requires IsCount(c0, c1, len)
    ensures var nbits := 8 * n % TWO32;
            var d0 := (c0 + nbits) % TWO32;
            IsCount(d0, ((c1 + n / 0x2000_0000) % TWO32 + if d0 < nbits then 1 else 0) % TWO32, len + n)
  {
    var nbits, hi := 8 * n % TWO32, n / 0x2000_0000;
    var d0 := (c0 + nbits) % TWO32;
    var carry := if d0 < nbits then 1 else 0;
    LowWord(c0, n);
    NestedMod(c1 + hi, carry);
    HighWord(8 * len, d0, 8 * n, c1 + hi + carry);
    assert 8 * len + 8 * n == 8 * (len + n);
  }

  lemma Remainder(x: nat, k: nat, y: nat)
    requires x == TWO64 * k + y && y < TWO64
    ensures x % TWO64 == y
  {
  }

  lemma CarryIsWord(x: nat)
    requires x < TWO32
    ensures (x + 0) % TWO32 == x
  {
  }

  lemma NestedMod(x: nat, y: nat)
    ensures (x % TWO32 + y) % TWO32 == (x + y) % TWO32
  {
  }

  // The low word alone tells the length modulo 64.
  lemma OffsetOfCount(c0: nat, c1: nat, n: nat)
    requires c0 < TWO32 && c0 + TWO32 * c1 == 8 * n % TWO64
    ensures c0 / 8 % 64 == n % 64
  {
    var q := 8 * n / TWO64;
    assert 8 * n == TWO64 * q + c0 + TWO32 * c1;
    var k := 0x80_0000_0000_0000 * q + 0x80_0000 * c1;
    assert c0 == 8 * (n - 64 * k);
    Eighth(n - 64 * k);
    BlocksAside(n, -k);
  }

  lemma Eighth(x: int)
    ensures 8 * x / 8 == x
  {
  }

  // ------------------------------------------------- the state

  class Md5State {
    const process: Process
    var count0: nat
    var count1: nat
    var abcd: Words
    const buf: array<byte>

    constructor (process: Process)
      ensures this.process == process && fresh(buf) && Holds([])
    {
      this.process := process;
      buf := new byte[64];
      count0, count1, abcd := 0, 0, INITIAL;
      new;
      NothingReached(process);
      assert buf[..0] == [];
    }

    // The state after message m: its length in bits, and its whole blocks digested with the
    // rest in the buffer.
    predicate Holds(m: seq<byte>)
      reads this, buf
    {
      Counts(|m|) && Digested(m)
    }

    predicate Counts(n: nat)
      reads this
    {
      IsCount(count0, count1, n)
    }

    predicate Digested(m: seq<byte>)
      reads this, buf
    {
      buf.Length == 64 && Reached(process, abcd, buf[..|m| % 64], m)
    }

    /** md5_append.  (The sum of the buffered and the new bytes is computed in an int.) */
    method Append(data: seq<byte>, ghost m: seq<byte>)
      requires Holds(m) && |data| + 63 < TWO31
      modifies this, buf
      ensures Holds(m + data)
    {
      hide Reached;
      OffsetOfCount(count0, count1, |m|);
      var offset := count0 / 8 % 64;
      if |data| <= 0 {
        assert m + data == m;
        return;
      }
      AddLength(|data|, |m|);
      var p: nat, left: nat := 0, |data|;
      assert m + data[..0] == m;
      if offset != 0 {
        var copy := if offset + |data| > 64 then 64 - offset else |data|;
        StorePartial(data, copy, offset, m);
        if offset + copy < 64 {
          assert data[..copy] == data;
          return;
        }
        p := copy;
        left := left - copy;
      }
      BlockFull(|m|, p);
      ProcessRest(data, p, left, m);
    }

    method AddLength(n: nat, ghost len: nat)
      requires Counts(len) && n < TWO31
      modifies `count0, `count1
      ensures Counts(len + n)
    {
      hide IsCount;
      CountStep(count0, count1, n, len);
      CarryIsWord((count1 + n / 0x2000_0000) % TWO32);
      var nbits := 8 * n % TWO32;
      count1 := (count1 + n / 0x2000_0000) % TWO32;
      count0 := (count0 + nbits) % TWO32;
      if count0 < nbits { count1 := (count1 + 1) % TWO32; }
    }

    // Put the first bytes of data behind those in the buffer, and process it if it is full.
    method StorePartial(data: seq<byte>, copy: nat, offset: nat, ghost m: seq<byte>)
      requires Digested(m) && offset == |m| % 64 && copy <= |data| && offset + copy <= 64
      modifies `abcd, buf
      ensures Digested(m + data[..copy])
    {
      hide Reached;
      ghost var rest, x := buf[..offset], data[..copy];
      forall i | 0 <= i < copy { buf[offset + i] := data[i]; }
      assert buf[..offset + copy] == rest + x;
      if offset + copy < 64 {
        Buffered(process, abcd, rest, m, x);
      } else {
        Filled(process, abcd, rest, m, x);
        assert buf[..] == rest + x;
        abcd := process(abcd, buf[..]);
        assert buf[..0] == [];
      }
    }

    // The whole blocks of what is left of data, and the rest.
    method ProcessRest(data: seq<byte>, p0: nat, left0: nat, ghost m: seq<byte>)
      requires p0 + left0 == |data| && Digested(m + data[..p0]) && (|m| + p0) % 64 == 0
      modifies `abcd, buf
      ensures Digested(m + data)
    {
      hide Reached;
      var p: nat, left: nat := p0, left0;
      while left >= 64
        invariant p + left == |data| && Digested(m + data[..p]) && (|m| + p) % 64 == 0
      {
        ghost var x := data[p..p + 64];
        Filled(process, abcd, [], m + data[..p], x);
        NextPiece(m, data, p, p + 64);
        NextBlock(|m| + p);
        abcd := process(abcd, data[p..p + 64]);
        assert buf[..0] == [];
        p, left := p + 64, left - 64;
      }
      if left != 0 {
        ghost var x := data[p..];
        forall i | 0 <= i < left { buf[i] := data[p + i]; }
        Buffered(process, abcd, [], m + data[..p], x);
        assert buf[..left] == [] + x;
        NextPiece(m, data, p, |data|);
      } else {
        assert data[..p] == data;
      }
    }

    /** md5_finish: the digest is that of the whole message, padded by the standard's rule. */
    method Finish(ghost m: seq<byte>) returns (digest: seq<byte>)
      requires Holds(m)
      modifies this, buf
      ensures digest == Md5Of(process, m)
    {
      hide Reached, Fold, LittleEndian, Zeros, Padding, Whole;
      ghost var c0, c1 := count0, count1;
      var data := Bytes([count0, count1]);
      var pad := [0x80] + Zeros(63);
      var n := (55 - count0 / 8) % 64 + 1;
      PadBytes(c0, c1, |m|, n);
      Append(pad[..n], m);
      Append(data, m + pad[..n]);
      LengthBytes(c0, c1, |m|, data);
      ghost var all := m + pad[..n] + data;
      PaddingParts(m, pad[..n], data);
      AllReached(process, abcd, buf[..|all| % 64], all);
      digest := Bytes([abcd.a, abcd.b, abcd.c, abcd.d]);
      DigestBytes(abcd, digest);
    }
  }

  lemma PaddingParts(m: seq<byte>, pad: seq<byte>, data: seq<byte>)
    requires pad == [0x80] + Zeros((55 - |m|) % 64) && data == LittleEndian(8 * |m| % TWO64, 8)
    ensures m + pad + data == m + Padding(|m|)
  {
    hide LittleEndian, Zeros;
    Regroup(m, pad, data);
  }

  lemma Regroup(m: seq<byte>, pad: seq<byte>, data: seq<byte>)
    ensures m + pad + data == m + (pad + data)
  {
  }

  lemma DigestBytes(w: Words, d: seq<byte>)
    requires |d| == 16 && forall i :: 0 <= i < 16 ==> d[i] == LittleEndian([w.a, w.b, w.c, w.d][i / 4], 4)[i % 4]
    ensures d == Digest(w)
  {
    hide LittleEndian;
  }

  lemma NextBlock(n: nat)
    requires n % 64 == 0
    ensures (n + 64) % 64 == 0
  {
  }

  lemma NextPiece(m: seq<byte>, data: seq<byte>, p: nat, q: nat)
    requires p <= q <= |data|
    ensures (m + data[..p]) + data[p..q] == m + data[..q] && [] + data[p..q] == data[p..q] && data[..|data|] == data
  {
  }

  lemma BlockFull(n: nat, p: nat)
    requires n % 64 + p == 64 || (n % 64 == 0 && p == 0)
    ensures (n + p) % 64 == 0
  {
  }

  lemma LittleEndianAt(v: nat, i: nat)
    requires i < 4
    ensures LittleEndian(v, 4)[i] == v / Pow256(i) % 256
  {
    assert v / 256 / 256 == v / 65536 && v / 65536 / 256 == v / 0x100_0000;
    var v1, v2, v3 := v / 256, v / 256 / 256, v / 256 / 256 / 256;
    assert LittleEndian(v, 4) == [v % 256] + LittleEndian(v1, 3);
    assert LittleEndian(v1, 3) == [v1 % 256] + LittleEndian(v2, 2);
    assert LittleEndian(v2, 2) == [v2 % 256] + LittleEndian(v3, 1);
    assert LittleEndian(v3, 1) == [v3 % 256] + LittleEndian(v3 / 256, 0);
    assert Pow256(0) == 1 && Pow256(1) == 256 && Pow256(2) == 65536 && Pow256(3) == 0x100_0000;
  }

  // Four bytes of the low word and four of the high one are the eight bytes of the pair.
  lemma {:induction false} LittleEndianPair(lo: nat, hi: nat, n: nat)
    requires lo < Pow256(n)
    ensures LittleEndian(lo, n) + LittleEndian(hi, 4) == LittleEndian(lo + Pow256(n) * hi, n + 4)
  {
    hide LittleEndian, Pow256;
    PowStep(n, hi);
    LittleEndianStep(lo, n);
    LittleEndianStep(lo + Pow256(n) * hi, n + 4);
    if n == 0 {
      assert [] + LittleEndian(hi, 4) == LittleEndian(hi, 4);
    } else {
      HighBytes(lo, Pow256(n - 1) * hi);
      LittleEndianPair(lo / 256, hi, n - 1);
    }
  }

  lemma PowStep(n: nat, x: nat)
    ensures Pow256(n) == if n == 0 then 1 else 256 * Pow256(n - 1)
    ensures n > 0 ==> Pow256(n) * x == 256 * (Pow256(n - 1) * x)
  {
  }

  lemma LittleEndianStep(v: nat, n: nat)
    ensures LittleEndian(v, n) == if n == 0 then [] else [v % 256] + LittleEndian(v / 256, n - 1)
  {
  }

  lemma HighBytes(lo: nat, x: nat)
    ensures (lo + 256 * x) % 256 == lo % 256 && (lo + 256 * x) / 256 == lo / 256 + x
  {
  }

  // The loops that take words apart: byte i of words[i / 4].
  method Bytes(words: seq<nat>) returns (b: seq<byte>)
    ensures |b| == 4 * |words|
    ensures forall i :: 0 <= i < |b| ==> b[i] == LittleEndian(words[i / 4], 4)[i % 4]
  {
    hide LittleEndian, Pow256;
    b := [];
    for i := 0 to 4 * |words|
      invariant |b| == i
      invariant forall j :: 0 <= j < i ==> b[j] == LittleEndian(words[j / 4], 4)[j % 4]
    {
      LittleEndianAt(words[i / 4], i % 4);
      b := b + [words[i / 4] / Pow256(i % 4) % 256];
    }
  }

  // The part of m that consists of whole blocks.
  function Whole(m: seq<byte>): (n: nat)
    ensures n <= |m| && n % 64 == 0 && |m| - n < 64 && |m| - n == |m| % 64
  {
    |m| / 64 * 64
  }

  // The whole blocks of m are in w, its last bytes are rest.
  predicate Reached(f: Process, w: Words, rest: seq<byte>, m: seq<byte>) {
    w == Fold(f, INITIAL, m[..Whole(m)]) && rest == m[Whole(m)..]
  }

  lemma Buffered(f: Process, w: Words, rest: seq<byte>, m: seq<byte>, x: seq<byte>)
    requires Reached(f, w, rest, m) && |rest| + |x| < 64
    ensures |rest| == |m| % 64 && |m + x| % 64 == |rest| + |x| && Reached(f, w, rest + x, m + x)
  {
    WholeOf(m, |x|, Whole(m + x));
    assert (m + x)[..Whole(m)] == m[..Whole(m)] && (m + x)[Whole(m)..] == m[Whole(m)..] + x;
  }

  lemma Filled(f: Process, w: Words, rest: seq<byte>, m: seq<byte>, x: seq<byte>)
    requires Reached(f, w, rest, m) && |rest| + |x| == 64
    ensures |rest| == |m| % 64 && |m + x| % 64 == 0 && Reached(f, f(w, rest + x), [], m + x)
  {
    var blocks := m[..Whole(m)];
    assert m + x == blocks + (rest + x);
    FoldConcat(f, INITIAL, blocks, rest + x);
    FoldOne(f, w, rest + x);
    assert |m + x| == Whole(m) + 64;
    assert Whole(m + x) == |m + x|;
    assert (m + x)[..|m + x|] == m + x;
  }

  lemma WholeOf(m: seq<byte>, k: nat, whole: nat)
    requires |m| - Whole(m) + k < 64 && whole == (|m| + k) / 64 * 64
    ensures whole == Whole(m)
  {
  }

  lemma AllReached(f: Process, w: Words, rest: seq<byte>, m: seq<byte>)
    requires Reached(f, w, rest, m) && |m| % 64 == 0
    ensures w == Fold(f, INITIAL, m)
  {
    assert m[..|m|] == m;
  }

  lemma LengthBytes(c0: nat, c1: nat, n: nat, data: seq<byte>)
    requires c0 < TWO32 && c1 < TWO32 && c0 + TWO32 * c1 == 8 * n % TWO64
    requires |data| == 8 && forall i :: 0 <= i < 8 ==> data[i] == LittleEndian([c0, c1][i / 4], 4)[i % 4]
    ensures data == LittleEndian(8 * n % TWO64, 8)
  {
    hide LittleEndian, Pow256;
    Pow256Values();
    LittleEndianPair(c0, c1, 4);
    var lo, hi := LittleEndian(c0, 4), LittleEndian(c1, 4);
    forall i | 0 <= i < 8 ensures data[i] == (lo + hi)[i] {
      assert i / 4 == (if i < 4 then 0 else 1) && i % 4 == if i < 4 then i else i - 4;
    }
  }

  lemma PadBytes(c0: nat, c1: nat, len: nat, n: int)
    requires c0 < TWO32 && c0 + TWO32 * c1 == 8 * len % TWO64 && n == (55 - c0 / 8) % 64 + 1
    ensures 0 < n <= 64 && ([0x80] + Zeros(63))[..n] == [0x80] + Zeros((55 - len) % 64)
    ensures (len + n) % 64 == 56
  {
    OffsetOfCount(c0, c1, len);
    SameDistance(c0 / 8, len);
    ZerosPrefix(n - 1);
  }

  lemma SameDistance(x: nat, y: nat)
    requires x % 64 == y % 64
    ensures (55 - x) % 64 == (55 - y) % 64 && (y + (55 - y) % 64 + 1) % 64 == 56
  {
    var k := x / 64 - y / 64;
    assert 55 - y == 55 - x + 64 * k;
    BlocksAside(55 - x, k);
    var q := (55 - y) / 64;
    assert y + (55 - y) % 64 + 1 == 56 + 64 * (0 - q);
    BlocksAside(56, 0 - q);
  }

  lemma ZerosPrefix(k: nat)
    requires k <= 63
    ensures ([0x80] + Zeros(63))[..k + 1] == [0x80] + Zeros(k)
  {
  }

  /** The digest does not depend on how the message is cut into pieces. */
  method DigestOf(f: Process, pieces: seq<seq<byte>>) returns (digest: seq<byte>)
    requires forall k :: 0 <= k < |pieces| ==> |pieces[k]| + 63 < TWO31
    ensures digest == Md5Of(f, Concatenated(pieces, 0))
  {
    hide Md5State.Holds, Md5Of;
    var pms := new Md5State(f);
    ghost var m := [];
    for k := 0 to |pieces|
      invariant pms.process == f && fresh(pms) && fresh(pms.buf) && pms.Holds(m)
      invariant m + Concatenated(pieces, k) == Concatenated(pieces, 0)
    {
      pms.Append(pieces[k], m);
      assert m + (pieces[k] + Concatenated(pieces, k + 1)) == (m + pieces[k]) + Concatenated(pieces, k + 1);
      m := m + pieces[k];
    }
    assert m + [] == m;
    digest := pms.Finish(m);
  }

  function Concatenated(pieces: seq<seq<byte>>, i: nat): (b: seq<byte>)
    requires i <= |pieces|
    decreases |pieces| - i
  {
    if i == |pieces| then [] else pieces[i] + Concatenated(pieces, i + 1)
  }

  lemma NothingReached(f: Process)
    ensures Reached(f, INITIAL, [], [])
  {
  }
}
