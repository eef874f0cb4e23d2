/** Compressed blocks in a file.  Every block is a complete compressed stream behind its
    length; the readers of one file share its stream position and a few bytes that were
    read ahead, and each of them decompresses the blocks that it has claimed. */
module Framing {
  import opened Basics
  import opened Slices
  import opened Xdr
  import opened Model

  // ------------------------------------------------- the layout of the file

  // Where block number i starts, counted from the first one.
  function Offset(bodies: seq<seq<byte>>, i: nat): (p: nat)
    requires i <= |bodies|
  {
    if i == 0 then 0 else Offset(bodies, i - 1) + 4 + |bodies[i - 1]|
  }

  // The leading byte of a length is zero; that is how a block is told from an old stream.
  predicate BlockLengths(bodies: seq<seq<byte>>) {
    forall i :: 0 <= i < |bodies| ==> 4 <= |bodies[i]| < 0x100_0000
  }

  // From base on the file consists of these blocks.
  predicate Layout(data: seq<byte>, base: nat, bodies: seq<seq<byte>>) {
    BlockLengths(bodies) && At(data, base, Framed(bodies, 0)) && |data| == base + |Framed(bodies, 0)|
  }

  lemma {:induction false} FramedParts(data: seq<byte>, base: nat, bodies: seq<seq<byte>>, i: nat)
    requires At(data, base, Framed(bodies, 0)) && i <= |bodies|
    ensures At(data, base + Offset(bodies, i), Framed(bodies, i))
    ensures Offset(bodies, i) + |Framed(bodies, i)| == |Framed(bodies, 0)|
  {
    if i > 0 {
      FramedParts(data, base, bodies, i - 1);
      AtConcat(data, base + Offset(bodies, i - 1), Block(bodies[i - 1]), Framed(bodies, i));
    }
  }

  // Header and contents of block number i.
  lemma BlockParts(data: seq<byte>, base: nat, bodies: seq<seq<byte>>, i: nat)
    requires Layout(data, base, bodies) && i <= |bodies|
    ensures base + Offset(bodies, i) <= |data|
    ensures i == |bodies| ==> base + Offset(bodies, i) == |data|
    ensures i < |bodies| ==>
              var p, n := base + Offset(bodies, i), |bodies[i]|;
              && 4 <= n < 0x100_0000 && p + 4 + n == base + Offset(bodies, i + 1) <= |data|
              && data[p..p + 4] == U32(n) && data[p + 4..p + 4 + n] == bodies[i]
  {
    hide At;
    FramedParts(data, base, bodies, i);
    var p := base + Offset(bodies, i);
    if i < |bodies| {
      FramedParts(data, base, bodies, i + 1);
      AtConcat(data, p, Block(bodies[i]), Framed(bodies, i + 1));
      AtConcat(data, p, U32(|bodies[i]|), bodies[i]);
      AtInside(data, p, U32(|bodies[i]|));
      AtInside(data, p + 4, bodies[i]);
    }
  }

  lemma LengthReadsBack(n: nat)
    requires n < 0x100_0000
    ensures FromBigEndian(U32(n)) == n && U32(n)[0] == 0
  {
    Pow256Values();
    BigEndianRoundTrip(n, 4);
    assert U32(n) == BigEndian(n / 256, 3) + [n % 256];
    assert BigEndian(n / 256, 3) == BigEndian(n / 256 / 256, 2) + [n / 256 % 256];
    assert BigEndian(n / 256 / 256, 2) == BigEndian(n / 256 / 256 / 256, 1) + [n / 256 / 256 % 256];
    assert n / 256 / 256 / 256 == 0;
  }

  // ------------------------------------------------- shared state

  function Written(s: seq<byte>, at: nat, e: seq<byte>): (r: seq<byte>)
    requires at + |e| <= |s|
  {
    s[..at] + e + s[at + |e|..]
  }

  lemma Adjacent(s: seq<byte>, a: nat, b: nat, c: nat)
    requires a <= b <= c <= |s|
    ensures s[a..b] + s[b..c] == s[a..c]
  {
  }

  lemma DropSlice(s: seq<byte>, p: nat, k: nat, n: nat)
    requires k <= n && p + n <= |s|
    ensures s[p + k..p + n] == s[p..p + n][k..]
  {
  }

  lemma WrittenPrefix(s: seq<byte>, at: nat, e: seq<byte>)
    requires at + |e| <= |s|
    ensures |Written(s, at, e)| == |s| && Written(s, at, e)[..at + |e|] == s[..at] + e
  {
  }

  lemma WrittenTwice(s: seq<byte>, x: seq<byte>, y: seq<byte>)
    requires |x| + |y| <= |s|
    ensures |Written(s, 0, x)| == |s|
    ensures |Written(Written(s, 0, x), |x|, y)| == |s| && Written(Written(s, 0, x), |x|, y)[..|x| + |y|] == x + y
  {
    hide Written;
    WrittenPrefix(s, 0, x);
    WrittenPrefix(Written(s, 0, x), |x|, y);
    assert s[..0] + x == x;
  }

  // The streambuf of the file.
  class Source {
    const data: seq<byte>
    var pos: nat

    predicate Valid()
      reads this
    {
      pos <= |data|
    }

    // sgetn: up to n bytes go to dst from position at on.
    method Sgetn(dst: array<byte>, at: nat, n: nat) returns (got: nat)
      requires Valid() && at + n <= dst.Length
      modifies this`pos, dst
      ensures Valid() && got == Min(n, |data| - old(pos)) && pos == old(pos) + got
      ensures dst[..] == Written(old(dst[..]), at, data[old(pos)..old(pos) + got])
    {
      got := Min(n, |data| - pos);
      forall i | 0 <= i < got { dst[at + i] := data[pos + i]; }
      pos := pos + got;
    }
  }

  method Memcpy(dst: array<byte>, at: nat, src: array<byte>, from: nat, n: nat)
    requires dst != src && at + n <= dst.Length && from + n <= src.Length
    modifies dst
    ensures dst[..] == Written(old(dst[..]), at, src[from..from + n])
  {
    forall i | 0 <= i < n { dst[at + i] := src[from + i]; }
  }

  // The bytes that the reader of the last block has read beyond its end.
  class Leftovers {
    var len: nat
    const buf: array<byte>

    constructor ()
      ensures len == 0 && buf.Length == 64 && fresh(buf)
    {
      len, buf := 0, new byte[64];
    }
  }

  // How many bytes of the next block's contents are among len bytes read ahead.
  function Ahead(len: nat): (n: nat) {
    if len > 4 then len - 4 else 0
  }

  function Extra(data: seq<byte>, p: nat, len: nat): (b: seq<byte>)
    requires p + len <= |data|
  {
    if len > 4 then data[p + 4..p + len] else []
  }

  // The next block starts at p, whatever number of bytes has been read ahead.
  predicate SharedAt(sb: Source, left: Leftovers, p: nat)
    reads sb, left, left.buf
  {
    && sb.Valid() && left.buf.Length == 64 && left.len <= 8 && sb.pos == p + left.len
    && left.buf[..left.len] == sb.data[p..sb.pos]
    && (p == 0 ==> left.len == 0)
  }

  // A file of compressed blocks, and what they expand to.
  datatype File = File(base: nat, bodies: seq<seq<byte>>, contents: seq<seq<byte>>)

  ghost predicate Compressed(f: File, data: seq<byte>, c: Codec) {
    && Layout(data, f.base, f.bodies) && Lossless(c) && |f.contents| == |f.bodies|
    && forall i :: 0 <= i < |f.bodies| ==> f.bodies[i] == c.compress(f.contents[i]) && f.contents[i] != []
  }

  lemma FileParts(f: File, data: seq<byte>, c: Codec, j: nat)
    requires Compressed(f, data, c) && j < |f.bodies|
    ensures 4 <= |f.bodies[j]| && f.base + Offset(f.bodies, j + 1) <= |data|
    ensures f.base + Offset(f.bodies, j + 1) == f.base + Offset(f.bodies, j) + 4 + |f.bodies[j]|
  {
    BlockParts(data, f.base, f.bodies, j);
  }

  lemma {:induction false} OffsetGrows(bodies: seq<seq<byte>>, i: nat, j: nat)
    requires i < j <= |bodies|
    ensures Offset(bodies, i) < Offset(bodies, j)
  {
    if i < j - 1 { OffsetGrows(bodies, i, j - 1); }
  }

  // A block is known by where it starts.
  lemma SameBlock(f: File, i: nat, j: nat)
    requires j < |f.bodies|
    ensures Offset(f.bodies, |f.bodies|) != Offset(f.bodies, j)
    ensures i < |f.bodies| && Offset(f.bodies, i) == Offset(f.bodies, j) ==> i == j
  {
    OffsetGrows(f.bodies, j, |f.bodies|);
    if i < j { OffsetGrows(f.bodies, i, j); }
    if j < i < |f.bodies| { OffsetGrows(f.bodies, j, i); }
  }

  lemma ExpandFed(f: File, data: seq<byte>, c: Codec, j: nat, more: seq<byte>)
    requires Compressed(f, data, c) && j < |f.bodies| && |more| <= 4
    ensures c.expand(f.bodies[j] + more) == f.contents[j]
  {
  }

  lemma SharedAtZero(sb: Source, left: Leftovers, p: nat)
    requires SharedAt(sb, left, p)
    ensures sb.Valid() && left.buf.Length == 64 && left.len <= 8 && sb.pos == p + left.len
    ensures p == 0 ==> left.len == 0
    ensures |Extra(sb.data, p, left.len)| <= 4
  {
  }

  lemma NothingAhead(sb: Source, left: Leftovers, p: nat)
    requires p == |sb.data| && sb.Valid() && left.buf.Length == 64 && left.len <= 8 && sb.pos == p + left.len
    ensures SharedAt(sb, left, p)
  {
  }

  // The size of the input buffer.
  const BUFFER_SIZE: nat := 4000 * 1024

  // The size of the output buffer, 2% and 12 bytes more.
  const OUT_SIZE: nat := BUFFER_SIZE * 102 / 100 + 12

  /** A compression library.  Expanding a complete compressed stream stops at its end,
      whatever bytes follow. */
  datatype Codec = Codec(compress: seq<byte> -> seq<byte>, expand: seq<byte> -> seq<byte>)

  ghost predicate Lossless(c: Codec) {
    forall x, more :: |more| <= 4 ==> c.expand(c.compress(x) + more) == x
  }

  class IStreamBuf {
    const sb: Source
    const left: Leftovers
    const inBuf: array<byte>
    var end: bool
    var blockStart: nat
    var blockSize: nat
    var blockNext: nat
    var blockOffset: nat
    var newBlockStart: nat
    var newBlockOffset: nat

    const codec: Codec
    // The decompressor: its input, how much of its output is delivered, and whether it
    // wants to be called again before it gets new input.
    var stream: seq<byte>
    var done: nat
    var availIn: nat

    constructor (sb: Source, left: Leftovers, codec: Codec)
      requires sb.Valid() && left.buf.Length == 64
      ensures this.sb == sb && this.left == left && this.codec == codec && Separate() && fresh(inBuf)
      ensures inBuf.Length == 4_096_000 && newBlockStart == newBlockOffset == 0 && Idle()
    {
      this.sb, this.left, this.codec := sb, left, codec;
      inBuf := new byte[BUFFER_SIZE];
      end, blockStart, blockSize, blockNext, blockOffset, newBlockStart, newBlockOffset := false, sb.pos, 0, 0, 0, 0, 0;
      stream, done, availIn := [], 0, 0;
    }

    // Nothing claimed yet.
    predicate Idle()
      reads this
    {
      !end && blockSize == 0 && blockNext == 0 && blockOffset == 0 && availIn == 0 && stream == [] && done == 0
    }

    predicate Separate()
      reads this
    {
      left.buf != inBuf
    }

    // The locked part of read_inflate and of read_decompress: claim the next block.
    method ReadBlock(ghost base: nat, ghost bodies: seq<seq<byte>>, ghost j: nat) returns (read: nat, reinit: bool)
      requires Separate() && Layout(sb.data, base, bodies) && j <= |bodies| && sb.Valid() && Roomy(bodies)
      requires if newBlockStart > 0 then newBlockStart == base + Offset(bodies, j) && left.buf.Length == 64
               else SharedAt(sb, left, base + Offset(bodies, j))
      modifies sb`pos, left`len, left.buf, inBuf, `end, `blockStart, `blockSize, `blockNext, `newBlockStart
      ensures newBlockStart == 0 && blockStart == base + Offset(bodies, j)
      ensures j == |bodies| ==>
                && end && SharedAt(sb, left, blockStart) && blockSize == old(blockSize)
                && blockNext == (if old(newBlockStart) > 0 then 0 else old(blockNext))
      ensures j < |bodies| ==>
                && end == (old(newBlockStart) == 0 && old(end))
                && SharedAt(sb, left, base + Offset(bodies, j + 1))
                && blockSize == |bodies[j]| && blockNext == blockStart + 4 + blockSize == base + Offset(bodies, j + 1)
                && reinit == (old(newBlockStart) > 0 || old(blockNext) != blockStart)
                && Fed(bodies[j], if reinit then 0 else Ahead(old(left.len)), read)
    {
      hide At, Framed, Layout, Offset, Fed, U32, FromBigEndian, SharedAt;
      BlockParts(sb.data, base, bodies, j);
      if newBlockStart == 0 { SharedAtZero(sb, left, base + Offset(bodies, j)); }
      read, reinit := ReadLength();
      if read < 4 {
        end := true;
        NothingAhead(sb, left, blockStart);
        return;
      }
      read := TakeBlock(read, reinit, base, bodies, j);
    }

    // The length has been read; the rest of the claim.
    method TakeBlock(have: nat, reinit: bool, ghost base: nat, ghost bodies: seq<seq<byte>>, ghost j: nat)
      returns (read: nat)
      requires Separate() && j < |bodies| && sb.Valid() && |bodies[j]| + 4 <= inBuf.Length
      requires blockStart == base + Offset(bodies, j) && sb.pos == blockStart + have
      requires base + Offset(bodies, j + 1) == blockStart + 4 + |bodies[j]| <= |sb.data|
      requires 4 <= |bodies[j]| < 0x100_0000
      requires sb.data[blockStart..blockStart + 4] == U32(|bodies[j]|)
      requires sb.data[blockStart + 4..blockStart + 4 + |bodies[j]|] == bodies[j]
      requires left.buf.Length == 64 && have == 4 + Ahead(left.len) <= 8
      requires left.buf[..have] == sb.data[blockStart..sb.pos]
      modifies sb`pos, left`len, left.buf, inBuf, `blockSize, `blockNext
      ensures SharedAt(sb, left, base + Offset(bodies, j + 1))
      ensures blockSize == |bodies[j]| && blockNext == blockStart + 4 + blockSize
      ensures Fed(bodies[j], if reinit then 0 else Ahead(old(left.len)), read)
    {
      hide Offset, Fed, U32, FromBigEndian, SharedAt;
      LengthReadsBack(|bodies[j]|);
      assert left.buf[..4] == left.buf[..have][..4] == sb.data[blockStart..blockStart + 4];
      blockSize := FromBigEndian(left.buf[..4]);
      read := ReadContents(have - 4, reinit);
    }

    // The input buffer holds the block's contents from number skip on, and then what was
    // read ahead of the contents of the next block.
    predicate Fed(body: seq<byte>, skip: nat, read: nat)
      reads this, left, inBuf
    {
      && read <= inBuf.Length && skip <= |body| && blockNext + left.len <= |sb.data|
      && inBuf[..read] == body[skip..] + Extra(sb.data, blockNext, left.len)
    }

    predicate Roomy(bodies: seq<seq<byte>>) {
      forall i :: 0 <= i < |bodies| ==> |bodies[i]| + 4 <= inBuf.Length
    }

    // The first half: where the block starts, and at least its length.
    method ReadLength() returns (read: nat, reinit: bool)
      requires sb.Valid() && newBlockStart <= |sb.data| && left.buf.Length == 64
      requires newBlockStart == 0 ==> left.len <= sb.pos && SharedAt(sb, left, sb.pos - left.len)
      modifies sb`pos, left`len, left.buf, `end, `blockStart, `blockNext, `newBlockStart
      ensures newBlockStart == 0
      ensures blockStart == if old(newBlockStart) > 0 then old(newBlockStart) else old(sb.pos) - old(left.len)
      ensures left.len == (if old(newBlockStart) > 0 then 0 else old(left.len))
      ensures blockNext == (if old(newBlockStart) > 0 then 0 else old(blockNext))
      ensures end == (old(newBlockStart) == 0 && old(end))
      ensures reinit == (blockNext != blockStart)
      ensures sb.Valid() && sb.pos == blockStart + read
      ensures read == (if left.len >= 4 then left.len else Min(4, |sb.data| - blockStart))
      ensures left.buf[..read] == sb.data[blockStart..blockStart + read]
    {
      if newBlockStart > 0 {
        sb.pos := newBlockStart;
        blockStart := newBlockStart;
        newBlockStart, left.len, blockNext, end := 0, 0, 0, false;
      } else {
        blockStart := sb.pos - left.len;
      }
      reinit := blockNext != blockStart;
      read := left.len;
      if read < 4 {
        var got := sb.Sgetn(left.buf, read, 4 - read);
        read := read + got;
      }
    }

    // The second half: the contents, as far as they have not been read ahead.
    method ReadContents(ahead: nat, reinit: bool) returns (read: nat)
      requires Separate() && sb.Valid() && left.buf.Length == 64 && ahead == Ahead(left.len) <= 4
      requires sb.pos == blockStart + 4 + ahead && 4 <= blockSize && blockStart + 4 + blockSize <= |sb.data|
      requires blockSize + 4 <= inBuf.Length
      requires left.buf[..4 + ahead] == sb.data[blockStart..sb.pos]
      modifies sb`pos, left`len, left.buf, inBuf, `blockNext
      ensures blockNext == blockStart + 4 + blockSize && SharedAt(sb, left, blockNext)
      ensures Fed(sb.data[blockStart + 4..blockStart + 4 + blockSize], if reinit then 0 else ahead, read)
    {
      hide Extra;
      read := ReadRest(ahead, reinit);
      ghost var skip, body := if reinit then 0 else ahead, sb.data[blockStart + 4..blockStart + 4 + blockSize];
      DropSlice(sb.data, blockStart + 4, skip, blockSize);
      assert inBuf[..read] == body[skip..];
      read := ReadAhead(read);
    }

    method ReadRest(ahead: nat, reinit: bool) returns (read: nat)
      requires Separate() && sb.Valid() && ahead <= 4 && left.buf.Length == 64
      requires sb.pos == blockStart + 4 + ahead && 4 <= blockSize && blockStart + 4 + blockSize <= |sb.data|
      requires blockSize <= inBuf.Length
      requires left.buf[..4 + ahead] == sb.data[blockStart..sb.pos]
      modifies sb`pos, inBuf
      ensures sb.pos == blockStart + 4 + blockSize && read == blockSize - (if reinit then 0 else ahead)
      ensures inBuf[..read] == sb.data[sb.pos - read..sb.pos]
    {
      hide Written;
      read := ahead;
      if reinit && read > 0 {
        read := CopyRest(ahead);
      } else {
        ghost var was := inBuf[..];
        read := sb.Sgetn(inBuf, 0, blockSize - read);
        WrittenPrefix(was, 0, sb.data[sb.pos - read..sb.pos]);
      }
      assert inBuf[..read] == inBuf[..][..read];
    }

    // The bytes read ahead are copied in front of the rest.
    method CopyRest(ahead: nat) returns (read: nat)
      requires Separate() && sb.Valid() && 0 < ahead <= 4 && left.buf.Length == 64
      requires sb.pos == blockStart + 4 + ahead && 4 <= blockSize && blockStart + 4 + blockSize <= |sb.data|
      requires blockSize <= inBuf.Length
      requires left.buf[..4 + ahead] == sb.data[blockStart..sb.pos]
      modifies sb`pos, inBuf
      ensures sb.pos == blockStart + 4 + blockSize && read == blockSize
      ensures inBuf[..read] == sb.data[sb.pos - read..sb.pos]
    {
      hide Written;
      ghost var was, x, p := inBuf[..], sb.data[blockStart + 4..sb.pos], sb.pos;
      assert left.buf[4..4 + ahead] == left.buf[..4 + ahead][4..] == x;
      Memcpy(inBuf, 0, left.buf, 4, ahead);
      var got := sb.Sgetn(inBuf, ahead, blockSize - ahead);
      WrittenTwice(was, x, sb.data[p..sb.pos]);
      Adjacent(sb.data, blockStart + 4, p, sb.pos);
      read := ahead + got;
      assert inBuf[..read] == inBuf[..][..read];
    }

    // Read what may be the next block's length and the first bytes of its contents.
    method ReadAhead(have: nat) returns (read: nat)
      requires Separate() && sb.Valid() && left.buf.Length == 64 && sb.pos > 0 && have + 4 <= inBuf.Length
      modifies sb`pos, left`len, left.buf, inBuf, `blockNext
      ensures blockNext == old(sb.pos) && SharedAt(sb, left, blockNext)
      ensures read <= inBuf.Length && blockNext + left.len <= |sb.data|
      ensures inBuf[..read] == old(inBuf[..have]) + Extra(sb.data, blockNext, left.len)
    {
      hide Written;
      ghost var p, was, spare := sb.pos, inBuf[..], left.buf[..];
      left.len := sb.Sgetn(left.buf, 0, 8);
      WrittenPrefix(spare, 0, sb.data[p..sb.pos]);
      assert left.buf[..left.len] == left.buf[..][..left.len] == sb.data[p..sb.pos];
      read := have;
      if left.len > 4 {
        ghost var more := left.buf[4..left.len];
        assert more == left.buf[..left.len][4..] == sb.data[p + 4..sb.pos];
        Memcpy(inBuf, read, left.buf, 4, left.len - 4);
        WrittenPrefix(was, have, more);
        read := read + left.len - 4;
      }
      blockNext := sb.pos - left.len;
      assert inBuf[..read] == inBuf[..][..read] && was[..have] == old(inBuf[..have]);
    }

    // ------------------------------------------------- decompression

    // inflate(): up to n bytes of output.  At its end the stream may be reported with the
    // last bytes or, at the latest, when there are none left.
    method Inflate(n: nat) returns (out: seq<byte>)
      requires done <= |codec.expand(stream)| && availIn > 0
      modifies `done, `availIn, `blockNext
      ensures var all := codec.expand(stream);
              && done == old(done) + |out| == Min(old(done) + n, |all|) && out == all[old(done)..done]
              && (Ended() || (availIn == old(availIn) && blockNext == old(blockNext)))
              && (Ended() ==> done == |all|) && (old(done) + n > |all| ==> Ended())
    {
      var all := codec.expand(stream);
      var k := Min(n, |all| - done);
      out := all[done..done + k];
      done := done + k;
      var atEnd: bool := *;
      if k < n || (done == |all| && atEnd) {
        availIn := 0;
        blockNext := 0;
      }
    }

    predicate Ended()
      reads this
    {
      availIn == 0 && blockNext == 0
    }

    // Block number i is being decompressed.
    ghost predicate Loaded(f: File, i: nat)
      reads this
    {
      && i < |f.bodies| == |f.contents| && !end
      && blockStart == f.base + Offset(f.bodies, i) && blockSize == |f.bodies[i]| > 0
      && codec.expand(stream) == f.contents[i] && done <= |f.contents[i]|
      && (if availIn > 0 then blockNext == f.base + Offset(f.bodies, i + 1)
          else blockNext == 0 && done == |f.contents[i]|)
    }

    // Everything the methods need to know of the file.
    ghost predicate Open(f: File)
      reads this, sb
    {
      Separate() && sb.Valid() && left.buf.Length == 64 && Compressed(f, sb.data, codec) && Roomy(f.bodies)
    }

    // read_inflate: claim block number j and start to expand it.
    method ReadInflate(n: nat, ghost f: File, ghost j: nat) returns (out: seq<byte>)
      requires Open(f) && j <= |f.bodies|
      requires if newBlockStart > 0 then newBlockStart == f.base + Offset(f.bodies, j)
               else && SharedAt(sb, left, f.base + Offset(f.bodies, j)) && !end && blockNext == 0
                    && (f.base + Offset(f.bodies, j) == 0 ==> Idle())
      modifies this, sb`pos, left`len, left.buf, inBuf
      ensures Open(f) && newBlockStart == 0 && newBlockOffset == old(newBlockOffset)
      ensures blockStart == f.base + Offset(f.bodies, j)
      ensures j == |f.bodies| ==> end && out == [] && SharedAt(sb, left, f.base + Offset(f.bodies, j))
      ensures j < |f.bodies| ==>
                && SharedAt(sb, left, f.base + Offset(f.bodies, j + 1)) && Loaded(f, j) && blockOffset == 0
                && done == |out| == Min(n, |f.contents[j]|) && out == f.contents[j][..done]
    {
      hide Layout, At, Framed, Offset, Lossless, Roomy, Extra, SharedAt;
      out := [];
      if j < |f.bodies| { FileParts(f, sb.data, codec, j); }
      if newBlockStart == 0 { SharedAtZero(sb, left, f.base + Offset(f.bodies, j)); }
      var read, reinit := ReadBlock(f.base, f.bodies, j);
      if end {
        SharedAtZero(sb, left, blockStart);
        return;
      }
      SharedAtZero(sb, left, f.base + Offset(f.bodies, j + 1));
      ghost var more := Extra(sb.data, blockNext, left.len);
      ExpandFed(f, sb.data, codec, j, more);
      assert inBuf[..read] == f.bodies[j] + more;
      blockOffset := 0;
      assert read != 0; // no block is empty, so the end is not reported here
      out := StartStream(n, read, reinit, f.bodies[j] + more);
    }

    // The decompressor starts anew, unless it is new, and gets the input.
    method StartStream(n: nat, read: nat, reinit: bool, ghost input: seq<byte>) returns (out: seq<byte>)
      requires 0 < read <= inBuf.Length && inBuf[..read] == input && (!reinit ==> stream == [] && done == 0)
      modifies `stream, `done, `availIn, `blockNext
      ensures stream == input && done == |out| == Min(n, |codec.expand(input)|) && out == codec.expand(input)[..done]
      ensures if availIn > 0 then blockNext == old(blockNext) else blockNext == 0 && done == |codec.expand(input)|
    {
      if reinit { stream, done := [], 0; }
      stream := stream + inBuf[..read];
      assert stream == input;
      availIn := read;
      out := Inflate(n);
    }

    // ------------------------------------------------- reading

    // The next byte to be delivered is number o of block i.
    ghost predicate Reading(f: File, i: nat, o: nat)
      reads this
    {
      Loaded(f, i) && done == blockOffset == o
    }

    // The last claim found the end of the file.
    ghost predicate AtEnd(f: File)
      reads this
    {
      end && blockStart == f.base + Offset(f.bodies, |f.bodies|)
    }

    // set_new_position
    method SetNewPosition(start: nat, offset: nat)
      modifies `newBlockStart, `newBlockOffset
      ensures newBlockStart == start && newBlockOffset == offset
    {
      newBlockStart, newBlockOffset := start, offset;
    }

    /** The first part of xsgetn: go to a position that was asked for.  Whatever the state
        of the decompressor, the next byte then is the one at that position. */
    method Reposition(ghost f: File, ghost i: nat, ghost o: nat, ghost j: nat, ghost q: nat)
      requires Open(f) && j < |f.bodies|
      requires newBlockStart == f.base + Offset(f.bodies, j) > 0 && newBlockOffset == q <= |f.contents[j]|
      requires Reading(f, i, o) || Idle() || AtEnd(f)
      modifies this, sb`pos, left`len, left.buf, inBuf
      ensures Open(f) && Reading(f, j, q) && newBlockStart == newBlockOffset == 0
      ensures || SharedAt(sb, left, f.base + Offset(f.bodies, j + 1))
              || (unchanged(sb) && unchanged(left) && unchanged(left.buf))
    {
      hide Offset, Compressed, Roomy, SharedAt;
      SameBlock(f, i, j);
      if blockStart != newBlockStart || blockOffset > newBlockOffset || blockSize == 0 {
        var _ := ReadInflate(0, f, j);
      }
      SkipTo(f, j);
      newBlockStart, newBlockOffset := 0, 0;
    }

    // Output that nobody wants, up to the position asked for.
    method SkipTo(ghost f: File, ghost j: nat)
      requires j < |f.contents| && Reading(f, j, blockOffset) && blockOffset <= newBlockOffset <= |f.contents[j]|
      modifies `blockOffset, `done, `availIn, `blockNext
      ensures Reading(f, j, newBlockOffset)
    {
      hide Offset;
      while blockOffset < newBlockOffset
        invariant Reading(f, j, blockOffset) && blockOffset <= newBlockOffset
      {
        var k := Min(newBlockOffset - blockOffset, OUT_SIZE);
        blockOffset := blockOffset + k;
        var _ := Inflate(k);
      }
    }

    // A thread that has to claim a block before it can deliver anything.
    ghost predicate Drained(f: File, i: nat)
      reads this
    {
      Idle() || (Reading(f, i, blockOffset) && blockOffset == |f.contents[i]|)
    }

    /** The second part of xsgetn: deliver n bytes, from the current block or, if nothing is
        left of it, from the next one that nobody has claimed.  A reader asks only for
        pieces of one record, and no record is divided between blocks. */
    method Deliver(n: nat, ghost f: File, ghost i: nat, ghost j: nat) returns (ok: bool, buffer: seq<byte>)
      requires Open(f) && n > 0 && newBlockStart == 0
      requires || AtEnd(f)
               || (Reading(f, i, blockOffset) && blockOffset + n <= |f.contents[i]|)
               || (&& Drained(f, i) && j <= |f.bodies| && SharedAt(sb, left, f.base + Offset(f.bodies, j))
                   && (f.base + Offset(f.bodies, j) == 0 ==> Idle())
                   && (j < |f.bodies| ==> n <= |f.contents[j]|))
      modifies this, sb`pos, left`len, left.buf, inBuf
      ensures Open(f) && newBlockStart == 0 && newBlockOffset == old(newBlockOffset)
      ensures old(AtEnd(f)) ==> !ok && AtEnd(f) && unchanged(sb) && unchanged(left) && unchanged(left.buf)
      ensures old(Reading(f, i, blockOffset) && blockOffset + n <= |f.contents[i]|) ==>
                && ok && Reading(f, i, old(blockOffset) + n)
                && buffer == f.contents[i][old(blockOffset)..old(blockOffset) + n]
                && unchanged(sb) && unchanged(left) && unchanged(left.buf)
      ensures old(Drained(f, i)) && j < |f.bodies| ==>
                && ok && Reading(f, j, n) && buffer == f.contents[j][..n]
                && SharedAt(sb, left, f.base + Offset(f.bodies, j + 1))
      ensures old(Drained(f, i)) && j == |f.bodies| ==>
                !ok && AtEnd(f) && SharedAt(sb, left, f.base + Offset(f.bodies, j))
    {
      hide Offset, Lossless, Roomy, SharedAt, Layout;
      ghost var o := blockOffset;
      ghost var direct := Reading(f, i, o) && o + n <= |f.contents[i]|;
      buffer := [];
      if end { return false, []; }
      var availOut := n;
      if availIn > 0 {
        buffer := Inflate(n);
        availOut := n - |buffer|;
      }
      while !end && availOut > 0
        invariant Open(f) && newBlockStart == 0 && newBlockOffset == old(newBlockOffset)
        invariant direct ==>
                    && availOut == 0 && Loaded(f, i) && done == o + n && blockOffset == o
                    && buffer == f.contents[i][o..o + n]
                    && unchanged(sb) && unchanged(left) && unchanged(left.buf)
        invariant !direct ==>
                    || (&& availOut == n && buffer == [] && !end && blockNext == 0
                        && SharedAt(sb, left, f.base + Offset(f.bodies, j))
                        && (f.base + Offset(f.bodies, j) == 0 ==> Idle()))
                    || (&& j < |f.bodies| && availOut == 0 && Loaded(f, j) && done == n && blockOffset == 0
                        && buffer == f.contents[j][..n] && SharedAt(sb, left, f.base + Offset(f.bodies, j + 1)))
                    || (j == |f.bodies| && AtEnd(f) && availOut == n
                        && SharedAt(sb, left, f.base + Offset(f.bodies, j)))
        decreases if availOut > 0 then 1 else 0, !end
      {
        var out := ReadInflate(availOut, f, j);
        buffer := buffer + out;
        availOut := availOut - |out|;
      }
      if end && availOut > 0 { return false, buffer; }
      blockOffset := blockOffset + n;
      ok := true;
    }

    // xsgetn; q is the offset of a position that was asked for in block j.
    method Xsgetn(n: nat, ghost f: File, ghost i: nat, ghost j: nat, ghost q: nat) returns (ok: bool, buffer: seq<byte>)
      requires Open(f) && n > 0
      requires newBlockStart > 0 ==>
                 && j < |f.bodies| && newBlockStart == f.base + Offset(f.bodies, j) && newBlockOffset == q
                 && q + n <= |f.contents[j]| && (Reading(f, i, blockOffset) || Idle() || AtEnd(f))
      requires newBlockStart == 0 ==> newBlockOffset == 0
      requires newBlockStart == 0 ==>
                 || AtEnd(f)
                 || (Reading(f, i, blockOffset) && blockOffset + n <= |f.contents[i]|)
                 || (&& Drained(f, i) && j <= |f.bodies| && SharedAt(sb, left, f.base + Offset(f.bodies, j))
                     && (f.base + Offset(f.bodies, j) == 0 ==> Idle())
                     && (j < |f.bodies| ==> n <= |f.contents[j]|))
      modifies this, sb`pos, left`len, left.buf, inBuf
      ensures Open(f) && newBlockStart == newBlockOffset == 0
      ensures old(newBlockStart) > 0 ==> ok && buffer == f.contents[j][q..q + n] && Reading(f, j, q + n)
      ensures old(newBlockStart) == 0 && old(Reading(f, i, blockOffset) && blockOffset + n <= |f.contents[i]|) ==>
                && ok && Reading(f, i, old(blockOffset) + n)
                && buffer == f.contents[i][old(blockOffset)..old(blockOffset) + n]
                && unchanged(sb) && unchanged(left) && unchanged(left.buf)
      ensures old(newBlockStart) == 0 && old(Drained(f, i)) && j < |f.bodies| ==>
                && ok && Reading(f, j, n) && buffer == f.contents[j][..n]
                && SharedAt(sb, left, f.base + Offset(f.bodies, j + 1))
      ensures old(newBlockStart) == 0 && old(AtEnd(f)) ==>
                !ok && AtEnd(f) && unchanged(sb) && unchanged(left) && unchanged(left.buf)
      ensures old(newBlockStart) == 0 && old(Drained(f, i)) && j == |f.bodies| ==>
                !ok && AtEnd(f) && SharedAt(sb, left, f.base + Offset(f.bodies, j))
    {
      hide Offset, Lossless, Roomy, SharedAt, Layout;
      ghost var at := i;
      if newBlockStart > 0 || newBlockOffset > 0 {
        Reposition(f, i, blockOffset, j, q);
        at := j;
      }
      ok, buffer := Deliver(n, f, at, j);
    }

    // The position of the record whose length was just read.
    method GetPosition() returns (pos: Position)
      requires blockOffset >= 4
      ensures pos == Position(blockStart, blockOffset - 4)
    {
      pos := Position(blockStart, blockOffset - 4);
    }

    /** Reading a record's length gives the position of the record ... */
    method ReadLengthOf(ghost f: File, ghost i: nat, ghost j: nat) returns (ok: bool, head: seq<byte>, pos: Position)
      requires Open(f) && newBlockStart == newBlockOffset == 0
      requires || (Reading(f, i, blockOffset) && blockOffset + 4 <= |f.contents[i]|)
               || (&& Drained(f, i) && j < |f.bodies| && SharedAt(sb, left, f.base + Offset(f.bodies, j))
                   && (f.base + Offset(f.bodies, j) == 0 ==> Idle()) && 4 <= |f.contents[j]|)
      modifies this, sb`pos, left`len, left.buf, inBuf
      ensures ok && Open(f) && newBlockStart == newBlockOffset == 0
      ensures exists k: nat, o: nat ::
                PositionOf(f, pos, k, o) && Reading(f, k, o + 4) && head == f.contents[k][o..o + 4]
    {
      hide Offset, Lossless, Roomy, SharedAt, Layout;
      ghost var k, o := if Reading(f, i, blockOffset) && blockOffset + 4 <= |f.contents[i]| then i else j,
                        if Reading(f, i, blockOffset) && blockOffset + 4 <= |f.contents[i]| then blockOffset else 0;
      ok, head := Xsgetn(4, f, i, j, 0);
      pos := GetPosition();
      assert PositionOf(f, pos, k, o) && Reading(f, k, o + 4) && head == f.contents[k][o..o + 4];
    }

    /** ... and from any later state, going to that position and reading delivers the same
        bytes: the decompressor may be before it or behind it in the same block, in another
        block, at the end of one, or at the end of the file. */
    method ReadAt(pos: Position, n: nat, ghost f: File, ghost i: nat, ghost k: nat, ghost o: nat)
      returns (ok: bool, buffer: seq<byte>)
      requires Open(f) && f.base > 0 && PositionOf(f, pos, k, o) && 0 < n && o + n <= |f.contents[k]|
      requires Reading(f, i, blockOffset) || Idle() || AtEnd(f)
      modifies this, sb`pos, left`len, left.buf, inBuf
      ensures ok && buffer == f.contents[k][o..o + n] && Open(f) && Reading(f, k, o + n)
    {
      hide Offset, Lossless, Roomy, SharedAt, Layout;
      SetNewPosition(pos.start, pos.offset);
      ok, buffer := Xsgetn(n, f, i, k, o);
    }
  }

  datatype Position = Position(start: nat, offset: nat)

  predicate PositionOf(f: File, pos: Position, k: nat, o: nat) {
    k < |f.bodies| == |f.contents| && o < |f.contents[k]| && pos == Position(f.base + Offset(f.bodies, k), o)
  }
}
