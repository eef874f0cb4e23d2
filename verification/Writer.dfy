/** The writer of the generated runtime: every block is written with a zero length first,
    which is patched in place when the block is complete; a record that fills the event
    buffer is written again into a buffer of twice the size. */
module Writer {
  import opened Basics
  import opened Slices
  import opened Xdr
  import opened Model

  const INITIAL_CAPACITY: nat := 100000

  // The first capacity of the series 100000, 200000, 400000, ... above n, from c on.
  function GrownFrom(c: nat, n: nat): (r: nat)
    requires c > 0
    ensures r > n && r >= c && (c % 4 == 0 ==> r % 4 == 0)
    decreases if n < c then 0 else n + 1 - c
  {
    if n < c then c else GrownFrom(2 * c, n)
  }

  lemma GrownStep(c: nat, n: nat)
    requires c > 0
    ensures GrownFrom(c, n) == if n < c then c else GrownFrom(2 * c, n)
  {
  }

  // Lengths and capacities are multiples of four.
  predicate IsWords(n: nat) {
    n % 4 == 0
  }

  lemma RoomForWord(n: nat, c: nat)
    requires n < c && IsWords(n) && IsWords(c)
    ensures c - n >= 4
  {
  }

  lemma RecordIsWords(m: Tag, r: Rec)
    requires Conforms(m, r)
    ensures IsWords(|EncodeRecord(m, r)|)
  {
    hide EncodeElem, Conforms, BigEndian;
    ElemIsWords(m, r);
  }

  lemma TwiceIsWords(c: nat)
    requires IsWords(c)
    ensures IsWords(2 * c)
  {
  }

  /** The capacity is an int in the code: it stays one exactly for records below
      100000 * 2^14 bytes. */
  lemma CapacityFits(n: nat)
    ensures GrownFrom(INITIAL_CAPACITY, n) < TWO31 <==> n < 1638400000
  {
    Doubling(INITIAL_CAPACITY, n, 14);
  }

  function Double(c: nat, k: nat): (d: nat)
    ensures d >= c
    decreases k
  {
    if k == 0 then c else Double(2 * c, k - 1)
  }

  lemma {:induction false} Doubling(c: nat, n: nat, k: nat)
    requires c > 0
    ensures n < Double(c, k) ==> GrownFrom(c, n) <= Double(c, k)
    ensures n >= Double(c, k) ==> GrownFrom(c, n) >= 2 * Double(c, k)
    decreases k
  {
    if k == 0 {
      if n >= c { assert GrownFrom(c, n) == GrownFrom(2 * c, n); }
    } else if n < c {
      assert Double(c, k) >= c;
    } else {
      Doubling(2 * c, n, k - 1);
    }
  }

  // The last bytes of b, from p on, are a string by section 3.11 of RFC 1832: its length, its
  // characters, and zeros up to a multiple of four.
  predicate EndsInText(b: seq<byte>, p: nat, s: seq<byte>) {
    && |b| == p + 4 + (|s| + 3) / 4 * 4
    && b[p..p + 4] == Four(|s|) && b[p + 4..p + 4 + |s|] == s
    && forall i :: p + 4 + |s| <= i < |b| ==> b[i] == 0
  }

  lemma TextBehind(was: seq<byte>, now: seq<byte>, s: seq<byte>)
    requires now == was + Padded(s)
    ensures EndsInText(now, |was|, s)
  {
    hide Padded, Four;
    TextMeans(s);
    var p, e := |was|, Padded(s);
    assert now[p..p + 4] == e[..4] && now[p + 4..p + 4 + |s|] == e[4..4 + |s|];
    forall i | p + 4 + |s| <= i < |now| ensures now[i] == 0 { assert now[i] == e[i - p]; }
  }

  class OStream {
    var data: array<byte>
    var pos: nat

    predicate Valid()
      reads this
    {
      pos <= data.Length && data.Length >= 4
    }

    constructor ()
      ensures Valid() && fresh(data) && data.Length == INITIAL_CAPACITY && pos == 0
    {
      data := new byte[INITIAL_CAPACITY](_ => 0);
      pos := 0;
    }

    // The bytes e have been appended; when they do not fit, the buffer is full.
    twostate predicate Appended(e: seq<byte>)
      reads this, data
    {
      && Valid() && data == old(data) && old(pos) <= data.Length
      && pos == Min(old(pos) + |e|, data.Length)
      && (old(pos) + |e| <= data.Length ==> data[..pos] == old(data[..pos]) + e)
    }

    // Nothing but the bytes between the old and the new position has changed.
    twostate predicate Local()
      reads this, data
    {
      data == old(data) &&
      forall i :: 0 <= i < data.Length && (i < old(pos) || i >= pos) ==> data[i] == old(data[i])
    }

    method Sputc(c: byte)
      requires Valid()
      modifies this`pos, data
      ensures Appended([c]) && Local()
    {
      if pos < data.Length {
        data[pos] := c;
        pos := pos + 1;
      }
    }

    method Sputn(s: seq<byte>)
      requires Valid()
      modifies this`pos, data
      ensures Appended(s) && Local()
    {
      for i := 0 to |s|
        invariant Valid() && pos == Min(old(pos) + i, data.Length) && Local()
        invariant old(pos) + i <= data.Length ==> data[..pos] == old(data[..pos]) + s[..i]
      {
        Sputc(s[i]);
      }
      assert s[..|s|] == s;
    }

    // Shift out the low bytes of v, then put them most significant first.
    method PutWord(v: nat, n: nat)
      requires Valid()
      modifies this`pos, data
      ensures Appended(BigEndian(v, n)) && Local()
    {
      var c := Shifted(v, n);
      Sputn(c);
    }

    method PutValue(w: Wire, v: Value)
      requires Valid() && Fits(w, v)
      modifies this`pos, data
      ensures Appended(EncodeValue(v, w))
    {
      hide BigEndian, Zeros;
      match w
      case Word => PutWord(v.n, 4);
      case Quad => PutWord(v.n, 8);
      case Pair => PutPair(v.n / TWO32, v.n % TWO32);
      case Chars => PutText(v.s);
    }

    method PutPair(hi: nat, lo: nat)
      requires Valid()
      modifies this`pos, data
      ensures Appended(U32(hi) + U32(lo))
    {
      hide BigEndian;
      PutWord(hi, 4);
      PutWord(lo, 4);
    }

    /** A string: if there is room, its length, its characters, and zeros up to the next
        multiple of four. */
    method PutText(s: seq<byte>)
      requires Valid()
      modifies this`pos, data
      ensures Appended(Padded(s))
      ensures old(pos) + 4 + (|s| + 3) / 4 * 4 <= data.Length ==> EndsInText(data[..pos], old(pos), s)
    {
      hide BigEndian, Zeros, EndsInText;
      PutWord(|s|, 4);
      Sputn(s);
      Sputn(Zeros(PadLength(|s|)));
      PadMeans(|s|);
      if old(pos) + |Padded(s)| <= data.Length { TextBehind(old(data[..pos]), data[..pos], s); }
    }

    // Of the bytes whole, all but rest have been appended.
    twostate predicate AppendedUpTo(whole: seq<byte>, rest: seq<byte>)
      reads this, data
    {
      var n := |whole| - |rest|;
      && n >= 0 && Valid() && data == old(data) && old(pos) <= data.Length
      && pos == Min(old(pos) + n, data.Length)
      && (old(pos) + n <= data.Length ==> data[..pos] + rest == old(data[..pos]) + whole)
    }

    // The generated streamer(ostream&) of class m.
    method ElementStreamer(m: Tag, r: Rec)
      requires Valid() && Conforms(m, r)
      modifies this`pos, data
      ensures Appended(EncodeElem(m, r))
      decreases m, 1
    {
      hide BigEndian, EncodeValue, EncodeList, Columns, Joined, Framed;
      AttributeStreamer(Columns(m.attrs), r.vals);
      MemberStreamer(m, r);
    }

    method AttributeStreamer(ws: seq<Wire>, vs: seq<Value>)
      requires Valid() && FitsAll(ws, vs)
      modifies this`pos, data
      ensures Appended(EncodeValues(ws, vs))
    {
      hide BigEndian, EncodeValue, Fits;
      ghost var parts := ValueParts(ws, vs);
      for i := 0 to |ws|
        invariant AppendedUpTo(EncodeValues(ws, vs), Joined(parts, i))
      {
        Regroup(data[..pos], parts[i], Joined(parts, i + 1));
        PutValue(ws[i], vs[i]);
      }
    }

    method MemberStreamer(m: Tag, r: Rec)
      requires Valid() && Conforms(m, r)
      modifies this`pos, data
      ensures Appended(Framed(Bodies(m, r), 0))
      decreases m, 0
    {
      hide Block, EncodeList, Columns, Repeats;
      ghost var bodies := Bodies(m, r);
      for i := 0 to |m.children|
        invariant AppendedUpTo(Framed(bodies, 0), Framed(bodies, i))
      {
        Regroup(data[..pos], Block(bodies[i]), Framed(bodies, i + 1));
        Insert(m.children[i], r.lists[i]);
      }
    }

    // operator<<(streamable): a zero, the object, and then the length over the zero.
    method Insert(m: Tag, es: seq<Rec>)
      requires Valid() && ConformsList(m, es)
      modifies this`pos, data
      ensures Appended(Block(EncodeList(m, es)))
      decreases m, 4
    {
      hide BigEndian, EncodeList, ConformsList, Conforms, Framed, Joined;
      PutWord(0, 4);
      var start := pos;
      ListStreamer(m, es);
      PatchBlock(start, EncodeList(m, es), old(data[..pos]));
    }

    // The streamers of list and link members.
    method ListStreamer(m: Tag, es: seq<Rec>)
      requires Valid() && ConformsList(m, es)
      modifies this`pos, data
      ensures Appended(EncodeList(m, es))
      decreases m, 3
    {
      hide BigEndian, EncodeElem, Conforms, Repeats, Joined, ElemParts;
      if |es| != 0 {
        if Repeats(m) {
          PutWord(|es|, 4);
          RepeatStreamer(m, es);
        } else {
          ElementStreamer(m, es[0]);
        }
      }
    }

    method RepeatStreamer(m: Tag, es: seq<Rec>)
      requires Valid() && forall j :: 0 <= j < |es| ==> Conforms(m, es[j])
      modifies this`pos, data
      ensures Appended(Joined(ElemParts(m, es), 0))
      decreases m, 2
    {
      hide EncodeElem, Conforms;
      ghost var parts := ElemParts(m, es);
      for i := 0 to |es|
        invariant AppendedUpTo(Joined(parts, 0), Joined(parts, i))
      {
        Regroup(data[..pos], parts[i], Joined(parts, i + 1));
        ElementStreamer(m, es[i]);
      }
    }

    // Back to the length word in front of start, and forward again.
    method Patch(start: nat, ghost body: seq<byte>)
      requires Valid() && 4 <= start <= pos
      requires pos < data.Length || start + |body| >= data.Length
      requires pos == Min(start + |body|, data.Length)
      modifies this`pos, data
      ensures Valid() && pos == old(pos) && data == old(data)
      ensures data[..pos][..start - 4] == old(data[..pos][..start - 4])
      ensures start + |body| <= data.Length ==> data[..pos][start - 4..start] == U32(|body|)
      ensures data[..pos][start..] == old(data[..pos][start..])
    {
      hide BigEndian;
      var end := pos;
      ghost var was := data[..];
      pos := start - 4;
      PutWord(end - start, 4);
      Overwritten(was, data[..], start, end);
      pos := end;
    }

    // Behind pre, the zero in front of the body becomes its length.
    method PatchBlock(start: nat, ghost body: seq<byte>, ghost pre: seq<byte>)
      requires Valid() && 4 <= start <= pos == Min(start + |body|, data.Length)
      requires |pre| + 4 + |body| <= data.Length ==> start == |pre| + 4 && data[..pos] == pre + U32(0) + body
      modifies this`pos, data
      ensures Valid() && pos == old(pos) && data == old(data)
      ensures |pre| + 4 + |body| <= data.Length ==> data[..pos] == pre + Block(body)
    {
      hide Block, U32;
      ghost var before := data[..pos];
      Patch(start, body);
      if |pre| + 4 + |body| <= data.Length { PatchedPrefix(before, data[..pos], pre, body, start); }
    }

    // The bytes of the record have been written from the start of the buffer.
    predicate Holds(bytes: seq<byte>)
      reads this, data
    {
      Valid() && pos == |bytes| && data[..pos] == bytes
    }

    // As many of the bytes as the buffer takes have been written from its start.
    predicate Filled(bytes: seq<byte>)
      reads this, data
    {
      && Valid() && pos == Min(|bytes|, data.Length)
      && (|bytes| <= data.Length ==> data[..pos] == bytes)
    }

    /** operator<<(HDDM): write the record, into larger and larger buffers until it fits.
        There is then room for a CRC. */
    method WriteRecord(m: Tag, r: Rec)
      requires Valid() && Conforms(m, r) && IsWords(data.Length)
      modifies this, data
      ensures Holds(EncodeRecord(m, r)) && (data == old(data) || fresh(data))
      ensures data.Length == GrownFrom(old(data.Length), |EncodeRecord(m, r)|)
      ensures data.Length - pos >= 4
    {
      hide EncodeRecord, Conforms, GrownFrom, Filled, IsWords;
      ghost var bytes := EncodeRecord(m, r);
      pos := 0;
      InsertRecord(m, r);
      FilledFacts(bytes);
      while pos == data.Length
        invariant Filled(bytes) && (data == old(data) || fresh(data)) && IsWords(data.Length) && data.Length >= 4
        invariant pos == Min(|bytes|, data.Length)
        invariant GrownFrom(data.Length, |bytes|) == GrownFrom(old(data.Length), |bytes|)
        decreases if |bytes| < data.Length then 0 else |bytes| + 1 - data.Length
      {
        GrownStep(data.Length, |bytes|);
        TwiceIsWords(data.Length);
        Enlarge(m, r);
        FilledFacts(bytes);
      }
      HeldFacts(bytes);
      GrownStep(data.Length, |bytes|);
      RecordIsWords(m, r);
      RoomForWord(|bytes|, data.Length);
    }

    lemma FilledFacts(bytes: seq<byte>)
      requires Filled(bytes)
      ensures Valid() && pos == Min(|bytes|, data.Length)
    {
    }

    lemma HeldFacts(bytes: seq<byte>)
      requires Filled(bytes) && pos < data.Length
      ensures Holds(bytes)
    {
    }

    // Once more, into a buffer of twice the size.
    method Enlarge(m: Tag, r: Rec)
      requires Valid() && Conforms(m, r)
      modifies this, data
      ensures Filled(EncodeRecord(m, r)) && fresh(data) && data.Length == 2 * old(data.Length)
    {
      hide EncodeRecord, Conforms, Filled;
      data := new byte[data.Length * 2](_ => 0);
      pos := 0;
      InsertRecord(m, r);
    }

    method InsertRecord(m: Tag, r: Rec)
      requires Valid() && Conforms(m, r) && pos == 0
      modifies this`pos, data
      ensures Filled(EncodeRecord(m, r)) && data == old(data)
    {
      hide BigEndian, Conforms, EncodeElem;
      PutWord(0, 4);
      var start := pos;
      ElementStreamer(m, r);
      PatchBlock(start, EncodeElem(m, r), []);
      Alone(Block(EncodeElem(m, r)));
    }

    // The CRC word behind a record.
    method PutChecksum(crc: nat, ghost bytes: seq<byte>)
      requires Holds(bytes) && data.Length - pos >= 4
      modifies this`pos, data
      ensures Holds(bytes + U32(crc))
    {
      PutWord(crc, 4);
    }
  }

  lemma Alone(a: seq<byte>)
    ensures [] + a == a
  {
  }

  lemma Regroup(a: seq<byte>, b: seq<byte>, c: seq<byte>)
    ensures (a + b) + c == a + (b + c)
  {
  }

  // Up to end, s and r differ in the four elements in front of start only.
  lemma Overwritten(s: seq<byte>, r: seq<byte>, start: nat, end: nat)
    requires 4 <= start <= end <= |s| == |r|
    requires forall i :: 0 <= i < |s| && (i < start - 4 || i >= start) ==> r[i] == s[i]
    ensures r[..end][..start - 4] == s[..end][..start - 4] && r[..end][start..] == s[..end][start..]
    ensures r[..end][start - 4..start] == r[..start][start - 4..]
  {
  }

  // With the length patched over the zero, the prefix pre is followed by a block.
  lemma PatchedPrefix(before: seq<byte>, after: seq<byte>, pre: seq<byte>, body: seq<byte>, start: nat)
    requires start == |pre| + 4 && |before| == |after| == start + |body|
    requires before == pre + U32(0) + body
    requires after[..start - 4] == before[..start - 4]
    requires after[start - 4..start] == U32(|body|)
    requires after[start..] == before[start..]
    ensures after == pre + Block(body)
  {
    assert after == after[..start - 4] + after[start - 4..start] + after[start..];
    assert before[..start - 4] == pre && before[start..] == body;
  }

  method Shifted(v0: nat, n: nat) returns (c: seq<byte>)
    ensures c == BigEndian(v0, n)
  {
    var v := v0;
    c := [];
    for i := 0 to n
      invariant BigEndian(v, n - i) + c == BigEndian(v0, n)
    {
      ghost var w := v;
      c := [v % 256] + c;
      v := v / 256;
      assert BigEndian(w, n - i) + c[1..] == BigEndian(v, n - i - 1) + c;
    }
    assert BigEndian(v, 0) + c == c;
  }
}
