/** Control tokens in the record stream.  A token stands where a record would, marked by
    the length 1, and tells the reader the writer's new status bits: whether records carry
    a CRC, and whether the stream is compressed from here on. */
module Control {
  import opened Xdr
  import opened Model

  const COMPRESSION: bv32 := 0xf0
  const INTEGRITY: bv32 := 0x0f
  const CRC32_INTEGRITY: bv32 := 0x01
  const CAN_REPOSITION: bv32 := 0x100

  // The writer's operations; a record is given by its bytes behind the length.
  datatype Cmd = Record(body: seq<byte>) | Integrity(flags: bv32) | Compression(flags: bv32)

  // A record as delivered, and the status bits under which it was read.
  datatype Delivery = Delivery(body: seq<byte>, status: bv32)

  function And(s: bv32, mask: bv32): (r: bv32) { s & mask }

  // fetch_and, then fetch_or
  function Replace(s: bv32, mask: bv32, flags: bv32): (r: bv32) {
    (s & (!mask | flags)) | (mask & flags)
  }

  // The two atomic operations put the flags in the place of the bits under the mask.
  lemma ReplaceBits(s: bv32, mask: bv32, flags: bv32)
    ensures And(Replace(s, mask, flags), mask) == And(flags, mask)
    ensures And(Replace(s, mask, flags), !mask) == And(s, !mask)
  {
    RawBits(s, mask, flags);
  }

  lemma RawBits(s: bv32, mask: bv32, flags: bv32)
    ensures ((s & (!mask | flags)) | (mask & flags)) & mask == flags & mask
    ensures ((s & (!mask | flags)) | (mask & flags)) & !mask == s & !mask
  {
  }

  predicate Compresses(s: bv32) { And(s, COMPRESSION) != 0 }

  predicate Checks(s: bv32) { And(s, CRC32_INTEGRITY) != 0 }

  function WithReposition(s: bv32): (r: bv32) { s | CAN_REPOSITION }

  // The status word after setCompression
  function WithCompression(s: bv32, flags: bv32): (r: bv32) {
    var r := Replace(s, COMPRESSION, flags);
    if Compresses(flags) then WithReposition(r) else r
  }

  // A status word as the int that is written, and back.
  function Number(s: bv32): (n: nat)
    ensures n < TWO32
  {
    s as nat
  }

  function Bits(n: nat): (s: bv32)
    requires n < TWO32
  {
    n as bv32
  }

  lemma NumberBits(s: bv32)
    ensures Bits(Number(s)) == s
  {
  }

  function Token(s: bv32): (b: seq<byte>)
    ensures |b| == 16
  {
    U32(1) + U32(8) + U32(0) + U32(Number(s))
  }

  // A checksum algorithm.
  type Crc = seq<byte> -> nat

  // ------------------------------------------------- what a command means

  predicate Changes(cmd: Cmd, s: bv32) {
    match cmd
    case Record(_) => false
    case Integrity(flags) => And(s, INTEGRITY) != And(flags, INTEGRITY)
    case Compression(flags) => And(s, COMPRESSION) != And(flags, COMPRESSION)
  }

  function After(cmd: Cmd, s: bv32): (s': bv32) {
    if !Changes(cmd, s) then s
    else if cmd.Integrity? then Replace(s, INTEGRITY, cmd.flags)
    else WithCompression(s, cmd.flags)
  }

  // The bytes it puts on the stream.
  function Emit(crc: Crc, cmd: Cmd, s: bv32): (b: seq<byte>) {
    match cmd
    case Record(body) => Block(body) + if Checks(s) then U32(crc(Block(body))) else []
    case _ => if Changes(cmd, s) then Token(After(cmd, s)) else []
  }

  lemma CompressionMeans(crc: Crc, flags: bv32, s: bv32)
    ensures var s' := Replace(s, COMPRESSION, flags);
            var s'' := if Compresses(flags) then WithReposition(s') else s';
            if And(s, COMPRESSION) != And(flags, COMPRESSION) then
              After(Compression(flags), s) == s'' && Emit(crc, Compression(flags), s) == Token(s'')
            else
              After(Compression(flags), s) == s && Emit(crc, Compression(flags), s) == []
  {
    hide And, Replace, WithReposition, Compresses, Token;
  }

  lemma IntegrityMeans(crc: Crc, flags: bv32, s: bv32)
    ensures var s' := Replace(s, INTEGRITY, flags);
            if And(s, INTEGRITY) != And(flags, INTEGRITY) then
              After(Integrity(flags), s) == s' && Emit(crc, Integrity(flags), s) == Token(s')
            else
              After(Integrity(flags), s) == s && Emit(crc, Integrity(flags), s) == []
  {
    hide And, Replace, Token;
  }

  // ------------------------------------------------- in bits and bytes

  lemma StatusBits(s: bv32)
    ensures Compresses(s) <==> s & 0xf0 != 0
    ensures Checks(s) <==> s & 0x01 != 0
  {
  }

  lemma Masked(s: bv32)
    ensures And(s, INTEGRITY) == s & 0x0f && And(s, COMPRESSION) == s & 0xf0
  {
  }

  lemma ReplacedInts(s: bv32, flags: bv32)
    ensures Replace(s, INTEGRITY, flags) == (s & 0xffff_fff0) | (flags & 0x0f)
    ensures s & 0x0f == flags & 0x0f ==> s == (s & 0xffff_fff0) | (flags & 0x0f)
  {
    IntegrityRaw(flags, s);
  }

  lemma ReplacedCompression(s: bv32, flags: bv32)
    ensures Replace(s, COMPRESSION, flags) == (s & 0xffff_ff0f) | (flags & 0xf0)
    ensures flags & 0xf0 == 0 ==> (s & 0xffff_ff0f) | (flags & 0xf0) == s & 0xffff_ff0f
  {
    CompressionRaw(flags, s);
  }

  lemma IntegrityRaw(flags: bv32, s: bv32)
    ensures (s & (!0x0f | flags)) | (0x0f & flags) == (s & 0xffff_fff0) | (flags & 0x0f)
    ensures s & 0x0f == flags & 0x0f ==> s == (s & 0xffff_fff0) | (flags & 0x0f)
  {
  }

  lemma CompressionRaw(flags: bv32, s: bv32)
    ensures (s & (!0xf0 | flags)) | (0xf0 & flags) == (s & 0xffff_ff0f) | (flags & 0xf0)
    ensures flags & 0xf0 == 0 ==> (s & 0xffff_ff0f) | (flags & 0xf0) == s & 0xffff_ff0f
  {
  }

  // The status word after a change of integrity checks: its four lowest bits are new.
  function Reintegrated(s: bv32, flags: bv32): (s': bv32) {
    (s & 0xffff_fff0) | (flags & 0x0f)
  }

  // The status word after a change of compression: the four bits above are new, and if any
  // of them is set the stream can be repositioned.
  function Recompressed(s: bv32, flags: bv32): (s': bv32) {
    if s & 0xf0 == flags & 0xf0 then s
    else if flags & 0xf0 == 0 then s & 0xffff_ff0f
    else (s & 0xffff_ff0f) | (flags & 0xf0) | 0x100
  }

  lemma IntegrityBits(flags: bv32, s: bv32)
    ensures After(Integrity(flags), s) == Reintegrated(s, flags)
    ensures Changes(Integrity(flags), s) <==> s & 0x0f != flags & 0x0f
  {
    hide And, Replace;
    Masked(s);
    Masked(flags);
    ReplacedInts(s, flags);
  }

  lemma CompressionBits(flags: bv32, s: bv32)
    ensures After(Compression(flags), s) == Recompressed(s, flags)
    ensures Changes(Compression(flags), s) <==> s & 0xf0 != flags & 0xf0
  {
    hide And, Replace;
    Masked(s);
    Masked(flags);
    ReplacedCompression(s, flags);
  }

  /** The bytes of a record: its length and body, and behind them four bytes of checksum if
      the lowest bit of the status word is set. */
  lemma RecordBytes(crc: Crc, body: seq<byte>, s: bv32)
    ensures var event := Four(|body|) + body;
            Emit(crc, Record(body), s) == if s & 0x01 != 0 then event + Four(crc(event)) else event
    ensures Compresses(s) <==> s & 0xf0 != 0
  {
    hide BigEndian;
    StatusBits(s);
    var event := Four(|body|) + body;
    FourIsWord(|body|);
    FourIsWord(crc(event));
    assert event + [] == event;
  }

  /** The bytes of a token: 1 in place of a length, 8 bytes to follow, format 0, and the new
      status word. */
  lemma TokenBytes(s: bv32)
    ensures Token(s) == [0, 0, 0, 1, 0, 0, 0, 8, 0, 0, 0, 0] + Four(s as nat)
  {
    hide BigEndian;
    FourIsWord(1);
    FourIsWord(8);
    FourIsWord(0);
    FourIsWord(s as nat);
  }

  lemma CommandBytes(crc: Crc, cmd: Cmd, s: bv32)
    requires !cmd.Record? && Changes(cmd, s)
    ensures Emit(crc, cmd, s) == [0, 0, 0, 1, 0, 0, 0, 8, 0, 0, 0, 0] + Four(After(cmd, s) as nat)
  {
    hide Changes, After, Token, Four;
    TokenBytes(After(cmd, s));
  }

  // What commands put on the stream while it is not compressed, and after.
  function Plain(crc: Crc, cmds: seq<Cmd>, s: bv32): (b: seq<byte>) {
    if cmds == [] then []
    else (if Compresses(s) then [] else Emit(crc, cmds[0], s)) + Plain(crc, cmds[1..], After(cmds[0], s))
  }

  function Packed(crc: Crc, cmds: seq<Cmd>, s: bv32): (b: seq<byte>) {
    if cmds == [] then []
    else (if Compresses(s) then Emit(crc, cmds[0], s) else []) + Packed(crc, cmds[1..], After(cmds[0], s))
  }

  // The records, each with the writer's status bits at that point.
  function Deliveries(cmds: seq<Cmd>, s: bv32): (ds: seq<Delivery>) {
    if cmds == [] then []
    else (if cmds[0].Record? then [Delivery(cmds[0].body, s)] else []) + Deliveries(cmds[1..], After(cmds[0], s))
  }

  // Records are not empty and consist of four-byte units; compression is enabled at most
  // once and never given up.
  predicate Sensible(cmds: seq<Cmd>, s: bv32) {
    cmds != [] ==>
      && (cmds[0].Record? ==> |cmds[0].body| % 4 == 0 && 0 < |cmds[0].body| < TWO31)
      && (Compresses(s) ==> Compresses(After(cmds[0], s)))
      && Sensible(cmds[1..], After(cmds[0], s))
  }

  // What is left after the first record, and the status bits there.
  function Beyond(cmds: seq<Cmd>): (rest: seq<Cmd>) {
    if cmds == [] then [] else if cmds[0].Record? then cmds[1..] else Beyond(cmds[1..])
  }

  function StatusAt(cmds: seq<Cmd>, s: bv32): (r: bv32) {
    if cmds == [] || cmds[0].Record? then s else StatusAt(cmds[1..], After(cmds[0], s))
  }

  // Commands that change nothing leave no trace.
  lemma {:induction false} Awake(crc: Crc, cmds: seq<Cmd>, s: bv32) returns (rem: seq<Cmd>)
    requires Sensible(cmds, s)
    ensures rem == [] || rem[0].Record? || Changes(rem[0], s)
    ensures Sensible(rem, s) && Deliveries(rem, s) == Deliveries(cmds, s)
    ensures Plain(crc, rem, s) == Plain(crc, cmds, s) && Packed(crc, rem, s) == Packed(crc, cmds, s)
    ensures Beyond(rem) == Beyond(cmds) && StatusAt(rem, s) == StatusAt(cmds, s) && |rem| <= |cmds|
  {
    rem := cmds;
    if cmds != [] && !cmds[0].Record? && !Changes(cmds[0], s) {
      rem := Awake(crc, cmds[1..], s);
    }
  }

  // ------------------------------------------------- the writer

  class OStream {
    const crc: Crc
    var shared: bv32 // the atomic status word
    var mine: bv32   // what this thread has set up
    var plain: seq<byte>
    var packed: seq<byte> // what has gone through the compressor

    constructor (crc: Crc)
      ensures this.crc == crc && shared == mine == 0 && plain == packed == []
    {
      this.crc, shared, mine, plain, packed := crc, 0, 0, [], [];
    }

    method Write(b: seq<byte>)
      modifies `plain, `packed
      ensures Wrote(old(plain), old(packed), mine, b)
    {
      if Compresses(mine) { packed := packed + b; } else { plain := plain + b; }
    }

    predicate Wrote(plain0: seq<byte>, packed0: seq<byte>, s: bv32, b: seq<byte>)
      reads this
    {
      if Compresses(s) then plain == plain0 && packed == packed0 + b else plain == plain0 + b && packed == packed0
    }

    // update_streambufs
    method Update()
      modifies `mine
      ensures mine == shared
    {
      if shared != mine { mine := shared; }
    }

    method Insert(body: seq<byte>)
      requires mine == shared
      modifies this
      ensures mine == shared == old(shared)
      ensures Wrote(old(plain), old(packed), old(shared), Emit(crc, Record(body), old(shared)))
      ensures var event := Four(|body|) + body;
              var sent := if old(shared) & 0x01 != 0 then event + Four(crc(event)) else event;
              if old(shared) & 0xf0 != 0 then plain == old(plain) && packed == old(packed) + sent
              else plain == old(plain) + sent && packed == old(packed)
    {
      hide And, BigEndian, Compresses, Checks;
      RecordBytes(crc, body, shared);
      Update();
      var event := Block(body);
      if Checks(mine) { event := event + U32(crc(event)); }
      Write(event);
    }

    method SetCompression(flags: bv32)
      requires mine == shared
      modifies this
      ensures mine == shared == After(Compression(flags), old(shared))
      ensures Wrote(old(plain), old(packed), old(shared), Emit(crc, Compression(flags), old(shared)))
      ensures shared == Recompressed(old(shared), flags)
    {
      CompressionBits(flags, shared);
      hide And, Replace, WithReposition, BigEndian, Compresses, After, Emit, Changes, Token, Number;
      CompressionMeans(crc, flags, shared);
      if And(shared, COMPRESSION) != And(flags, COMPRESSION) {
        shared := Replace(shared, COMPRESSION, flags);
        if Compresses(flags) { shared := WithReposition(shared); }
        Write(Token(shared));
        Update();
      }
    }

    method SetIntegrityChecks(flags: bv32)
      requires mine == shared
      modifies this
      ensures mine == shared == After(Integrity(flags), old(shared))
      ensures Wrote(old(plain), old(packed), old(shared), Emit(crc, Integrity(flags), old(shared)))
      ensures shared == Reintegrated(old(shared), flags)
    {
      IntegrityBits(flags, shared);
      hide And, Replace, BigEndian, Compresses, After, Emit, Changes, Token, Number;
      IntegrityMeans(crc, flags, shared);
      if And(shared, INTEGRITY) != And(flags, INTEGRITY) {
        shared := Replace(shared, INTEGRITY, flags);
        Write(Token(shared));
        Update();
      }
    }
  }

  // ------------------------------------------------- the reader

  datatype Outcome = Eof | Failed | Got(record: Delivery, intact: bool)

  class IStream {
    const crc: Crc
    var shared: bv32
    var mine: bv32
    var plain: seq<byte> // what has not been read yet
    var packed: seq<byte>

    constructor (crc: Crc, plain: seq<byte>, packed: seq<byte>)
      ensures this.crc == crc && shared == mine == 0 && this.plain == plain && this.packed == packed
    {
      this.crc, shared, mine, this.plain, this.packed := crc, 0, 0, plain, packed;
    }

    function Channel(): (b: seq<byte>)
      reads `mine, `plain, `packed
    {
      if Compresses(mine) then packed else plain
    }

    method Read(n: nat) returns (ok: bool, b: seq<byte>)
      modifies `plain, `packed
      ensures ok == (n <= old(|Channel()|)) && b == (if ok then old(Channel())[..n] else [])
      ensures ok ==> Channel() == old(Channel())[n..]
      ensures if Compresses(mine) then plain == old(plain) else packed == old(packed)
      ensures |plain| + |packed| <= old(|plain| + |packed|)
      ensures ok ==> |plain| + |packed| == old(|plain| + |packed|) - n
    {
      ok := n <= |Channel()|;
      b := if ok then Channel()[..n] else [];
      if Compresses(mine) {
        packed := if ok then packed[n..] else [];
      } else {
        plain := if ok then plain[n..] else [];
      }
    }

    // The stream holds what these commands emit from status s on.
    predicate Ahead(cmds: seq<Cmd>, s: bv32)
      reads this
    {
      plain == Plain(crc, cmds, s) && packed == Packed(crc, cmds, s) && Sensible(cmds, s)
    }

    // The stream holds b, and then what the commands after the first emit.
    predicate Facing(cmds: seq<Cmd>, b: seq<byte>)
      requires cmds != []
      reads `mine, `plain, `packed
    {
      var s := After(cmds[0], mine);
      && Channel() == b + (if Compresses(mine) then Packed(crc, cmds[1..], s) else Plain(crc, cmds[1..], s))
      && (if Compresses(mine) then plain == Plain(crc, cmds[1..], s) else packed == Packed(crc, cmds[1..], s))
    }

    // The length, the body and perhaps the CRC of the first record.
    method TakeBytes(n: nat, ghost cmds: seq<Cmd>, ghost b: seq<byte>, ghost rest: seq<byte>)
      returns (ok: bool, got: seq<byte>)
      requires cmds != [] && Facing(cmds, b + rest) && n == |b|
      modifies `plain, `packed
      ensures ok && got == b && Facing(cmds, rest)
      ensures |plain| + |packed| == old(|plain| + |packed|) - n
    {
      hide Plain, Packed, After, Compresses;
      ghost var more := if Compresses(mine) then Packed(crc, cmds[1..], After(cmds[0], mine))
                        else Plain(crc, cmds[1..], After(cmds[0], mine));
      assert Channel() == b + (rest + more);
      ok, got := Read(n);
      assert Channel() == rest + more;
    }

    method TakeWord(ghost cmds: seq<Cmd>, ghost v: nat, ghost rest: seq<byte>) returns (ok: bool, w: nat)
      requires cmds != [] && Facing(cmds, U32(v) + rest) && v < TWO32
      modifies `plain, `packed
      ensures ok && w == v && Facing(cmds, rest)
      ensures |plain| + |packed| == old(|plain| + |packed|) - 4
    {
      hide Facing;
      var b;
      ok, b := TakeBytes(4, cmds, U32(v), rest);
      Pow256Values();
      BigEndianRoundTrip(v, 4);
      w := FromBigEndian(b);
    }

    // A token behind its mark.
    method ReadToken(ghost cmds: seq<Cmd>) returns (ok: bool)
      requires cmds != [] && !cmds[0].Record? && Facing(cmds, Token(After(cmds[0], mine))[4..])
      modifies `plain, `packed, `shared
      ensures ok && shared == After(cmds[0], mine) && Facing(cmds, [])
      ensures |plain| + |packed| == old(|plain| + |packed|) - 12
    {
      hide Facing, BigEndian, FromBigEndian, After, Number, Bits;
      NumberBits(After(cmds[0], mine));
      ghost var s := After(cmds[0], mine);
      assert Token(s)[4..] == U32(8) + (U32(0) + (U32(Number(s)) + []));
      var size, format, flags;
      ok, size := TakeWord(cmds, 8, U32(0) + (U32(Number(s)) + []));
      if !ok { return; }
      ok, format := TakeWord(cmds, 0, U32(Number(s)) + []);
      if !ok { return; }
      ok, flags := TakeWord(cmds, Number(s), []);
      if !ok { return; }
      if format != 0 { return false; }
      shared := Bits(flags);
    }

    // The commands still to come, rem, deliver what cmds deliver from s0 on.
    predicate Same(cmds: seq<Cmd>, s0: bv32, rem: seq<Cmd>, s: bv32) {
      && Deliveries(rem, s) == Deliveries(cmds, s0)
      && Beyond(rem) == Beyond(cmds) && StatusAt(rem, s) == StatusAt(cmds, s0)
    }

    lemma FirstEmitted(cmds: seq<Cmd>)
      requires cmds != [] && Ahead(cmds, mine)
      ensures Facing(cmds, Emit(crc, cmds[0], mine))
    {
    }

    lemma NextAhead(cmds: seq<Cmd>, s: bv32)
      requires cmds != [] && Facing(cmds, []) && Sensible(cmds, mine) && s == After(cmds[0], mine)
      ensures Ahead(cmds[1..], s)
    {
    }

    // The first word that a command emits, and what it emits behind it.
    function Mark(cmd: Cmd): (w: nat) {
      if cmd.Record? then |cmd.body| else 1
    }

    function Tail(cmd: Cmd): (b: seq<byte>)
      reads `mine
    {
      if cmd.Record? then cmd.body + Checksum(cmd.body) else Token(After(cmd, mine))[4..]
    }

    lemma EmittedParts(cmd: Cmd)
      requires cmd.Record? || Changes(cmd, mine)
      ensures Emit(crc, cmd, mine) == U32(Mark(cmd)) + Tail(cmd)
    {
      hide BigEndian, Checks, After, Changes;
      if cmd.Record? {
        assert Block(cmd.body) + Checksum(cmd.body) == U32(|cmd.body|) + (cmd.body + Checksum(cmd.body));
      }
    }

    method TakeHead(ghost cmds: seq<Cmd>) returns (ok: bool, w: nat)
      requires Ahead(cmds, mine) && (cmds == [] || cmds[0].Record? || Changes(cmds[0], mine))
      modifies `plain, `packed
      ensures ok == (cmds != [])
      ensures ok ==> w == Mark(cmds[0]) && Facing(cmds, Tail(cmds[0]))
      ensures ok ==> |plain| + |packed| == old(|plain| + |packed|) - 4
    {
      hide BigEndian, FromBigEndian, Changes, After, Compresses, Emit, Tail;
      ghost var more := [];
      if cmds != [] {
        FirstEmitted(cmds);
        EmittedParts(cmds[0]);
        more := if Compresses(mine) then Packed(crc, cmds[1..], After(cmds[0], mine))
                else Plain(crc, cmds[1..], After(cmds[0], mine));
        assert Channel() == U32(Mark(cmds[0])) + (Tail(cmds[0]) + more);
        Pow256Values();
        BigEndianRoundTrip(Mark(cmds[0]), 4);
      }
      var b;
      ok, b := Read(4);
      w := FromBigEndian(b);
    }

    lemma HeadFacts(cmds: seq<Cmd>)
      requires cmds != [] && Sensible(cmds, mine) && (cmds[0].Record? || Changes(cmds[0], mine))
      ensures Mark(cmds[0]) > 0 && (Mark(cmds[0]) == 1 <==> !cmds[0].Record?)
      ensures Tail(cmds[0]) == if cmds[0].Record? then cmds[0].body + Checksum(cmds[0].body)
                               else Token(After(cmds[0], mine))[4..]
    {
      hide Token, Checksum, After, Changes;
    }

    lemma NoMore(s: bv32)
      ensures Deliveries([], s) == []
    {
    }

    lemma TokenPassed(cmds: seq<Cmd>, s: bv32)
      requires cmds != [] && !cmds[0].Record?
      ensures Same(cmds, s, cmds[1..], After(cmds[0], s))
    {
    }

    lemma RecordReached(cmds: seq<Cmd>, s: bv32)
      requires cmds != [] && cmds[0].Record?
      ensures Deliveries(cmds, s) == [Delivery(cmds[0].body, s)] + Deliveries(cmds[1..], s)
      ensures Beyond(cmds) == cmds[1..] && StatusAt(cmds, s) == s
    {
    }

    // The checksum behind a record.
    function Checksum(body: seq<byte>): (b: seq<byte>)
      reads `mine
    {
      if Checks(mine) then U32(crc(Block(body))) else []
    }

    // The length of the first of these commands, a record, has been read.
    predicate AtRecord(cmds: seq<Cmd>, size: nat)
      reads this
    {
      && mine == shared && cmds != [] && cmds[0].Record? && size == |cmds[0].body| > 0
      && Facing(cmds, cmds[0].body + Checksum(cmds[0].body)) && Sensible(cmds, mine)
    }

    // The first word of what comes next: a record's length, or a token and what is behind it.
    method TakeNext(ghost cmds: seq<Cmd>) returns (ok: bool, size: nat)
      requires mine == shared && Ahead(cmds, mine) && (cmds == [] || cmds[0].Record? || Changes(cmds[0], mine))
      modifies `plain, `packed, `shared
      ensures ok == (cmds != [])
      ensures ok && size > 0 ==> AtRecord(cmds, size)
      ensures ok && size == 0 ==> !cmds[0].Record? && shared == After(cmds[0], mine) && Ahead(cmds[1..], shared)
      ensures ok ==> |plain| + |packed| < old(|plain| + |packed|)
    {
      hide FromBigEndian, BigEndian, Compresses, Checks, Facing, Plain, Packed, Sensible, After, Emit, Number, Changes,
           Checksum, Token;
      ok, size := TakeHead(cmds);
      if !ok { return; }
      HeadFacts(cmds);
      if size == 1 {
        ok := ReadToken(cmds);
        NextAhead(cmds, shared);
        size := 0;
      }
    }

    // One round of the loop: the status word is updated, and a record or a token is next.
    method Advance(ghost cmds: seq<Cmd>) returns (ok: bool, size: nat, ghost rem: seq<Cmd>)
      requires Ahead(cmds, shared)
      modifies this
      ensures Same(cmds, old(shared), rem, if ok then shared else mine)
      ensures !ok ==> rem == []
      ensures ok && size > 0 ==> AtRecord(rem, size)
      ensures ok && size == 0 ==> Ahead(rem, shared)
      ensures ok ==> |plain| + |packed| < old(|plain| + |packed|)
    {
      hide Compresses, Plain, Packed, After, Deliveries, Beyond, StatusAt, Changes, Facing, Checksum, Sensible;
      if mine != shared { mine := shared; }
      rem := Awake(crc, cmds, shared);
      ok, size := TakeNext(rem);
      if ok && size == 0 {
        TokenPassed(rem, mine);
        rem := rem[1..];
      }
    }

    /** operator>>(HDDM): pass over tokens to the next record.  A reader of what the writer
        has written gets the writer's records, and has the writer's status bits at each. */
    method Extract(ghost cmds: seq<Cmd>) returns (r: Outcome)
      requires shared == mine && Ahead(cmds, mine) && ChecksFit(crc)
      modifies this
      ensures r == if Deliveries(cmds, old(mine)) == [] then Eof else Got(Deliveries(cmds, old(mine))[0], true)
      ensures r.Got? ==>
                && shared == mine == StatusAt(cmds, old(mine)) && Ahead(Beyond(cmds), mine)
                && Deliveries(cmds, old(mine)) == [r.record] + Deliveries(Beyond(cmds), mine)
    {
      hide Facing, Sensible, Deliveries, Beyond, StatusAt, Checksum, Ahead;
      var size: nat := 0;
      ghost var rem := cmds;
      while size == 0
        invariant Same(cmds, old(mine), rem, shared)
        invariant if size == 0 then Ahead(rem, shared) else AtRecord(rem, size)
        decreases |plain| + |packed|
      {
        var ok;
        ok, size, rem := Advance(rem);
        if !ok {
          NoMore(mine);
          return Eof;
        }
      }
      RecordReached(rem, mine);
      r := ReadRecord(size, rem);
    }

    method ReadRecord(size: nat, ghost cmds: seq<Cmd>) returns (r: Outcome)
      requires cmds != [] && cmds[0].Record? && size == |cmds[0].body| && ChecksFit(crc)
      requires Facing(cmds, cmds[0].body + Checksum(cmds[0].body)) && mine == shared && Sensible(cmds, mine)
      modifies `plain, `packed
      ensures r == Got(Delivery(cmds[0].body, mine), true) && Ahead(cmds[1..], mine)
    {
      hide FromBigEndian, BigEndian, Facing, Plain, Packed, Checks;
      var ok, body, intact := true, [], true;
      ghost var b, check := cmds[0].body, Checksum(cmds[0].body);
      ok, body := TakeBytes(size, cmds, b, check);
      if !ok { return Failed; }
      if Checks(mine) {
        var crc32;
        assert check == U32(crc(Block(b))) + [];
        ok, crc32 := TakeWord(cmds, crc(Block(b)), []);
        intact := crc32 == crc(Block(body));
      }
      NextAhead(cmds, mine);
      r := Got(Delivery(body, mine), intact);
    }
  }

  ghost predicate ChecksFit(crc: Crc) {
    forall b :: crc(b) < TWO32
  }

  // ------------------------------------------------- whole streams

  method WriteAll(crc: Crc, cmds: seq<Cmd>) returns (o: OStream)
    ensures fresh(o) && o.plain == Plain(crc, cmds, 0) && o.packed == Packed(crc, cmds, 0)
  {
    hide Emit, After, Compresses, Plain, Packed;
    o := new OStream(crc);
    assert cmds[0..] == cmds;
    for i := 0 to |cmds|
      invariant fresh(o) && o.crc == crc && o.mine == o.shared
      invariant o.plain + Plain(crc, cmds[i..], o.mine) == Plain(crc, cmds, 0)
      invariant o.packed + Packed(crc, cmds[i..], o.mine) == Packed(crc, cmds, 0)
    {
      ghost var plain, packed, s := o.plain, o.packed, o.mine;
      CommandStep(crc, cmds, i, s);
      WriteOne(o, cmds[i]);
      assert o.plain + Plain(crc, cmds[i + 1..], o.mine) == plain + Plain(crc, cmds[i..], s);
      assert o.packed + Packed(crc, cmds[i + 1..], o.mine) == packed + Packed(crc, cmds[i..], s);
    }
    assert cmds[|cmds|..] == [];
    NothingEmitted(crc, o.mine);
  }

  method WriteOne(o: OStream, cmd: Cmd)
    requires o.mine == o.shared
    modifies o
    ensures o.mine == o.shared == After(cmd, old(o.mine))
    ensures o.Wrote(old(o.plain), old(o.packed), old(o.mine), Emit(o.crc, cmd, old(o.mine)))
  {
    hide Emit, After, Compresses;
    match cmd
    case Record(body) => RecordAfter(body, o.mine); o.Insert(body);
    case Integrity(flags) => o.SetIntegrityChecks(flags);
    case Compression(flags) => o.SetCompression(flags);
  }

  lemma NothingEmitted(crc: Crc, s: bv32)
    ensures Plain(crc, [], s) == [] && Packed(crc, [], s) == []
  {
  }

  lemma RecordAfter(body: seq<byte>, s: bv32)
    ensures After(Record(body), s) == s
  {
  }

  lemma CommandStep(crc: Crc, cmds: seq<Cmd>, i: nat, s: bv32)
    requires i < |cmds|
    ensures var e, s' := Emit(crc, cmds[i], s), After(cmds[i], s);
            && Plain(crc, cmds[i..], s) == (if Compresses(s) then [] else e) + Plain(crc, cmds[i + 1..], s')
            && Packed(crc, cmds[i..], s) == (if Compresses(s) then e else []) + Packed(crc, cmds[i + 1..], s')
  {
    assert cmds[i..][1..] == cmds[i + 1..];
  }

  function Records(bodies: seq<seq<byte>>): (cmds: seq<Cmd>) {
    seq(|bodies|, i requires 0 <= i < |bodies| => Record(bodies[i]))
  }

  // Records one behind the other, without and with a checksum behind each.
  function Bare(bodies: seq<seq<byte>>): (b: seq<byte>) {
    if bodies == [] then [] else Four(|bodies[0]|) + bodies[0] + Bare(bodies[1..])
  }

  function Checked(crc: Crc, bodies: seq<seq<byte>>): (b: seq<byte>) {
    if bodies == [] then []
    else
      var event := Four(|bodies[0]|) + bodies[0];
      event + Four(crc(event)) + Checked(crc, bodies[1..])
  }

  function Sent(crc: Crc, bodies: seq<seq<byte>>, checks: bool): (b: seq<byte>) {
    if checks then Checked(crc, bodies) else Bare(bodies)
  }

  lemma SentStep(crc: Crc, bodies: seq<seq<byte>>, s: bv32)
    requires bodies != []
    ensures After(Record(bodies[0]), s) == s
    ensures Sent(crc, bodies, Checks(s)) == Emit(crc, Record(bodies[0]), s) + Sent(crc, bodies[1..], Checks(s))
  {
    hide Checks, BigEndian;
    FourIsWord(|bodies[0]|);
    FourIsWord(crc(Four(|bodies[0]|) + bodies[0]));
    var event := Four(|bodies[0]|) + bodies[0];
    assert event + [] == event;
  }

  // Records go to the channel that the status word names, and leave it as it is.
  lemma {:induction false} RecordsOut(crc: Crc, bodies: seq<seq<byte>>, more: seq<Cmd>, s: bv32)
    ensures var b, cmds := Sent(crc, bodies, Checks(s)), Records(bodies) + more;
            && Plain(crc, cmds, s) == (if Compresses(s) then [] else b) + Plain(crc, more, s)
            && Packed(crc, cmds, s) == (if Compresses(s) then b else []) + Packed(crc, more, s)
    decreases |bodies|
  {
    hide Emit, Compresses, After, Checks;
    var cmds := Records(bodies) + more;
    if bodies == [] {
      assert cmds == more;
    } else {
      assert cmds[0] == Record(bodies[0]) && cmds[1..] == Records(bodies[1..]) + more;
      SentStep(crc, bodies, s);
      RecordsOut(crc, bodies[1..], more, s);
    }
  }

  lemma RecordsSent(crc: Crc, bodies: seq<seq<byte>>, more: seq<Cmd>, s: bv32, checks: bool)
    requires checks == (s & 0x01 != 0)
    ensures var b, cmds := Sent(crc, bodies, checks), Records(bodies) + more;
            if s & 0xf0 != 0 then
              Plain(crc, cmds, s) == Plain(crc, more, s) && Packed(crc, cmds, s) == b + Packed(crc, more, s)
            else
              Plain(crc, cmds, s) == b + Plain(crc, more, s) && Packed(crc, cmds, s) == Packed(crc, more, s)
  {
    hide Compresses, Checks, Plain, Packed, Sent;
    StatusBits(s);
    RecordsOut(crc, bodies, more, s);
  }

  lemma TokenSent(crc: Crc, cmd: Cmd, more: seq<Cmd>, s: bv32)
    requires !cmd.Record? && Changes(cmd, s)
    ensures var s', cmds := After(cmd, s), [cmd] + more;
            var token := [0, 0, 0, 1, 0, 0, 0, 8, 0, 0, 0, 0] + Four(s' as nat);
            if s & 0xf0 != 0 then
              Plain(crc, cmds, s) == Plain(crc, more, s') && Packed(crc, cmds, s) == token + Packed(crc, more, s')
            else
              Plain(crc, cmds, s) == token + Plain(crc, more, s') && Packed(crc, cmds, s) == Packed(crc, more, s')
  {
    hide Emit, After, Changes, Four, Compresses;
    CommandBytes(crc, cmd, s);
    StatusBits(s);
    assert ([cmd] + more)[1..] == more;
  }

  /** Checksums switched on and off again: the records in between have one, and no others. */
  method SwitchChecks(crc: Crc, a: seq<seq<byte>>, b: seq<seq<byte>>, c: seq<seq<byte>>) returns (o: OStream)
    ensures fresh(o) && o.packed == []
    ensures var on, off := [0, 0, 0, 1, 0, 0, 0, 8, 0, 0, 0, 0, 0, 0, 0, 1],
                           [0, 0, 0, 1, 0, 0, 0, 8, 0, 0, 0, 0, 0, 0, 0, 0];
            o.plain == Bare(a) + (on + (Checked(crc, b) + (off + Bare(c))))
  {
    hide Plain, Packed, Changes, After, Bare, Checked, Compresses;
    var tail := [Integrity(0x00)] + Records(c);
    o := WriteAll(crc, Records(a) + ([Integrity(0x01)] + (Records(b) + tail)));
    RecordsSent(crc, a, [Integrity(0x01)] + (Records(b) + tail), 0, false);
    IntegrityBits(0x01, 0);
    TokenSent(crc, Integrity(0x01), Records(b) + tail, 0);
    RecordsSent(crc, b, tail, 1, true);
    IntegrityBits(0x00, 1);
    TokenSent(crc, Integrity(0x00), Records(c), 1);
    RecordsSent(crc, c, [], 0, false);
    NothingEmitted(crc, 0);
    assert Records(c) + [] == Records(c) && Bare(c) + [] == Bare(c);
  }

  /** Compression switched on: what comes before it, and the token itself, is plain, and
      what comes after it is compressed. */
  method SwitchCompression(crc: Crc, a: seq<seq<byte>>, flags: bv32, b: seq<seq<byte>>) returns (o: OStream)
    requires flags & 0xf0 != 0
    ensures fresh(o) && o.packed == Bare(b)
    ensures o.plain == Bare(a) + ([0, 0, 0, 1, 0, 0, 0, 8, 0, 0, 0, 0] + Four(((flags & 0xf0) | 0x100) as nat))
  {
    hide Plain, Packed, Changes, After, Bare, Checked, Compresses, Four;
    var s := (flags & 0xf0) | 0x100;
    o := WriteAll(crc, Records(a) + ([Compression(flags)] + Records(b)));
    RecordsSent(crc, a, [Compression(flags)] + Records(b), 0, false);
    CompressionBits(flags, 0);
    NewStatus(flags);
    TokenSent(crc, Compression(flags), Records(b), 0);
    RecordsSent(crc, b, [], s, false);
    NothingEmitted(crc, s);
    assert Records(b) + [] == Records(b) && Bare(b) + [] == Bare(b);
    var token := [0, 0, 0, 1, 0, 0, 0, 8, 0, 0, 0, 0] + Four(s as nat);
    assert token + [] == token;
  }

  lemma NewStatus(flags: bv32)
    requires flags & 0xf0 != 0
    ensures var s: bv32 := (flags & 0xf0) | 0x100;
            ((0 as bv32 & 0xffff_ff0f) | (flags & 0xf0)) | 0x100 == s && s & 0x01 == 0 && s & 0xf0 != 0
  {
  }

  /** In step from beginning to end: whatever mixture of records, integrity changes and one
      enabling of compression was written, the reader gets those records, each under the
      status bits that the writer had, with matching checksums, and then the end. */
  method ReadBack(crc: Crc, cmds: seq<Cmd>) returns (ds: seq<Delivery>)
    requires Sensible(cmds, 0) && ChecksFit(crc)
    ensures ds == Deliveries(cmds, 0)
  {
    var o := WriteAll(crc, cmds);
    var i := new IStream(crc, o.plain, o.packed);
    ds := [];
    ghost var rem := cmds;
    while true
      invariant i.crc == crc && i.shared == i.mine && i.Ahead(rem, i.mine)
      invariant ds + Deliveries(rem, i.mine) == Deliveries(cmds, 0)
      decreases |rem|
    {
      BeyondIsShorter(rem, i.mine);
      var r := i.Extract(rem);
      if r.Eof? { break; }
      ds := ds + [r.record];
      rem := Beyond(rem);
    }
  }

  lemma {:induction false} BeyondIsShorter(cmds: seq<Cmd>, s: bv32)
    ensures Deliveries(cmds, s) != [] ==> |Beyond(cmds)| < |cmds|
  {
    if cmds != [] && !cmds[0].Record? { BeyondIsShorter(cmds[1..], After(cmds[0], s)); }
  }
}
