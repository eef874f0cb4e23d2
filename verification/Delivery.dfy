/** Several readers on one file: the stream buffers of module Framing deliver what the
    state machine of module Sharing says, for every schedule. */
module Delivery {
  import opened Basics
  import opened Slices
  import opened Xdr
  import opened Model
  import Framing
  import opened Sharing

  // Where record number k begins in the contents of its block.
  function Start(recs: seq<seq<byte>>, k: nat): (o: nat)
    requires k <= |recs|
  {
    if k == 0 then 0 else Start(recs, k - 1) + |recs[k - 1]|
  }

  lemma {:induction false} RecordPlace(recs: seq<seq<byte>>, k: nat)
    requires k <= |recs|
    ensures At(Joined(recs, 0), Start(recs, k), Joined(recs, k))
    ensures Start(recs, k) + |Joined(recs, k)| == |Joined(recs, 0)|
  {
    if k == 0 {
      var b := Joined(recs, 0);
      AtSlice(b, 0, |b|);
      assert b[0..0 + |b|] == b;
    } else {
      RecordPlace(recs, k - 1);
      AtConcat(Joined(recs, 0), Start(recs, k - 1), recs[k - 1], Joined(recs, k));
    }
  }

  // A record is a block of the record stream: a length and a body that is not empty.
  predicate IsRecord(rec: seq<byte>) {
    4 < |rec| < TWO31 && rec[..4] == U32(|rec| - 4)
  }

  predicate AllRecords(log: seq<Entry>) {
    forall e, r :: e in log && r in e.recs ==> IsRecord(r)
  }

  // The parts of record number k, as they stand in the contents.
  lemma RecordParts(recs: seq<seq<byte>>, k: nat)
    requires k < |recs| && IsRecord(recs[k])
    ensures var c, o, n := Joined(recs, 0), Start(recs, k), |recs[k]|;
            && o + n == Start(recs, k + 1) <= |c|
            && c[o..o + 4] == U32(n - 4) && c[o + 4..o + n] == recs[k][4..]
            && FromBigEndian(U32(n - 4)) == n - 4
  {
    hide At, Joined, BigEndian, FromBigEndian;
    RecordPlace(recs, k);
    RecordPlace(recs, k + 1);
    JoinedParts(recs, k);
    var c, o, r := Joined(recs, 0), Start(recs, k), recs[k];
    AtConcat(c, o, r, Joined(recs, k + 1));
    AtInside(c, o, r);
    assert c[o..o + |r|][..4] == c[o..o + 4] && c[o..o + |r|][4..] == c[o + 4..o + |r|];
    Pow256Values();
    BigEndianRoundTrip(|r| - 4, 4);
  }

  lemma JoinedParts(recs: seq<seq<byte>>, k: nat)
    requires k < |recs|
    ensures Joined(recs, k) == recs[k] + Joined(recs, k + 1)
  {
  }

  // The stream buffer is where the reader of the state machine is: i is the last block it
  // claimed and k the number of records of it that are delivered; head is the length of the
  // next record, if it has been read.
  ghost predicate Follows(b: Framing.IStreamBuf, f: Framing.File, log: seq<Entry>, r: Reader, i: nat, k: nat,
                          head: Option<seq<byte>>)
    reads b
  {
    && b.newBlockStart == b.newBlockOffset == 0
    && if r.ended then r.rest == [] && head == None && b.AtEnd(f)
       else if r.rest == [] then head == None && b.Drained(f, i)
       else && i < |log| == |f.contents| && k < |log[i].recs| && r.rest == BlockItems(log, i)[k..]
            && Headed(log[i].recs[k], head)
            && b.Reading(f, i, Start(log[i].recs, k) + if head.Some? then 4 else 0)
  }

  predicate Headed(rec: seq<byte>, head: Option<seq<byte>>) {
    head.Some? ==> |rec| > 4 && head.value == rec[..4]
  }

  // A reader is within a block, has to claim the next one, or has come to the end.
  datatype Mode = Within | Claims | Ended

  ghost predicate InMode(mode: Mode, b: Framing.IStreamBuf, f: Framing.File, log: seq<Entry>, i: nat, k: nat, j: nat)
    requires |f.bodies| == |log|
    reads b, b.sb, b.left, b.left.buf
  {
    match mode
    case Within => i < |log| && k < |log[i].recs| && b.Reading(f, i, Start(log[i].recs, k))
    case Claims =>
      && j <= |log| && (j < |log| ==> log[j].recs != []) && b.Drained(f, i)
      && Framing.SharedAt(b.sb, b.left, f.base + Framing.Offset(f.bodies, j))
    case Ended => b.AtEnd(f)
  }

  /** The length of a record; a reader without a block claims one for it. */
  method ReadHead(b: Framing.IStreamBuf, ghost f: Framing.File, ghost log: seq<Entry>, ghost mode: Mode,
                  ghost i: nat, ghost k: nat, ghost j: nat)
    returns (head: Option<seq<byte>>)
    requires b.Open(f) && b.newBlockStart == b.newBlockOffset == 0
    requires AllRecords(log) && f.contents == Contents(log) && |f.bodies| == |log| && f.base > 0
    requires InMode(mode, b, f, log, i, k, j)
    modifies b, b.sb`pos, b.left`len, b.left.buf, b.inBuf
    ensures b.Open(f) && b.newBlockStart == b.newBlockOffset == 0
    ensures mode == Within ==>
              && |log[i].recs[k]| > 4 && head == Some(log[i].recs[k][..4])
              && b.Reading(f, i, Start(log[i].recs, k) + 4)
              && unchanged(b.sb) && unchanged(b.left) && unchanged(b.left.buf)
    ensures mode == Claims && j < |log| ==>
              && |log[j].recs[0]| > 4 && head == Some(log[j].recs[0][..4])
              && b.Reading(f, j, Start(log[j].recs, 0) + 4)
              && Framing.SharedAt(b.sb, b.left, f.base + Framing.Offset(f.bodies, j + 1))
    ensures mode == Claims && j == |log| ==>
              head == None && b.AtEnd(f) && Framing.SharedAt(b.sb, b.left, f.base + Framing.Offset(f.bodies, j))
    ensures mode == Ended ==>
              head == None && b.AtEnd(f) && unchanged(b.sb) && unchanged(b.left) && unchanged(b.left.buf)
  {
    hide Framing.Compressed, Framing.SharedAt, Framing.Offset, Joined, FromBigEndian, BigEndian;
    ghost var block, number := if mode == Within then i else j, if mode == Within then k else 0;
    if mode == Within || (mode == Claims && j < |log|) {
      assert log[block] in log && log[block].recs[number] in log[block].recs;
      RecordParts(log[block].recs, number);
    }
    var ok, bytes;
    ok, bytes := b.Xsgetn(4, f, i, j, 0);
    head := if ok then Some(bytes) else None;
  }

  /** The body behind the length that has been read. */
  method ReadBody(b: Framing.IStreamBuf, head: seq<byte>, ghost f: Framing.File, ghost log: seq<Entry>,
                  ghost i: nat, ghost k: nat)
    returns (rec: seq<byte>)
    requires b.Open(f) && b.newBlockStart == b.newBlockOffset == 0
    requires AllRecords(log) && f.contents == Contents(log) && |f.bodies| == |log| && f.base > 0
    requires i < |log| && k < |log[i].recs| && Headed(log[i].recs[k], Some(head))
    requires b.Reading(f, i, Start(log[i].recs, k) + 4)
    modifies b, b.sb`pos, b.left`len, b.left.buf, b.inBuf
    ensures b.Open(f) && b.newBlockStart == b.newBlockOffset == 0
    ensures rec == log[i].recs[k] && b.Reading(f, i, Start(log[i].recs, k + 1))
    ensures unchanged(b.sb) && unchanged(b.left) && unchanged(b.left.buf)
  {
    hide Framing.Compressed, Framing.SharedAt, Framing.Offset, Joined, FromBigEndian, BigEndian;
    assert log[i] in log && log[i].recs[k] in log[i].recs;
    RecordParts(log[i].recs, k);
    var size := FromBigEndian(head);
    var ok, body := b.Xsgetn(size, f, i, 0, 0);
    assert log[i].recs[k] == log[i].recs[k][..4] + log[i].recs[k][4..];
    rec := head + body;
  }

  // What the state machine does at a turn of thread t: a reader without a block claims the
  // next one when it reads a length, and delivers a record when it has read the body.
  function Turn(log: seq<Entry>, s: Reading, t: nat, headed: bool): (s': Reading)
    requires t < |s.readers|
    ensures |s'.readers| == |s.readers|
  {
    if !headed && s.readers[t].rest != [] then s else ReadStep(log, s, t)
  }

  lemma TurnReader(log: seq<Entry>, s: Reading, t: nat, headed: bool)
    requires t < |s.readers| && (forall e :: e in log ==> e.recs != []) && (headed ==> s.readers[t].rest != [])
    requires s.readers[t].ended ==> s.readers[t].rest == [] && s.next >= |log|
    ensures var r, s' := s.readers[t], Turn(log, s, t, headed);
            && s'.readers == s.readers[t := s'.readers[t]]
            && if headed then
                 s'.next == s.next && s'.readers[t] == Reader(r.rest[1..], r.got + [r.rest[0]], r.ended)
               else if r.rest != [] then s' == s
               else if s.next < |log| then
                 var items := BlockItems(log, s.next);
                 items != [] && s'.next == s.next + 1 && s'.readers[t] == Reader(items, r.got, false)
               else s'.next == s.next && s'.readers[t] == Reader([], r.got, true)
  {
    if s.next < |log| { assert log[s.next] in log; }
  }

  // A length or a body read by one stream buffer, beside the step of the state machine.
  method ReadOne(b: Framing.IStreamBuf, head: Option<seq<byte>>, ghost f: Framing.File, ghost log: seq<Entry>,
                 ghost s: Reading, ghost t: nat, ghost i: nat, ghost k: nat)
    returns (rec: Option<seq<byte>>, head': Option<seq<byte>>, ghost i': nat, ghost k': nat)
    requires b.Open(f) && AllRecords(log) && f.contents == Contents(log) && |f.bodies| == |log| && f.base > 0
    requires forall e :: e in log ==> e.recs != []
    requires t < |s.readers| && s.next <= |log| && Follows(b, f, log, s.readers[t], i, k, head)
    requires s.readers[t].ended ==> s.next >= |log|
    requires Framing.SharedAt(b.sb, b.left, f.base + Framing.Offset(f.bodies, s.next))
    modifies b, b.sb`pos, b.left`len, b.left.buf, b.inBuf
    ensures var r, s' := s.readers[t], Turn(log, s, t, head.Some?);
            && b.Open(f) && s'.next <= |log| && Follows(b, f, log, s'.readers[t], i', k', head')
            && Framing.SharedAt(b.sb, b.left, f.base + Framing.Offset(f.bodies, s'.next))
            && Recs(s'.readers[t].got) == Recs(r.got) + Listed(rec)
            && (s'.readers[t].ended ==> s'.next >= |log|)
  {
    hide Framing.Compressed, Framing.SharedAt, Framing.Offset, Framing.Lossless, Framing.IStreamBuf.Reading,
         Framing.IStreamBuf.Open, Framing.IStreamBuf.AtEnd, Framing.IStreamBuf.Drained, Start, Turn, AllRecords;
    ghost var r, j := s.readers[t], s.next;
    TurnReader(log, s, t, head.Some?);
    i', k', rec, head' := i, k, None, None;
    if head.Some? {
      var bytes := ReadBody(b, head.value, f, log, i, k);
      rec, k' := Some(bytes), k + 1;
      Behind(b, f, log, i, k);
      RecsConcat(r.got, [r.rest[0]]);
    } else {
      ghost var mode := if r.ended then Ended else if r.rest == [] then Claims else Within;
      assert j < |log| ==> log[j] in log;
      head' := ReadHead(b, f, log, mode, i, k, j);
      if mode == Claims { i', k' := j, 0; }
      RecsConcat(r.got, []);
    }
  }

  // Behind record number k of a block: there are more records, or the block is used up.
  lemma Behind(b: Framing.IStreamBuf, f: Framing.File, log: seq<Entry>, i: nat, k: nat)
    requires i < |log| && f.contents == Contents(log) && k < |log[i].recs|
    requires b.Reading(f, i, Start(log[i].recs, k + 1))
    ensures k + 1 == |log[i].recs| ==> b.Drained(f, i)
    ensures BlockItems(log, i)[k..][1..] == BlockItems(log, i)[k + 1..]
  {
    RecordPlace(log[i].recs, k + 1);
  }

  function Listed(rec: Option<seq<byte>>): (recs: seq<seq<byte>>) {
    if rec.Some? then [rec.value] else []
  }

  // ------------------------------------------------- schedules

  // s can be reached by readers that start with nothing.
  ghost predicate Reached(log: seq<Entry>, n: nat, s: Reading) {
    exists schedule :: s == ReadRun(log, Waiting(n), schedule) && forall t :: t in schedule ==> t < n
  }

  lemma {:induction false} RunSnoc(log: seq<Entry>, s: Reading, schedule: seq<nat>, t: nat)
    requires t < |s.readers| && forall u :: u in schedule ==> u < |s.readers|
    ensures ReadRun(log, s, schedule + [t]) == ReadStep(log, ReadRun(log, s, schedule), t)
    decreases |schedule|
  {
    hide ReadStep;
    if schedule == [] {
      assert [] + [t] == [t] && [t][1..] == [];
      assert ReadRun(log, s, [t]) == ReadRun(log, ReadStep(log, s, t), []);
    } else {
      assert (schedule + [t])[0] == schedule[0] && (schedule + [t])[1..] == schedule[1..] + [t];
      assert schedule[0] in schedule && forall u :: u in schedule[1..] ==> u in schedule;
      SameCount(log, s, schedule[0]);
      RunSnoc(log, ReadStep(log, s, schedule[0]), schedule[1..], t);
    }
  }

  lemma SameCount(log: seq<Entry>, s: Reading, t: nat)
    requires t < |s.readers|
    ensures |ReadStep(log, s, t).readers| == |s.readers|
  {
  }

  lemma StepReached(log: seq<Entry>, n: nat, s: Reading, t: nat)
    requires Reached(log, n, s) && t < n
    ensures |s.readers| == n && Reached(log, n, ReadStep(log, s, t))
  {
    hide ReadStep, ReadRun;
    var schedule :| s == ReadRun(log, Waiting(n), schedule) && forall t :: t in schedule ==> t < n;
    RunSnoc(log, Waiting(n), schedule, t);
    assert forall u :: u in schedule + [t] ==> u < n;
  }

  lemma TurnReached(log: seq<Entry>, n: nat, s: Reading, t: nat, headed: bool)
    requires Reached(log, n, s) && t < n
    ensures |s.readers| == n && Reached(log, n, Turn(log, s, t, headed))
  {
    hide Reached, ReadStep;
    StepReached(log, n, s, t);
  }

  // Stream buffers of several threads on one file.
  ghost predicate Together(bs: seq<Framing.IStreamBuf>, sb: Framing.Source, left: Framing.Leftovers) {
    && (forall t :: 0 <= t < |bs| ==> bs[t].sb == sb && bs[t].left == left)
    && (forall t, u :: 0 <= t < u < |bs| ==> bs[t] != bs[u] && bs[t].inBuf != bs[u].inBuf)
  }

  // Where one thread is: the block it claimed last and the records of it that it delivered,
  // and the length that it has read.
  datatype Spot = Spot(block: nat, number: nat, head: Option<seq<byte>>)

  // The stream buffers are where the readers of the state machine are.
  ghost predicate Abreast(bs: seq<Framing.IStreamBuf>, f: Framing.File, log: seq<Entry>, s: Reading, at: seq<Spot>)
    reads bs
  {
    && |s.readers| == |at| == |bs|
    && (forall t :: 0 <= t < |bs| ==> Follows(bs[t], f, log, s.readers[t], at[t].block, at[t].number, at[t].head))
    && (forall t :: 0 <= t < |bs| && s.readers[t].ended ==> s.next >= |log| && s.readers[t].rest == [])
  }

  lemma AbreastAtStart(bs: seq<Framing.IStreamBuf>, f: Framing.File, log: seq<Entry>, at: seq<Spot>)
    requires |at| == |bs| && forall t :: 0 <= t < |bs| ==> at[t] == Spot(0, 0, None)
    requires forall t :: 0 <= t < |bs| ==> bs[t].Idle() && bs[t].newBlockStart == bs[t].newBlockOffset == 0
    ensures Abreast(bs, f, log, Waiting(|bs|), at)
  {
  }

  lemma AbreastAtEnd(bs: seq<Framing.IStreamBuf>, f: Framing.File, log: seq<Entry>, s: Reading, at: seq<Spot>)
    requires Abreast(bs, f, log, s, at) && forall t :: 0 <= t < |bs| ==> bs[t].end
    ensures AllEnded(s.readers)
  {
    forall t | 0 <= t < |bs| ensures s.readers[t].ended && s.readers[t].rest == [] {
      assert Follows(bs[t], f, log, s.readers[t], at[t].block, at[t].number, at[t].head);
    }
  }

  /** Exactly-once delivery by the stream buffers themselves: whatever the order in which
      the threads read lengths and bodies, all that they deliver is what a run of the state
      machine delivers, and when all have come to the end it is all records of the file. */
  method Simulate(bs: seq<Framing.IStreamBuf>, sb: Framing.Source, left: Framing.Leftovers, schedule: seq<nat>,
                  ghost f: Framing.File, ghost log: seq<Entry>)
    returns (out: seq<seq<seq<byte>>>, ghost s: Reading)
    requires Together(bs, sb, left) && AllRecords(log) && f.contents == Contents(log) && |f.bodies| == |log|
    requires f.base > 0 && Framing.SharedAt(sb, left, f.base) && forall e :: e in log ==> e.recs != []
    requires forall t :: 0 <= t < |bs| ==>
               bs[t].Open(f) && bs[t].Idle() && bs[t].newBlockStart == bs[t].newBlockOffset == 0
    requires forall t :: t in schedule ==> t < |bs|
    modifies bs, sb`pos, left`len, left.buf, set t | 0 <= t < |bs| :: bs[t].inBuf
    ensures Reached(log, |bs|, s) && |out| == |s.readers| == |bs|
    ensures forall t :: 0 <= t < |bs| ==> out[t] == Recs(s.readers[t].got)
    ensures (forall t :: 0 <= t < |bs| ==> bs[t].end) && |bs| > 0 ==> multiset(Flat(out)) == AllRecs(log, |log|)
  {
    hide Framing.Compressed, Framing.SharedAt, Turn, Reached, Framing.Lossless, Follows, Flat,
         Framing.IStreamBuf.Roomy, Abreast;
    s := Waiting(|bs|);
    ghost var at := seq(|bs|, _ => Spot(0, 0, None));
    var heads: seq<Option<seq<byte>>> := seq(|bs|, _ => None);
    out := seq(|bs|, _ => []);
    StartReached(log, |bs|);
    AbreastAtStart(bs, f, log, at);
    for q := 0 to |schedule|
      invariant Reached(log, |bs|, s) && |out| == |s.readers| == |heads| == |at| == |bs| && s.next <= |log|
      invariant Framing.SharedAt(sb, left, f.base + Framing.Offset(f.bodies, s.next))
      invariant forall t :: 0 <= t < |bs| ==> bs[t].Open(f) && out[t] == Recs(s.readers[t].got)
      invariant forall t :: 0 <= t < |bs| ==> heads[t] == at[t].head
      invariant Abreast(bs, f, log, s, at)
    {
      var t := schedule[q];
      assert t in schedule;
      var rec, head;
      rec, head, s, at := ReadTurn(bs, sb, left, t, heads[t], f, log, s, at);
      out, heads := out[t := out[t] + Listed(rec)], heads[t := head];
    }
    if (forall t :: 0 <= t < |bs| ==> bs[t].end) && |bs| > 0 {
      AbreastAtEnd(bs, f, log, s, at);
      FlatIsDelivered(out, s.readers);
      AllIsDelivered(log, s);
    }
  }

  // A length or a body read by thread t.
  method ReadTurn(bs: seq<Framing.IStreamBuf>, sb: Framing.Source, left: Framing.Leftovers, t: nat,
                  head: Option<seq<byte>>, ghost f: Framing.File, ghost log: seq<Entry>, ghost s: Reading,
                  ghost at: seq<Spot>)
    returns (rec: Option<seq<byte>>, head': Option<seq<byte>>, ghost s': Reading, ghost at': seq<Spot>)
    requires Together(bs, sb, left) && AllRecords(log) && f.contents == Contents(log) && |f.bodies| == |log|
    requires f.base > 0 && t < |bs| && forall e :: e in log ==> e.recs != []
    requires forall u :: 0 <= u < |bs| ==> bs[u].Open(f)
    requires Reached(log, |bs|, s) && s.next <= |log| && Abreast(bs, f, log, s, at) && at[t].head == head
    requires Framing.SharedAt(sb, left, f.base + Framing.Offset(f.bodies, s.next))
    modifies bs, sb`pos, left`len, left.buf, set t | 0 <= t < |bs| :: bs[t].inBuf
    ensures forall u :: 0 <= u < |bs| ==> bs[u].Open(f)
    ensures Reached(log, |bs|, s') && s'.next <= |log| && Abreast(bs, f, log, s', at')
    ensures Framing.SharedAt(sb, left, f.base + Framing.Offset(f.bodies, s'.next))
    ensures |s.readers| == |s'.readers| == |at'| == |bs|
    ensures Recs(s'.readers[t].got) == Recs(s.readers[t].got) + Listed(rec)
    ensures forall u :: 0 <= u < |bs| && u != t ==> s'.readers[u] == s.readers[u] && at'[u] == at[u]
    ensures at'[t].head == head'
  {
    hide Framing.Compressed, Framing.SharedAt, Turn, Reached, Framing.Lossless, Follows, Framing.IStreamBuf.Roomy,
         Framing.Offset;
    HeadMeansMore(bs, f, log, s, at, t);
    ghost var i, k;
    rec, head', i, k := ReadOne(bs[t], head, f, log, s, t, at[t].block, at[t].number);
    TurnReached(log, |bs|, s, t, head.Some?);
    TurnReader(log, s, t, head.Some?);
    at' := at[t := Spot(i, k, head')];
    s' := Turn(log, s, t, head.Some?);
    Framing.SharedAtZero(sb, left, f.base + Framing.Offset(f.bodies, s'.next));
  }

  lemma HeadMeansMore(bs: seq<Framing.IStreamBuf>, f: Framing.File, log: seq<Entry>, s: Reading, at: seq<Spot>, t: nat)
    requires Abreast(bs, f, log, s, at) && t < |bs|
    ensures at[t].head.Some? ==> s.readers[t].rest != []
  {
  }

  // All that was delivered, reader by reader.
  function Flat(out: seq<seq<seq<byte>>>): (recs: seq<seq<byte>>) {
    if out == [] then [] else Flat(out[..|out| - 1]) + out[|out| - 1]
  }

  lemma {:induction false} FlatIsDelivered(out: seq<seq<seq<byte>>>, readers: seq<Reader>)
    requires |out| == |readers| && forall t :: 0 <= t < |out| ==> out[t] == Recs(readers[t].got)
    ensures Flat(out) == Recs(Delivered(readers))
  {
    if out != [] {
      var n := |out| - 1;
      FlatIsDelivered(out[..n], readers[..n]);
      RecsConcat(Delivered(readers[..n]), readers[n].got);
    }
  }

  lemma AllIsDelivered(log: seq<Entry>, s: Reading)
    requires |s.readers| > 0 && Reached(log, |s.readers|, s) && AllEnded(s.readers)
    ensures multiset(Recs(Delivered(s.readers))) == AllRecs(log, |log|)
  {
    hide ReadRun, Delivered, ItemsTo, Recs;
    var schedule :| s == ReadRun(log, Waiting(|s.readers|), schedule);
    EverythingDelivered(log, |s.readers|, schedule);
    SameRecs(Delivered(s.readers), ItemsTo(log, |log|));
    ItemRecs(log, |log|);
  }

  lemma StartReached(log: seq<Entry>, n: nat)
    ensures Reached(log, n, Waiting(n))
  {
    assert Waiting(n) == ReadRun(log, Waiting(n), []);
  }
}
