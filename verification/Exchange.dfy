/** From writers to readers of another model: what several threads write with one model, other
    threads read with another, each record once and as its projection. */
module Exchange {
  import opened Basics
  import opened Slices
  import opened Xdr
  import opened Model
  import opened Sequencer
  import opened Evolution
  import opened Framing
  import opened Sharing
  import Progress
  import Delivery

  // What a thread does: write a record of the model w, or flush.
  datatype Op = Write(e: Rec) | Flush

  // A record of w that is not empty and not too large.
  predicate Writable(w: Tag, e: Rec) {
    Conforms(w, e) && (e.vals != [] || w.children != []) && |EncodeRecord(w, e)| < TWO31
  }

  predicate Fine(w: Tag, es: seq<Rec>) {
    forall i :: 0 <= i < |es| ==> Writable(w, es[i])
  }

  predicate AllWritable(w: Tag, ops: seq<Op>) {
    forall i :: 0 <= i < |ops| && ops[i].Write? ==> Writable(w, ops[i].e)
  }

  function Command(w: Tag, op: Op): (cmd: Cmd)
    requires op.Write? ==> Conforms(w, op.e)
  {
    match op case Write(e) => Put(EncodeRecord(w, e)) case Flush => Sync
  }

  function Commands(w: Tag, ops: seq<Op>): (cmds: seq<Cmd>)
    requires AllWritable(w, ops)
    ensures |cmds| == |ops|
  {
    seq(|ops|, i requires 0 <= i < |ops| => Command(w, ops[i]))
  }

  function Programs(w: Tag, threads: seq<seq<Op>>): (programs: seq<seq<Cmd>>)
    requires forall t :: 0 <= t < |threads| ==> AllWritable(w, threads[t])
    ensures |programs| == |threads|
  {
    seq(|threads|, t requires 0 <= t < |threads| => Commands(w, threads[t]))
  }

  function Written(ops: seq<Op>): (es: seq<Rec>) {
    if ops == [] then [] else (if ops[0].Write? then [ops[0].e] else []) + Written(ops[1..])
  }

  function Encoded(w: Tag, es: seq<Rec>): (recs: seq<seq<byte>>)
    requires Fine(w, es)
    ensures |recs| == |es|
  {
    seq(|es|, i requires 0 <= i < |es| => EncodeRecord(w, es[i]))
  }

  lemma {:induction false} AllAreWritable(w: Tag, ops: seq<Op>)
    requires AllWritable(w, ops)
    ensures Fine(w, Written(ops))
  {
    hide Writable;
    if ops != [] { AllAreWritable(w, ops[1..]); }
  }

  lemma {:induction false} PutsAreEncoded(w: Tag, ops: seq<Op>)
    requires AllWritable(w, ops)
    ensures Fine(w, Written(ops))
    ensures Puts(Commands(w, ops)) == Encoded(w, Written(ops))
  {
    hide Writable, EncodeRecord;
    AllAreWritable(w, ops);
    if ops != [] {
      PutsAreEncoded(w, ops[1..]);
      assert Commands(w, ops)[1..] == Commands(w, ops[1..]);
      PutsStep(Commands(w, ops));
    }
  }

  // What a reader makes of the bytes of a record.
  function Decoder(w: Tag, r: Tag): (f: seq<byte> -> Rec)
    requires GeneFits(Genome(w, r), r)
  {
    rec => ParseElem(Genome(w, r), r, rec, 4, Blank(r)).0
  }

  function Projected(w: Tag, r: Tag, es: seq<Rec>): (ps: seq<Rec>)
    requires Fine(w, es)
    ensures |ps| == |es|
  {
    seq(|es|, i requires 0 <= i < |es| => Project(w, r, es[i]))
  }

  // The projections of all records of the first n threads.
  function Projections(w: Tag, r: Tag, threads: seq<seq<Op>>, n: nat): (ps: multiset<Rec>)
    requires n <= |threads| && forall t :: 0 <= t < |threads| ==> AllWritable(w, threads[t])
  {
    if n == 0 then multiset{}
    else
      AllAreWritable(w, threads[n - 1]);
      Projections(w, r, threads, n - 1) + multiset(Projected(w, r, Written(threads[n - 1])))
  }

  lemma DecodesOne(w: Tag, r: Tag, e: Rec)
    requires Compatible(w, r) && Writable(w, e)
    ensures GeneFits(Genome(w, r), r) && Decoder(w, r)(EncodeRecord(w, e)) == Project(w, r, e)
  {
    hide Compatible, EncodeElem, ParseElem, Project, Genes, GeneFits, Conforms, At, Columns;
    var rec := EncodeRecord(w, e);
    AtSlice(rec, 0, |rec|);
    assert rec[0..0 + |rec|] == rec;
    AtConcat(rec, 0, U32(|EncodeElem(w, e)|), EncodeElem(w, e));
    SchemaEvolution(w, r, e, rec, 0);
    ReadIntBack(rec, 0, |EncodeElem(w, e)|);
  }

  lemma DecodesAll(w: Tag, r: Tag, es: seq<Rec>)
    requires Compatible(w, r) && GeneFits(Genome(w, r), r) && Fine(w, es)
    ensures Map(Decoder(w, r), Encoded(w, es)) == Projected(w, r, es)
  {
    hide Compatible, Writable, EncodeRecord, Project, Genome, GeneFits;
    var f := Decoder(w, r);
    forall i | 0 <= i < |es| ensures f(Encoded(w, es)[i]) == Projected(w, r, es)[i] {
      DecodesOne(w, r, es[i]);
    }
  }

  // All records of the first n threads, one thread after the other.
  function AllEncoded(w: Tag, threads: seq<seq<Op>>, n: nat): (recs: seq<seq<byte>>)
    requires n <= |threads| && forall t :: 0 <= t < |threads| ==> AllWritable(w, threads[t])
  {
    if n == 0 then []
    else
      AllAreWritable(w, threads[n - 1]);
      AllEncoded(w, threads, n - 1) + Encoded(w, Written(threads[n - 1]))
  }

  lemma {:induction false} AllPutsAreEncoded(w: Tag, threads: seq<seq<Op>>, n: nat)
    requires n <= |threads| && forall t :: 0 <= t < |threads| ==> AllWritable(w, threads[t])
    ensures AllPuts(Programs(w, threads), n) == multiset(AllEncoded(w, threads, n))
  {
    hide Puts, Commands, AllWritable, Encoded, Written;
    if n > 0 {
      AllPutsAreEncoded(w, threads, n - 1);
      PutsAreEncoded(w, threads[n - 1]);
    }
  }

  lemma {:induction false} AllAreDecoded(w: Tag, r: Tag, threads: seq<seq<Op>>, n: nat)
    requires n <= |threads| && forall t :: 0 <= t < |threads| ==> AllWritable(w, threads[t])
    requires Compatible(w, r) && GeneFits(Genome(w, r), r)
    ensures multiset(Map(Decoder(w, r), AllEncoded(w, threads, n))) == Projections(w, r, threads, n)
  {
    hide Compatible, GeneFits, Genome, AllWritable, Encoded, Written, Decoder, Projected;
    if n > 0 {
      AllAreWritable(w, threads[n - 1]);
      AllAreDecoded(w, r, threads, n - 1);
      DecodesAll(w, r, Written(threads[n - 1]));
      MapConcat(Decoder(w, r), AllEncoded(w, threads, n - 1), Encoded(w, Written(threads[n - 1])));
    }
  }

  /** Any delivery of all records of a finished file, decoded by a reader of another model,
      gives as a multiset the projections of all records that were written. */
  lemma Exchanged(c: Codec, w: Tag, r: Tag, threads: seq<seq<Op>>, writing: seq<nat>, recs: seq<seq<byte>>)
    requires Compatible(w, r) && forall t :: 0 <= t < |threads| ==> AllWritable(w, threads[t])
    ensures Sound(c, Start(Programs(w, threads))) && GeneFits(Genome(w, r), r)
    ensures var s := Run(c, Start(Programs(w, threads)), writing);
            Finished(s) && multiset(recs) == AllRecs(s.log, |s.log|) ==>
              multiset(Map(Decoder(w, r), recs)) == Projections(w, r, threads, |threads|)
  {
    hide Compatible, GeneFits, AllWritable, Run, Programs, Decoder, AllRecs, AllPuts, AllEncoded, Projections;
    GenesFit(w, r, 0, "HDDM");
    FileHasAllPuts(c, Programs(w, threads), writing);
    AllPutsAreEncoded(w, threads, |threads|);
    AllAreDecoded(w, r, threads, |threads|);
    if multiset(recs) == multiset(AllEncoded(w, threads, |threads|)) {
      SameMap(Decoder(w, r), recs, AllEncoded(w, threads, |threads|));
    }
  }

  // The records are such as the stream buffers of writers and readers expect.
  lemma RecordsAreSound(w: Tag, e: Rec)
    requires Writable(w, e)
    ensures Delivery.IsRecord(EncodeRecord(w, e)) && EncodeRecord(w, e) != []
  {
    hide EncodeElem, BigEndian;
    ContentIsVisible(w, e);
    var body := EncodeElem(w, e);
    assert (U32(|body|) + body)[..4] == U32(|body|);
  }

  lemma {:induction false} AllAreSound(w: Tag, threads: seq<seq<Op>>, n: nat)
    requires n <= |threads| && forall t :: 0 <= t < |threads| ==> AllWritable(w, threads[t])
    ensures forall rec :: rec in AllEncoded(w, threads, n) ==> Delivery.IsRecord(rec)
  {
    hide AllWritable, EncodeElem, Conforms, Written, Delivery.IsRecord;
    if n > 0 {
      AllAreSound(w, threads, n - 1);
      AllAreWritable(w, threads[n - 1]);
      var es := Written(threads[n - 1]);
      forall i | 0 <= i < |es| ensures Delivery.IsRecord(Encoded(w, es)[i]) {
        RecordsAreSound(w, es[i]);
      }
    }
  }

  lemma {:induction false} InTheFile(log: seq<Entry>, n: nat)
    requires n <= |log|
    ensures forall i, rec :: 0 <= i < n && rec in log[i].recs ==> rec in AllRecs(log, n)
  {
    if n > 0 { InTheFile(log, n - 1); }
  }

  /** Every file that is finished is one that module Delivery reads: its records are those of
      the model, each behind its length. */
  lemma FileIsReadable(c: Codec, w: Tag, threads: seq<seq<Op>>, writing: seq<nat>)
    requires forall t :: 0 <= t < |threads| ==> AllWritable(w, threads[t])
    ensures Sound(c, Start(Programs(w, threads)))
    ensures var s := Run(c, Start(Programs(w, threads)), writing);
            Finished(s) ==> Delivery.AllRecords(s.log) && forall e :: e in s.log ==> e.recs != []
  {
    hide AllWritable, Run, Programs, AllRecs, AllPuts, AllEncoded, Delivery.IsRecord;
    FileHasAllPuts(c, Programs(w, threads), writing);
    AllPutsAreEncoded(w, threads, |threads|);
    AllAreSound(w, threads, |threads|);
    RunKeepsRecords(c, Start(Programs(w, threads)), writing);
    var log := Run(c, Start(Programs(w, threads)), writing).log;
    InTheFile(log, |log|);
    if Finished(Run(c, Start(Programs(w, threads)), writing)) {
      forall e, rec | e in log && rec in e.recs ensures Delivery.IsRecord(rec) {
        assert rec in AllRecs(log, |log|);
        assert rec in AllEncoded(w, threads, |threads|);
      }
    }
  }

  /** However the threads have begun, writers and readers can go on until everything is
      written and read, and then the readers have the projections of all records. */
  lemma AllIsExchanged(c: Codec, w: Tag, r: Tag, threads: seq<seq<Op>>, begun: seq<nat>, n: nat, reading: seq<nat>)
    returns (writing: seq<nat>, schedule: seq<nat>)
    requires Compatible(w, r) && forall t :: 0 <= t < |threads| ==> AllWritable(w, threads[t])
    requires forall t :: 0 <= t < |threads| ==> threads[t] != [] ==> threads[t][|threads[t]| - 1] == Flush
    requires n > 0 && (forall t :: t in begun ==> t < |threads|) && forall t :: t in reading ==> t < n
    ensures begun <= writing && reading <= schedule
    ensures Sound(c, Start(Programs(w, threads))) && GeneFits(Genome(w, r), r)
    ensures var s := ReadRun(Run(c, Start(Programs(w, threads)), writing).log, Waiting(n), schedule);
            && AllEnded(s.readers)
            && multiset(Map(Decoder(w, r), Recs(Delivered(s.readers)))) == Projections(w, r, threads, |threads|)
  {
    hide Compatible, GeneFits, AllWritable, Run, ReadRun, Decoder, AllPuts, AllEncoded, Projections, Delivered, Recs;
    GenesFit(w, r, 0, "HDDM");
    writing, schedule := Progress.AllIsWrittenAndRead(c, Programs(w, threads), begun, n, reading);
    var log := Run(c, Start(Programs(w, threads)), writing).log;
    var recs := Recs(Delivered(ReadRun(log, Waiting(n), schedule).readers));
    AllPutsAreEncoded(w, threads, |threads|);
    AllAreDecoded(w, r, threads, |threads|);
    SameMap(Decoder(w, r), recs, AllEncoded(w, threads, |threads|));
  }
}
