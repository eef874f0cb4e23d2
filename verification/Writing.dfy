/** Several writers on one file: the stream buffers of module Flushing do to the file and to
    their compressors what the steps of module Sharing do. */
module Writing {
  import opened Basics
  import opened Xdr
  import opened Model
  import opened Framing
  import Flushing
  import opened Sharing
  import opened Progress

  // n steps of thread t in a row
  function Steps(c: Codec, s: State, t: nat, n: nat): (s': State)
    requires Sound(c, s) && t < |s.threads|
    ensures Sound(c, s') && |s'.threads| == |s.threads|
    decreases n
  {
    if n == 0 then s
    else
      StepIsSound(c, s, t);
      Steps(c, Step(c, s, t), t, n - 1)
  }

  function Times(t: nat, n: nat): (schedule: seq<nat>)
    ensures |schedule| == n && forall u :: u in schedule ==> u == t
  {
    seq(n, _ => t)
  }

  lemma {:induction false} StepsAreRun(c: Codec, s: State, t: nat, n: nat)
    requires Sound(c, s) && t < |s.threads|
    ensures Steps(c, s, t, n) == Run(c, s, Times(t, n))
    decreases n
  {
    hide Step, Sound;
    if n > 0 {
      StepIsSound(c, s, t);
      StepsAreRun(c, Step(c, s, t), t, n - 1);
      assert Times(t, n)[1..] == Times(t, n - 1);
    }
  }

  // Thread t is between commands, and nobody has the lock.
  predicate Free(s: State, t: nat) {
    t < |s.threads| && s.holder == None && s.threads[t].pc == Ready && s.threads[t].todo != []
  }

  // Does the command complete a block?
  predicate Completes(s: State, t: nat)
    requires Free(s, t)
  {
    var th := s.threads[t];
    match th.todo[0]
    case Put(r) => th.offset + |r| > COMPRESSION_BLOCK_SIZE
    case Sync => th.pending != []
  }

  // What is in the compressor when the command flushes.
  function Fed(s: State, t: nat): (recs: seq<seq<byte>>)
    requires Free(s, t)
  {
    var th := s.threads[t];
    th.pending + if th.todo[0].Put? then [th.todo[0].rec] else []
  }

  // The steps that a whole command takes.
  function Length(s: State, t: nat): (n: nat)
    requires Free(s, t)
  {
    if s.threads[t].todo[0].Put? then if Completes(s, t) then 5 else 1 else if Completes(s, t) then 7 else 3
  }

  // The state after the command.
  function Done(c: Codec, s: State, t: nat): (s': State)
    requires Free(s, t)
    ensures |s'.threads| == |s.threads|
  {
    var th, fed := s.threads[t], Fed(s, t);
    if Completes(s, t) then
      State(s.file + Block(Image(c, fed)), None,
            s.threads[t := Thread(Ready, false, false, [], 0, [], th.todo[1..])], s.log + [Entry(t, fed)])
    else
      var more := if th.todo[0].Put? then |th.todo[0].rec| else 0;
      s.(threads := s.threads[t := th.(pending := fed, offset := th.offset + more, todo := th.todo[1..])])
  }

  lemma Unroll(c: Codec, s: State, t: nat, n: nat)
    requires Sound(c, s) && t < |s.threads| && n > 0
    ensures Steppable(s, t) && Sound(c, Step(c, s, t)) && |Step(c, s, t).threads| == |s.threads|
    ensures Steps(c, s, t, n) == Steps(c, Step(c, s, t), t, n - 1)
  {
    StepIsSound(c, s, t);
  }

  lemma SoundLocks(c: Codec, s: State, t: nat)
    requires Sound(c, s) && t < |s.threads|
    ensures Disciplined(s.threads[t], s.holder == Some(t))
  {
    Member(s, t);
  }

  // The thread as it is, but for its place in the file and the lock.
  function At(s: State, t: nat, file: seq<byte>, holder: Option<nat>, th: Thread): (s': State)
    requires t < |s.threads|
  {
    State(file, holder, s.threads[t := th], s.log)
  }

  /** The three steps within the lock of flush. */
  lemma BlockSteps(c: Codec, s: State, t: nat, n: nat)
    requires Sound(c, s) && t < |s.threads| && s.threads[t].pc == Lock && n >= 3
    requires s.holder == if s.threads[t].inSync then Some(t) else None
    ensures var th := s.threads[t];
            var s' := State(s.file + Block(Image(c, th.pending)), Some(t),
                            s.threads[t := th.(ptr := false, saved := th.saved + [th.ptr], pc := Unlock, offset := 0,
                                               pending := [])],
                            s.log + [Entry(t, th.pending)]);
            Sound(c, s') && Steps(c, s, t, n) == Steps(c, s', t, n - 3)
  {
    hide Image, BigEndian, Joined, Sound, Steps;
    var th := s.threads[t];
    SoundLocks(c, s, t);
    Unroll(c, s, t, n);
    var th1 := th.(ptr := false, saved := th.saved + [th.ptr], pc := Pc.Length);
    var s1 := At(s, t, s.file, Some(t), th1);
    assert Step(c, s, t) == s1;
    Unroll(c, s1, t, n - 1);
    var s2 := At(s, t, s.file + U32(|Image(c, th.pending)|), Some(t), th1.(pc := Body));
    assert Step(c, s1, t) == s2;
    Unroll(c, s2, t, n - 2);
    var th3 := th1.(pc := Unlock, offset := 0, pending := []);
    assert s2.file + Image(c, th.pending) == s.file + Block(Image(c, th.pending));
    assert s2.threads[t := th3] == s.threads[t := th3];
  }

  lemma PutSteps(c: Codec, s: State, t: nat)
    requires Sound(c, s) && Free(s, t) && s.threads[t].todo[0].Put?
    ensures Steps(c, s, t, Length(s, t)) == Done(c, s, t)
  {
    hide Image, BigEndian, Joined, Sound, Steps, Block;
    var th, fed := s.threads[t], Fed(s, t);
    SoundLocks(c, s, t);
    Unroll(c, s, t, Length(s, t));
    var s1 := Step(c, s, t);
    if Completes(s, t) {
      var th1 := s1.threads[t];
      BlockSteps(c, s1, t, 4);
      var th2 := th1.(ptr := false, saved := [true], pc := Unlock, offset := 0, pending := []);
      var s2 := State(s.file + Block(Image(c, fed)), Some(t), s.threads[t := th2], s.log + [Entry(t, fed)]);
      assert th1.saved + [th1.ptr] == [true];
      assert s1.threads[t := th2] == s.threads[t := th2];
      Unroll(c, s2, t, 1);
      StepsNone(c, Step(c, s2, t), t);
      assert [true][..0] == [];
    } else {
      StepsNone(c, s1, t);
    }
  }

  lemma StepsNone(c: Codec, s: State, t: nat)
    requires Sound(c, s) && t < |s.threads|
    ensures Steps(c, s, t, 0) == s
  {
  }

  lemma SyncSteps(c: Codec, s: State, t: nat)
    requires Sound(c, s) && Free(s, t) && s.threads[t].todo[0].Sync?
    ensures Steps(c, s, t, Length(s, t)) == Done(c, s, t)
  {
    hide Image, BigEndian, Joined, Sound, Steps, Block;
    var th := s.threads[t];
    SoundLocks(c, s, t);
    var n := Length(s, t);
    assert Fed(s, t) == th.pending;
    Unroll(c, s, t, n);
    var th1 := th.(inSync := true, saved := [true], pc := Outer);
    var s1 := At(s, t, s.file, Some(t), th1);
    assert th.saved + [true] == [true] && Step(c, s, t) == s1;
    Unroll(c, s1, t, n - 1);
    var th2 := th1.(pc := if th.pending == [] then OuterUnlock else Lock);
    var s2 := At(s, t, s.file, Some(t), th2);
    assert Step(c, s1, t) == s2;
    if th.pending == [] {
      LastStep(c, s2, t);
      assert s2.threads[t := th.(todo := th.todo[1..])] == s.threads[t := th.(todo := th.todo[1..])];
    } else {
      BlockSteps(c, s2, t, n - 2);
      var th3 := th2.(saved := [true, false], pc := Unlock, offset := 0, pending := []);
      var s3 := State(s.file + Block(Image(c, th.pending)), Some(t), s.threads[t := th3],
                      s.log + [Entry(t, th.pending)]);
      assert th2.saved + [th2.ptr] == [true, false] && s2.threads[t := th3] == s.threads[t := th3];
      Unroll(c, s3, t, 2);
      var s4 := s3.(threads := s.threads[t := th3.(saved := [true], pc := OuterUnlock)]);
      assert [true, false][..1] == [true] && Step(c, s3, t) == s4;
      LastStep(c, s4, t);
      assert s4.threads[t := s4.threads[t]] == s4.threads;
    }
  }

  // The outer unlock.
  lemma LastStep(c: Codec, s: State, t: nat)
    requires Sound(c, s) && t < |s.threads| && s.threads[t].pc == OuterUnlock
    ensures var th := s.threads[t];
            th.todo != [] &&
            Steps(c, s, t, 1) == State(s.file, None,
                                       s.threads[t := th.(ptr := false, inSync := false, saved := [], pc := Ready,
                                                          todo := th.todo[1..])], s.log)
  {
    hide Image, BigEndian, Joined, Sound, Steps;
    SoundLocks(c, s, t);
    Unroll(c, s, t, 1);
    StepsNone(c, Step(c, s, t), t);
    assert [true][..0] == [];
  }

  /** A whole command, with no step of another thread in between. */
  lemma CommandSteps(c: Codec, s: State, t: nat)
    requires Sound(c, s) && Free(s, t)
    ensures Steps(c, s, t, Length(s, t)) == Done(c, s, t)
  {
    hide Image, BigEndian, Joined, Sound, Steps;
    if s.threads[t].todo[0].Put? { PutSteps(c, s, t); } else { SyncSteps(c, s, t); }
  }

  /** What the steps of a command do to the file: a record is kept back as long as no more
      than 32000 bytes have been fed, and otherwise all records kept back, with this one, go
      out as one compressed block behind its length; a flush lets out what there is. */
  lemma BlocksAreCut(c: Codec, s: State, t: nat)
    requires Sound(c, s) && Free(s, t)
    ensures var th, s' := s.threads[t], Steps(c, s, t, Length(s, t));
            match th.todo[0]
            case Put(r) =>
              var image := c.compress(Joined(th.pending + [r], 0));
              if th.offset + |r| > 32000 then
                s'.file == s.file + (Four(|image|) + image) && s'.threads[t].pending == [] && s'.threads[t].offset == 0
              else
                && s'.file == s.file && s'.threads[t].pending == th.pending + [r]
                && s'.threads[t].offset == th.offset + |r|
            case Sync =>
              var image := c.compress(Joined(th.pending, 0));
              && s'.file == s.file + (if th.pending == [] then [] else Four(|image|) + image)
              && s'.threads[t].pending == []
  {
    hide Sound, Steps, BigEndian, Joined;
    var th := s.threads[t];
    CommandSteps(c, s, t);
    if th.todo[0].Put? {
      FourIsWord(|c.compress(Joined(th.pending + [th.todo[0].rec], 0))|);
    } else {
      FourIsWord(|c.compress(Joined(th.pending, 0))|);
      assert th.pending + [] == th.pending && s.file + [] == s.file;
    }
  }

  // ------------------------------------------------- the stream buffers

  // Something comes out of the compressor if something went in.
  ghost predicate Fills(c: Codec) {
    forall x :: x != [] ==> c.compress(x) != []
  }

  // Records are not empty.
  predicate Solid(cmds: seq<Cmd>) {
    forall cmd :: cmd in cmds && cmd.Put? ==> cmd.rec != []
  }

  // Between commands, the stream buffer has what thread t has.
  ghost predicate Mirrors(b: Flushing.OStreamBuf, c: Codec, s: State, t: nat)
    reads b
  {
    && b.codec == c && b.limit == COMPRESSION_BLOCK_SIZE && b.mutex == null
    && t < |s.threads| && s.threads[t].pc == Ready
    && b.fed == Joined(s.threads[t].pending, 0) && b.blockOffset == s.threads[t].offset
    && forall r :: r in s.threads[t].pending ==> r != []
  }

  lemma FedIsVisible(recs: seq<seq<byte>>)
    requires forall r :: r in recs ==> r != []
    ensures Joined(recs, 0) == [] <==> recs == []
  {
    if recs != [] {
      assert recs[0] in recs;
      JoinedVisible(recs, 0);
    }
  }

  /** A command, run by the stream buffer of a thread: the file, the compressor and the
      offset are as the steps of the thread leave them, and the mutex is taken once for a
      block, and once for a flush, whether or not there is anything in it. */
  method RunCommand(b: Flushing.OStreamBuf, m: Flushing.Mutex, cmd: Cmd, ghost c: Codec, ghost s: State, ghost t: nat,
                    ghost header: seq<byte>)
    requires !m.held && Fills(c) && Mirrors(b, c, s, t) && Free(s, t) && s.threads[t].todo[0] == cmd
    requires (cmd.Put? ==> cmd.rec != []) && b.sb.data == header + s.file
    modifies b, b.sb, m
    ensures !m.held && m.taken == old(m.taken) + if cmd.Sync? || Completes(s, t) then 1 else 0
    ensures Mirrors(b, c, Done(c, s, t), t) && b.sb.data == header + Done(c, s, t).file
  {
    hide Joined, Block, Image;
    ghost var th, fed := s.threads[t], Fed(s, t);
    assert Image(c, fed) == c.compress(Joined(fed, 0)) by { ImageIs(c, fed); }
    FedIsVisible(fed);
    NothingJoined();
    b.SetStreambufMutex(m);
    match cmd {
      case Put(r) =>
        JoinedSnoc(th.pending, r, 0);
        assert r in fed;
        var _ := b.Xsputn(r);
      case Sync =>
        assert fed == th.pending && b.fed + [] == b.fed;
        b.Sync();
    }
    b.SetStreambufMutex(null);
    BlockVisible(Image(c, fed));
    assert (header + s.file) + Block(Image(c, fed)) == header + (s.file + Block(Image(c, fed)));
    assert (header + s.file) + [] == header + s.file;
  }

  lemma ImageIs(c: Codec, recs: seq<seq<byte>>)
    ensures Image(c, recs) == c.compress(Joined(recs, 0))
  {
  }

  lemma NothingJoined()
    ensures Joined([], 0) == []
  {
  }

  lemma BlockVisible(body: seq<byte>)
    ensures Block(body) != []
  {
  }

  // s is reached by a run of the programs.
  ghost predicate Reached(c: Codec, programs: seq<seq<Cmd>>, s: State) {
    exists schedule ::
      && (forall t :: t in schedule ==> t < |programs|)
      && Sound(c, Start(programs)) && s == Run(c, Start(programs), schedule)
  }

  lemma StartReached(c: Codec, programs: seq<seq<Cmd>>)
    ensures Reached(c, programs, Start(programs)) && Sound(c, Start(programs))
  {
    StartIsSound(c, programs);
    assert Run(c, Start(programs), []) == Start(programs);
  }

  lemma DoneReached(c: Codec, programs: seq<seq<Cmd>>, s: State, t: nat)
    requires Reached(c, programs, s) && Free(s, t) && |s.threads| == |programs|
    ensures Reached(c, programs, Done(c, s, t))
  {
    hide Run, Sound, Done, Steps;
    var schedule :| (forall u :: u in schedule ==> u < |programs|) && Sound(c, Start(programs))
                    && s == Run(c, Start(programs), schedule);
    var more := Times(t, Length(s, t));
    RunOn(c, Start(programs), schedule, more);
    CommandSteps(c, s, t);
    StepsAreRun(c, s, t, Length(s, t));
    assert forall u :: u in schedule + more ==> u < |programs|;
  }

  lemma ReachedIsSound(c: Codec, programs: seq<seq<Cmd>>, s: State)
    requires Reached(c, programs, s)
    ensures Sound(c, s) && |s.threads| == |programs|
  {
    hide Run, Sound;
    var schedule :| (forall u :: u in schedule ==> u < |programs|) && Sound(c, Start(programs))
                    && s == Run(c, Start(programs), schedule);
    RunKeepsRecords(c, Start(programs), schedule);
  }

  // When nothing is left to do, everything is in the file.
  lemma NothingLeft(c: Codec, programs: seq<seq<Cmd>>, s: State)
    requires Reached(c, programs, s) && |s.threads| == |programs|
    requires forall t :: 0 <= t < |programs| ==> EndsInSync(programs[t]) && s.threads[t].todo == []
    ensures Finished(s)
  {
    hide Run, Sound;
    var schedule :| (forall u :: u in schedule ==> u < |programs|) && Sound(c, Start(programs))
                    && s == Run(c, Start(programs), schedule);
    RunSettles(c, Start(programs), schedule);
  }

  // Where a writer is in its program, and what it has in its buffer.
  ghost predicate Abreast(bs: seq<Flushing.OStreamBuf>, c: Codec, programs: seq<seq<Cmd>>, s: State, done: seq<nat>)
    reads bs
  {
    && |bs| == |programs| == |done| == |s.threads|
    && forall t :: 0 <= t < |bs| ==>
         Mirrors(bs[t], c, s, t) && done[t] <= |programs[t]| && s.threads[t].todo == programs[t][done[t]..]
  }

  /** Stream buffers of several threads on one file: whatever the order in which the threads
      carry out their commands, the file is that of a run of the state machine; and when all
      programs are done and end with a flush, that run is finished. */
  method Simulate(bs: seq<Flushing.OStreamBuf>, sb: Flushing.Sink, m: Flushing.Mutex, programs: seq<seq<Cmd>>,
                  schedule: seq<nat>, ghost c: Codec)
    returns (done: seq<nat>, ghost s: State)
    requires |bs| == |programs| && !m.held && Fills(c) && forall t :: 0 <= t < |programs| ==> Solid(programs[t])
    requires forall t, u :: 0 <= t < u < |bs| ==> bs[t] != bs[u]
    requires forall t :: 0 <= t < |bs| ==>
               && bs[t].sb == sb && bs[t].codec == c && bs[t].limit == COMPRESSION_BLOCK_SIZE
               && bs[t].mutex == null && bs[t].fed == [] && bs[t].blockOffset == 0
    requires forall t :: t in schedule ==> t < |bs|
    modifies bs, sb, m
    ensures Reached(c, programs, s) && |s.threads| == |bs| == |done|
    ensures sb.data == old(sb.data) + s.file && s.holder == None && !m.held
    ensures forall t :: 0 <= t < |bs| ==> done[t] <= |programs[t]| && s.threads[t].todo == programs[t][done[t]..]
    ensures (forall t :: 0 <= t < |bs| ==> done[t] == |programs[t]| && EndsInSync(programs[t])) ==> Finished(s)
  {
    hide Reached, Mirrors, Done, Joined, Fills;
    ghost var header := sb.data;
    s := Start(programs);
    done := seq(|bs|, _ => 0);
    StartReached(c, programs);
    AbreastAtStart(bs, c, programs, done);
    assert header + [] == header;
    for q := 0 to |schedule|
      invariant Reached(c, programs, s) && Abreast(bs, c, programs, s, done)
      invariant sb.data == header + s.file && s.holder == None && !m.held
    {
      var t := schedule[q];
      assert t in schedule;
      if done[t] < |programs[t]| {
        WriteTurn(bs, sb, m, t, programs, done, c, s, header);
        DoneReached(c, programs, s, t);
        s, done := Done(c, s, t), done[t := done[t] + 1];
      }
    }
    ReachedIsSound(c, programs, s);
    if forall t :: 0 <= t < |bs| ==> done[t] == |programs[t]| && EndsInSync(programs[t]) {
      NothingLeft(c, programs, s);
    }
  }

  lemma AbreastAtStart(bs: seq<Flushing.OStreamBuf>, c: Codec, programs: seq<seq<Cmd>>, done: seq<nat>)
    requires |bs| == |programs| == |done| && forall t :: 0 <= t < |done| ==> done[t] == 0
    requires forall t :: 0 <= t < |bs| ==>
               && bs[t].codec == c && bs[t].limit == COMPRESSION_BLOCK_SIZE
               && bs[t].mutex == null && bs[t].fed == [] && bs[t].blockOffset == 0
    ensures Abreast(bs, c, programs, Start(programs), done)
  {
    NothingJoined();
  }

  // One command of thread t.
  method WriteTurn(bs: seq<Flushing.OStreamBuf>, sb: Flushing.Sink, m: Flushing.Mutex, t: nat,
                   programs: seq<seq<Cmd>>, done: seq<nat>, ghost c: Codec, ghost s: State, ghost header: seq<byte>)
    requires Abreast(bs, c, programs, s, done) && t < |bs| && done[t] < |programs[t]| && Solid(programs[t])
    requires (forall u :: 0 <= u < |bs| ==> bs[u].sb == sb) && forall u, v :: 0 <= u < v < |bs| ==> bs[u] != bs[v]
    requires !m.held && Fills(c) && s.holder == None && sb.data == header + s.file
    modifies bs[t], sb, m
    ensures Free(s, t) && Abreast(bs, c, programs, Done(c, s, t), done[t := done[t] + 1])
    ensures sb.data == header + Done(c, s, t).file && Done(c, s, t).holder == None && !m.held
  {
    hide Joined, Fills, Block, Image;
    var cmd := programs[t][done[t]];
    assert cmd in programs[t];
    RunCommand(bs[t], m, cmd, c, s, t, header);
    assert programs[t][done[t]..][1..] == programs[t][done[t] + 1..];
  }
}
