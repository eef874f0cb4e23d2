/** Runs of writers and readers come to an end: what module Sharing says of finished runs is
    said of something that every run reaches. */
module Progress {
  import opened Basics
  import opened Xdr
  import opened Model
  import opened Framing
  import opened Sharing

  // ------------------------------------------------- the writers

  function Stage(pc: Pc): (n: nat) {
    match pc
    case Ready => 7
    case Outer => 6
    case Lock => 5
    case Length => 4
    case Body => 3
    case Unlock => 2
    case OuterUnlock => 1
  }

  // The steps that a thread has yet to take, at most.
  function Work(th: Thread): (n: nat) {
    if th.todo == [] then 0 else 8 * |th.todo| + Stage(th.pc)
  }

  function WorkTo(threads: seq<Thread>, n: nat): (w: nat)
    requires n <= |threads|
  {
    if n == 0 then 0 else WorkTo(threads, n - 1) + Work(threads[n - 1])
  }

  lemma {:induction false} WorkUpdate(a: seq<Thread>, b: seq<Thread>, t: nat, n: nat)
    requires |a| == |b| && n <= |a| && forall u :: 0 <= u < |a| && u != t ==> a[u] == b[u]
    ensures t < n ==> WorkTo(b, n) + Work(a[t]) == WorkTo(a, n) + Work(b[t])
    ensures t >= n ==> WorkTo(b, n) == WorkTo(a, n)
  {
    hide Work;
    if n > 0 { WorkUpdate(a, b, t, n - 1); }
  }

  /** A step changes nothing, because the lock is held or nothing is left to do, or there is
      less to do after it. */
  lemma StepWorks(c: Codec, s: State, t: nat)
    requires Sound(c, s) && t < |s.threads|
    ensures Steppable(s, t) && |Step(c, s, t).threads| == |s.threads|
    ensures Step(c, s, t) == s || WorkTo(Step(c, s, t).threads, |s.threads|) < WorkTo(s.threads, |s.threads|)
  {
    hide Image, Blocks, BigEndian, Joined, Locking, Step, Work;
    StepLocks(c, s, t);
    Member(s, t);
    ThreadWorks(c, s, t);
    WorkUpdate(s.threads, Step(c, s, t).threads, t, |s.threads|);
  }

  lemma ThreadWorks(c: Codec, s: State, t: nat)
    requires t < |s.threads| && Steppable(s, t) && Disciplined(s.threads[t], s.holder == Some(t))
    ensures t < |Step(c, s, t).threads|
    ensures Step(c, s, t) == s || Work(Step(c, s, t).threads[t]) < Work(s.threads[t])
  {
    hide Image, Blocks, BigEndian, Joined;
  }

  // The steps of a run that change something.
  function Effective(c: Codec, s: State, schedule: seq<nat>): (n: nat)
    requires Sound(c, s)
    decreases |schedule|
  {
    if schedule == [] || schedule[0] >= |s.threads| then 0
    else
      StepIsSound(c, s, schedule[0]);
      var s' := Step(c, s, schedule[0]);
      (if s' == s then 0 else 1) + Effective(c, s', schedule[1..])
  }

  /** No run goes on for ever: what was to do at the beginning bounds the number of its
      effective steps. */
  lemma {:induction false} RunsAreFinite(c: Codec, s: State, schedule: seq<nat>)
    requires Sound(c, s)
    ensures Sound(c, Run(c, s, schedule)) && |Run(c, s, schedule).threads| == |s.threads|
    ensures Effective(c, s, schedule) + WorkTo(Run(c, s, schedule).threads, |s.threads|)
            <= WorkTo(s.threads, |s.threads|)
    decreases |schedule|
  {
    hide Step, Sound, WorkTo, Steppable;
    if schedule != [] && schedule[0] < |s.threads| {
      StepIsSound(c, s, schedule[0]);
      StepWorks(c, s, schedule[0]);
      RunsAreFinite(c, Step(c, s, schedule[0]), schedule[1..]);
    }
  }

  // The last command is to flush, as the destructor of the stream does.
  predicate EndsInSync(cmds: seq<Cmd>) {
    cmds != [] ==> cmds[|cmds| - 1] == Sync
  }

  // What is fed to the compressor goes to the file at the latest with the last command.
  predicate Settles(th: Thread) {
    && EndsInSync(th.todo) && (th.todo == [] || th.pc == Unlock || th.pc == OuterUnlock ==> th.pending == [])
  }

  lemma StepSettles(c: Codec, s: State, t: nat)
    requires Sound(c, s) && t < |s.threads| && forall u :: 0 <= u < |s.threads| ==> Settles(s.threads[u])
    ensures Steppable(s, t) && |Step(c, s, t).threads| == |s.threads|
    ensures forall u :: 0 <= u < |s.threads| ==> Settles(Step(c, s, t).threads[u])
  {
    hide Image, Blocks, BigEndian, Joined, Locking, Step, Settles;
    StepLocks(c, s, t);
    Member(s, t);
    ThreadSettles(c, s, t);
  }

  lemma ThreadSettles(c: Codec, s: State, t: nat)
    requires t < |s.threads| && Steppable(s, t) && Disciplined(s.threads[t], s.holder == Some(t))
    requires Settles(s.threads[t])
    ensures t < |Step(c, s, t).threads| && Settles(Step(c, s, t).threads[t])
  {
    hide Image, Blocks, BigEndian, Joined;
  }

  // Some thread has something to do, if not all is done.
  lemma SomeoneWorks(s: State)
    requires !Finished(s) && forall u :: 0 <= u < |s.threads| ==> Settles(s.threads[u])
    ensures exists t :: 0 <= t < |s.threads| && s.threads[t].todo != []
  {
  }

  /** Programs that end with a flush can always be completed: from every state that a run
      of them reaches, some continuation finishes all of them. */
  lemma {:induction false} CanFinish(c: Codec, s: State) returns (schedule: seq<nat>)
    requires Sound(c, s) && forall u :: 0 <= u < |s.threads| ==> Settles(s.threads[u])
    ensures Finished(Run(c, s, schedule))
    decreases WorkTo(s.threads, |s.threads|)
  {
    hide Step, Sound, WorkTo, Steppable, Settles;
    if Finished(s) {
      schedule := [];
    } else {
      SomeoneWorks(s);
      var t :| 0 <= t < |s.threads| && s.threads[t].todo != [];
      NoDeadlock(c, s, t);
      var u := if s.holder.Some? then s.holder.value else t;
      StepIsSound(c, s, u);
      StepWorks(c, s, u);
      StepSettles(c, s, u);
      var more := CanFinish(c, Step(c, s, u));
      schedule := [u] + more;
      assert schedule[1..] == more;
    }
  }

  lemma {:induction false} RunSettles(c: Codec, s: State, schedule: seq<nat>)
    requires Sound(c, s) && forall u :: 0 <= u < |s.threads| ==> Settles(s.threads[u])
    ensures forall u :: 0 <= u < |Run(c, s, schedule).threads| ==> Settles(Run(c, s, schedule).threads[u])
    decreases |schedule|
  {
    hide Step, Sound, Steppable, Settles;
    if schedule != [] && schedule[0] < |s.threads| {
      StepIsSound(c, s, schedule[0]);
      StepSettles(c, s, schedule[0]);
      RunSettles(c, Step(c, s, schedule[0]), schedule[1..]);
    }
  }

  lemma {:induction false} RunOn(c: Codec, s: State, a: seq<nat>, b: seq<nat>)
    requires Sound(c, s) && forall t :: t in a ==> t < |s.threads|
    ensures Sound(c, Run(c, s, a)) && Run(c, s, a + b) == Run(c, Run(c, s, a), b)
    decreases |a|
  {
    hide Step, Sound, Steppable;
    if a == [] {
      assert a + b == b;
    } else {
      assert a[0] in a && (a + b)[0] == a[0] && (a + b)[1..] == a[1..] + b;
      assert forall t :: t in a[1..] ==> t in a;
      StepIsSound(c, s, a[0]);
      RunOn(c, Step(c, s, a[0]), a[1..], b);
    }
  }

  /** Every schedule can be continued to one that finishes all programs. */
  lemma EveryRunCanFinish(c: Codec, programs: seq<seq<Cmd>>, begun: seq<nat>) returns (rest: seq<nat>)
    requires forall t :: 0 <= t < |programs| ==> EndsInSync(programs[t])
    requires forall t :: t in begun ==> t < |programs|
    ensures Sound(c, Start(programs)) && Finished(Run(c, Start(programs), begun + rest))
  {
    hide Run, Sound;
    StartIsSound(c, programs);
    RunSettles(c, Start(programs), begun);
    RunOn(c, Start(programs), begun, []);
    rest := CanFinish(c, Run(c, Start(programs), begun));
    RunOn(c, Start(programs), begun, rest);
  }

  // ------------------------------------------------- the readers

  // The records of the blocks that nobody has claimed, and one step for each claim.
  function Unclaimed(log: seq<Entry>, n: nat): (k: nat)
    requires n <= |log|
    decreases |log| - n
  {
    if n == |log| then 0 else 1 + |log[n].recs| + Unclaimed(log, n + 1)
  }

  function ToRead(r: Reader): (k: nat) {
    |r.rest| + if r.ended then 0 else 1
  }

  function ToReadTo(readers: seq<Reader>, n: nat): (k: nat)
    requires n <= |readers|
  {
    if n == 0 then 0 else ToReadTo(readers, n - 1) + ToRead(readers[n - 1])
  }

  lemma {:induction false} ToReadUpdate(a: seq<Reader>, t: nat, r: Reader, n: nat)
    requires t < |a| && n <= |a|
    ensures t < n ==> ToReadTo(a[t := r], n) + ToRead(a[t]) == ToReadTo(a, n) + ToRead(r)
    ensures t >= n ==> ToReadTo(a[t := r], n) == ToReadTo(a, n)
  {
    hide ToRead;
    if n > 0 { ToReadUpdate(a, t, r, n - 1); }
  }

  function Remaining(log: seq<Entry>, s: Reading): (k: nat)
    requires s.next <= |log|
  {
    Unclaimed(log, s.next) + ToReadTo(s.readers, |s.readers|)
  }

  predicate Ended(r: Reader) {
    r.ended && r.rest == []
  }

  /** Every step of a reader that has not ended leaves less to do. */
  lemma ReadStepWorks(log: seq<Entry>, s: Reading, t: nat)
    requires s.next <= |log| && t < |s.readers| && !Ended(s.readers[t])
    requires s.readers[t].ended ==> s.readers[t].rest == []
    ensures ReadStep(log, s, t).next <= |log| && Remaining(log, ReadStep(log, s, t)) < Remaining(log, s)
  {
    ToReadUpdate(s.readers, t, ReadStep(log, s, t).readers[t], |s.readers|);
  }

  lemma ClaimedEnds(log: seq<Entry>, s: Reading, t: nat)
    requires Claimed(log, s) && t < |s.readers|
    ensures s.next <= |log| && (s.readers[t].ended ==> s.readers[t].rest == [])
  {
  }

  /** From every state that readers reach, some continuation brings all of them to the end. */
  lemma {:induction false} CanEnd(log: seq<Entry>, s: Reading) returns (schedule: seq<nat>)
    requires Claimed(log, s) && s.next <= |log|
    ensures AllEnded(ReadRun(log, s, schedule).readers)
    decreases Remaining(log, s)
  {
    hide Claimed, ReadStep, Remaining;
    if AllEnded(s.readers) {
      schedule := [];
    } else {
      var t :| 0 <= t < |s.readers| && !Ended(s.readers[t]);
      ClaimedEnds(log, s, t);
      ReadStepWorks(log, s, t);
      ReadStepKeepsClaims(log, s, t);
      var more := CanEnd(log, ReadStep(log, s, t));
      schedule := [t] + more;
      assert schedule[1..] == more;
    }
  }

  lemma {:induction false} ReadOn(log: seq<Entry>, s: Reading, a: seq<nat>, b: seq<nat>)
    requires forall t :: t in a ==> t < |s.readers|
    ensures ReadRun(log, s, a + b) == ReadRun(log, ReadRun(log, s, a), b)
    decreases |a|
  {
    hide ReadStep;
    if a == [] {
      assert a + b == b;
    } else {
      assert a[0] in a && (a + b)[0] == a[0] && (a + b)[1..] == a[1..] + b;
      assert forall t :: t in a[1..] ==> t in a;
      SameReaders(log, s, a[0]);
      ReadOn(log, ReadStep(log, s, a[0]), a[1..], b);
    }
  }

  lemma SameReaders(log: seq<Entry>, s: Reading, t: nat)
    requires t < |s.readers|
    ensures |ReadStep(log, s, t).readers| == |s.readers|
  {
  }

  lemma EveryReadingCanEnd(log: seq<Entry>, n: nat, begun: seq<nat>) returns (rest: seq<nat>)
    requires forall t :: t in begun ==> t < n
    ensures AllEnded(ReadRun(log, Waiting(n), begun + rest).readers)
  {
    hide ReadRun, Claimed;
    NothingHeld(log, n);
    ReadRunKeepsClaims(log, Waiting(n), begun);
    var s := ReadRun(log, Waiting(n), begun);
    rest := [];
    if n > 0 {
      ClaimedEnds(log, s, 0);
      rest := CanEnd(log, s);
    }
    ReadOn(log, Waiting(n), begun, rest);
  }

  /** Nothing is lost or repeated, without a condition: however writers and readers have
      begun, they can go on until all is written and read, and then the records delivered
      are those of the programs. */
  lemma AllIsWrittenAndRead(c: Codec, programs: seq<seq<Cmd>>, begun: seq<nat>, n: nat, reading: seq<nat>)
    returns (writing: seq<nat>, schedule: seq<nat>)
    requires n > 0 && (forall t :: 0 <= t < |programs| ==> EndsInSync(programs[t]))
    requires (forall t :: t in begun ==> t < |programs|) && forall t :: t in reading ==> t < n
    ensures begun <= writing && reading <= schedule && Sound(c, Start(programs))
    ensures var r := ReadRun(Run(c, Start(programs), writing).log, Waiting(n), schedule);
            AllEnded(r.readers) && multiset(Recs(Delivered(r.readers))) == AllPuts(programs, |programs|)
  {
    hide Run, ReadRun, Sound, Delivered, Recs;
    var rest := EveryRunCanFinish(c, programs, begun);
    writing := begun + rest;
    var log := Run(c, Start(programs), writing).log;
    var more := EveryReadingCanEnd(log, n, reading);
    schedule := reading + more;
    NothingLostOrRepeated(c, programs, writing, n, schedule);
  }
}
