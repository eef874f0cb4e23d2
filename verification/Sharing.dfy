/** Threads that write to one compressed file, and threads that read from it.  Every
    thread has its own compressor; the blocks that come out of it are appended to the file
    under a mutex.  A run is any interleaving of the steps of the threads. */
module Sharing {
  import opened Basics
  import opened Slices
  import opened Xdr
  import opened Model
  import opened Framing

  // ------------------------------------------------- writing

  const COMPRESSION_BLOCK_SIZE: nat := 32000

  // What a thread is told to do: write a record, with its CRC, or flush.
  datatype Cmd = Put(rec: seq<byte>) | Sync

  // Where a thread is: between commands, in sync behind its lock, or in flush.
  datatype Pc = Ready | Outer | Lock | Length | Body | Unlock | OuterUnlock

  /** A thread with its ostreambuf: whether the mutex pointer is set, the pointers that the
      lock macros have put aside, and the records fed to the compressor so far. */
  datatype Thread = Thread(pc: Pc, inSync: bool, ptr: bool, saved: seq<bool>,
                           offset: nat, pending: seq<seq<byte>>, todo: seq<Cmd>)

  // A block of the file: who appended it, and the records in it.
  datatype Entry = Entry(owner: nat, recs: seq<seq<byte>>)

  datatype State = State(file: seq<byte>, holder: Option<nat>, threads: seq<Thread>, log: seq<Entry>)

  function Image(c: Codec, recs: seq<seq<byte>>): (b: seq<byte>) {
    c.compress(Joined(recs, 0))
  }

  // MUTEX_LOCK: a null pointer means that the lock is already held.
  function Acquire(s: State, t: nat, th: Thread, next: Pc): (s': State)
    requires t < |s.threads|
  {
    if th.ptr then
      if s.holder == None then
        s.(holder := Some(t), threads := s.threads[t := th.(ptr := false, saved := th.saved + [true], pc := next)])
      else s
    else s.(threads := s.threads[t := th.(saved := th.saved + [false], pc := next)])
  }

  // MUTEX_UNLOCK
  function Release(s: State, t: nat, th: Thread, next: Pc): (s': State)
    requires t < |s.threads| && th.saved != []
  {
    var p := th.saved[|th.saved| - 1];
    State(s.file, if p then None else s.holder,
          s.threads[t := th.(ptr := p, saved := th.saved[..|th.saved| - 1], pc := next)], s.log)
  }

  // The command is done: unlock_streambufs clears the mutex pointer.
  function Finish(s: State, t: nat): (s': State)
    requires t < |s.threads| && s.threads[t].todo != []
  {
    var th := s.threads[t];
    s.(threads := s.threads[t := th.(ptr := false, inSync := false, todo := th.todo[1..])])
  }

  predicate Steppable(s: State, t: nat) {
    && t < |s.threads|
    && var th := s.threads[t];
    && (th.pc == Ready || th.todo != [])
    && (th.pc == Unlock || th.pc == OuterUnlock ==> th.saved != [])
  }

  // One step of thread t.
  function Step(c: Codec, s: State, t: nat): (s': State)
    requires Steppable(s, t)
  {
    var th := s.threads[t];
    match th.pc
    case Ready =>
      if th.todo == [] then s
      else
        (match th.todo[0]
         case Put(r) =>
           var fed := th.(pending := th.pending + [r], offset := th.offset + |r|);
           if fed.offset > COMPRESSION_BLOCK_SIZE then s.(threads := s.threads[t := fed.(ptr := true, pc := Lock)])
           else s.(threads := s.threads[t := fed.(todo := th.todo[1..])])
         case Sync => Acquire(s, t, th.(ptr := true, inSync := true), Outer))
    case Outer =>
      s.(threads := s.threads[t := th.(pc := if th.pending == [] then OuterUnlock else Lock)])
    case Lock => Acquire(s, t, th, Length)
    case Length =>
      State(s.file + U32(|Image(c, th.pending)|), s.holder, s.threads[t := th.(pc := Body)], s.log)
    case Body =>
      State(s.file + Image(c, th.pending), s.holder,
            s.threads[t := th.(pc := Unlock, offset := 0, pending := [])], s.log + [Entry(t, th.pending)])
    case Unlock =>
      if th.inSync then Release(s, t, th, OuterUnlock) else Finish(Release(s, t, th, Ready), t)
    case OuterUnlock => Finish(Release(s, t, th, Ready), t)
  }

  // The states after running thread schedule[0], then schedule[1], and so on.
  function Run(c: Codec, s: State, schedule: seq<nat>): (s': State)
    requires Sound(c, s)
    decreases |schedule|
  {
    if schedule == [] || schedule[0] >= |s.threads| then s
    else
      StepIsSound(c, s, schedule[0]);
      Run(c, Step(c, s, schedule[0]), schedule[1..])
  }

  // ------------------------------------------------- the invariant

  // Who holds the mutex, and what has been put aside.
  predicate Disciplined(th: Thread, holds: bool) {
    match th.pc
    case Ready => !th.ptr && !th.inSync && th.saved == [] && !holds
    case Outer => !th.ptr && th.inSync && th.saved == [true] && holds && th.todo != [] && th.todo[0] == Sync
    case Lock =>
      && th.pending != [] && th.todo != []
      && (if th.inSync then !th.ptr && th.saved == [true] && holds && th.todo[0] == Sync
          else th.ptr && th.saved == [] && !holds && th.todo[0].Put?)
    case OuterUnlock => !th.ptr && th.inSync && th.saved == [true] && holds && th.todo != [] && th.todo[0] == Sync
    case _ =>
      && !th.ptr && holds && th.todo != [] && (th.pc == Unlock || th.pending != [])
      && (if th.inSync then th.saved == [true, false] && th.todo[0] == Sync else th.saved == [true] && th.todo[0].Put?)
  }

  // The blocks in the file, and then perhaps the length of one more.
  function Blocks(c: Codec, log: seq<Entry>): (b: seq<byte>) {
    if log == [] then [] else Blocks(c, log[..|log| - 1]) + Block(Image(c, log[|log| - 1].recs))
  }

  function Begun(c: Codec, s: State): (b: seq<byte>) {
    if s.holder.Some? && s.holder.value < |s.threads| && s.threads[s.holder.value].pc == Body then
      U32(|Image(c, s.threads[s.holder.value].pending)|)
    else []
  }

  predicate Locking(s: State) {
    && (forall t :: 0 <= t < |s.threads| ==> Disciplined(s.threads[t], s.holder == Some(t)))
    && (s.holder.Some? ==> s.holder.value < |s.threads|)
  }

  predicate Sound(c: Codec, s: State) {
    && Locking(s) && s.file == Blocks(c, s.log) + Begun(c, s)
    && (forall e :: e in s.log ==> e.recs != [] && e.owner < |s.threads|)
  }

  // The lock is taken and given back as it should be, nested or not.
  lemma StepLocks(c: Codec, s: State, t: nat)
    requires Locking(s) && t < |s.threads|
    ensures Steppable(s, t) && Locking(Step(c, s, t)) && |Step(c, s, t).threads| == |s.threads|
    ensures forall u :: 0 <= u < |s.threads| && u != t ==> Step(c, s, t).threads[u] == s.threads[u]
  {
    hide Image, Blocks, BigEndian, Joined;
    assert Disciplined(s.threads[t], s.holder == Some(t));
    assert Steppable(s, t);
    var s' := Step(c, s, t);
    assert Disciplined(s'.threads[t], s'.holder == Some(t));
    forall u | 0 <= u < |s.threads| && u != t
      ensures s'.threads[u] == s.threads[u] && Disciplined(s'.threads[u], s'.holder == Some(u))
    {
      assert Disciplined(s.threads[u], s.holder == Some(u));
    }
  }

  lemma StepIsSound(c: Codec, s: State, t: nat)
    requires Sound(c, s) && t < |s.threads|
    ensures Steppable(s, t) && Sound(c, Step(c, s, t)) && |Step(c, s, t).threads| == |s.threads|
  {
    hide Image, BigEndian, Joined, Locking;
    StepLocks(c, s, t);
    StepAppends(c, s, t);
  }

  // Only two kinds of step touch the file.
  lemma QuietStep(c: Codec, s: State, t: nat)
    requires Locking(s) && t < |s.threads| && Steppable(s, t)
    requires s.threads[t].pc != Length && s.threads[t].pc != Body
    ensures var s' := Step(c, s, t);
            && s'.file == s.file && s'.log == s.log && |s'.threads| == |s.threads| && s'.threads[t].pc != Body
            && (|| s'.holder == s.holder
                || (s.holder == None && s'.holder == Some(t)) || (s.holder == Some(t) && s'.holder == None))
  {
    hide Image, Blocks, BigEndian, Joined;
    Member(s, t);
  }

  lemma StepAppends(c: Codec, s: State, t: nat)
    requires Sound(c, s) && t < |s.threads| && Steppable(s, t)
    requires forall u :: 0 <= u < |s.threads| && u != t ==>
               u < |Step(c, s, t).threads| && Step(c, s, t).threads[u] == s.threads[u]
    ensures var s' := Step(c, s, t);
            && s'.file == Blocks(c, s'.log) + Begun(c, s')
            && (forall e :: e in s'.log ==> e.recs != [] && e.owner < |s.threads|)
  {
    hide Step, Image, Blocks, BigEndian, Joined, Locking, Begun;
    if s.threads[t].pc == Body {
      BodyAppends(c, s, t);
    } else if s.threads[t].pc == Length {
      LengthAppends(c, s, t);
    } else {
      QuietStep(c, s, t);
      QuietBegun(c, s, Step(c, s, t), t);
    }
  }

  lemma BodyAppends(c: Codec, s: State, t: nat)
    requires Sound(c, s) && t < |s.threads| && Steppable(s, t) && s.threads[t].pc == Body
    ensures var s' := Step(c, s, t);
            && s'.file == Blocks(c, s'.log) + Begun(c, s')
            && s'.log == s.log + [Entry(t, s.threads[t].pending)] && s.threads[t].pending != []
  {
    hide Image, Blocks, BigEndian, Joined;
    Member(s, t);
    BlockAdded(c, s.log, Entry(t, s.threads[t].pending));
  }

  lemma LengthAppends(c: Codec, s: State, t: nat)
    requires Sound(c, s) && t < |s.threads| && Steppable(s, t) && s.threads[t].pc == Length
    ensures var s' := Step(c, s, t);
            s'.file == Blocks(c, s'.log) + Begun(c, s') && s'.log == s.log
  {
    hide Image, Blocks, BigEndian, Joined;
    Member(s, t);
  }

  lemma QuietBegun(c: Codec, s: State, s': State, t: nat)
    requires t < |s.threads| == |s'.threads| && s.threads[t].pc != Body && s'.threads[t].pc != Body
    requires forall u :: 0 <= u < |s.threads| && u != t ==> s'.threads[u] == s.threads[u]
    requires || s'.holder == s.holder
             || (s.holder == None && s'.holder == Some(t)) || (s.holder == Some(t) && s'.holder == None)
    ensures Begun(c, s') == Begun(c, s)
  {
  }

  lemma BlockAdded(c: Codec, log: seq<Entry>, e: Entry)
    ensures Blocks(c, log + [e]) == Blocks(c, log) + Block(Image(c, e.recs))
  {
    assert (log + [e])[..|log|] == log;
  }

  lemma Member(s: State, t: nat)
    requires Locking(s) && t < |s.threads|
    ensures Disciplined(s.threads[t], s.holder == Some(t))
  {
  }

  // ------------------------------------------------- what is written

  // The records of a program, in order.
  function Puts(cmds: seq<Cmd>): (recs: seq<seq<byte>>) {
    if cmds == [] then [] else (if cmds[0].Put? then [cmds[0].rec] else []) + Puts(cmds[1..])
  }

  // The records in the file that a thread has written, in file order.
  function Own(log: seq<Entry>, t: nat): (recs: seq<seq<byte>>) {
    if log == [] then []
    else Own(log[..|log| - 1], t) + if log[|log| - 1].owner == t then log[|log| - 1].recs else []
  }

  // The records still to be written; the one being flushed is not among them.
  function Left(th: Thread): (recs: seq<seq<byte>>)
    requires th.pc != Ready ==> th.todo != []
  {
    if th.pc == Ready || th.inSync then Puts(th.todo) else Puts(th.todo[1..])
  }

  function Account(s: State, t: nat): (recs: seq<seq<byte>>)
    requires t < |s.threads| && Locking(s)
  {
    assert Disciplined(s.threads[t], s.holder == Some(t));
    Own(s.log, t) + (s.threads[t].pending + Left(s.threads[t]))
  }

  lemma StepKeepsAccount(c: Codec, s: State, t: nat, u: nat)
    requires Sound(c, s) && t < |s.threads| && u < |s.threads|
    ensures Steppable(s, t) && Locking(Step(c, s, t)) && |Step(c, s, t).threads| == |s.threads|
    ensures Account(Step(c, s, t), u) == Account(s, u)
  {
    hide Image, Blocks, BigEndian, Joined, Locking, Own, Puts, Step, Left;
    StepLocks(c, s, t);
    Member(s, t);
    Member(s, u);
    Member(Step(c, s, t), u);
    OwnAppended(s.log, t, s.threads[t].pending, u);
    OwnStep(c, s, t);
    Regroup(Own(s.log, u), s.threads[u].pending, Left(s.threads[u]));
  }

  lemma Regroup(a: seq<seq<byte>>, b: seq<seq<byte>>, c: seq<seq<byte>>)
    ensures (a + b) + ([] + c) == a + (b + c) && a + [] == a
  {
  }

  lemma OwnAppended(log: seq<Entry>, t: nat, recs: seq<seq<byte>>, u: nat)
    ensures Own(log + [Entry(t, recs)], u) == Own(log, u) + if t == u then recs else []
  {
    assert (log + [Entry(t, recs)])[..|log|] == log;
  }

  // What one step of a thread moves: from the program to the compressor, from there to the file.
  predicate Moved(c: Codec, s: State, t: nat)
    requires t < |s.threads| && Steppable(s, t) && t < |Step(c, s, t).threads|
    requires s.threads[t].pc != Ready ==> s.threads[t].todo != []
  {
    var th, th' := s.threads[t], Step(c, s, t).threads[t];
    && (th'.pc != Ready ==> th'.todo != [])
    && Step(c, s, t).log == (if th.pc == Body then s.log + [Entry(t, th.pending)] else s.log)
    && (if th.pc == Body then th'.pending == [] && Left(th') == Left(th)
        else th'.pending + Left(th') == th.pending + Left(th))
  }

  lemma OwnStep(c: Codec, s: State, t: nat)
    requires Sound(c, s) && t < |s.threads| && Steppable(s, t) && Disciplined(s.threads[t], s.holder == Some(t))
    requires t < |Step(c, s, t).threads|
    ensures Moved(c, s, t)
  {
    hide Image, Blocks, BigEndian, Joined, Locking, Own, Begun, Puts;
    if s.threads[t].pc == Ready {
      ReadyStep(c, s, t);
    } else {
      PutsStep(s.threads[t].todo);
    }
  }

  lemma PutsStep(cmds: seq<Cmd>)
    requires cmds != []
    ensures Puts(cmds) == (if cmds[0].Put? then [cmds[0].rec] else []) + Puts(cmds[1..])
    ensures cmds[0].Sync? ==> Puts(cmds) == Puts(cmds[1..])
  {
  }

  lemma ReadyStep(c: Codec, s: State, t: nat)
    requires t < |s.threads| && Steppable(s, t) && Disciplined(s.threads[t], s.holder == Some(t))
    requires s.threads[t].pc == Ready && t < |Step(c, s, t).threads|
    ensures Moved(c, s, t)
  {
    hide Image, Blocks, BigEndian, Joined, Own, Begun;
    var th := s.threads[t];
    if th.todo != [] && th.todo[0].Put? {
      var r, rest := th.todo[0].rec, Puts(th.todo[1..]);
      assert (th.pending + [r]) + rest == th.pending + ([r] + rest);
    }
  }

  /** Writer atomicity.  After any run the file is a sequence of whole blocks, perhaps
      with the length of one more that the holder of the mutex is appending; every block
      expands to whole records of one thread, at least one; and for each thread what is in
      the file, what is in its compressor and what is left to do is its program. */
  lemma {:induction false} RunKeepsRecords(c: Codec, s: State, schedule: seq<nat>)
    requires Sound(c, s)
    ensures var s' := Run(c, s, schedule);
            && Sound(c, s') && |s'.threads| == |s.threads|
            && forall u :: 0 <= u < |s.threads| ==> Account(s', u) == Account(s, u)
    decreases |schedule|
  {
    hide Step, Account, Locking, Blocks, Begun;
    if schedule != [] && schedule[0] < |s.threads| {
      StepIsSound(c, s, schedule[0]);
      forall u | 0 <= u < |s.threads| ensures Account(Step(c, s, schedule[0]), u) == Account(s, u) {
        StepKeepsAccount(c, s, schedule[0], u);
      }
      RunKeepsRecords(c, Step(c, s, schedule[0]), schedule[1..]);
    }
  }

  // Threads that have not begun, and an empty file.
  function Start(programs: seq<seq<Cmd>>): (s: State)
    ensures |s.threads| == |programs|
  {
    State([], None, seq(|programs|, t requires 0 <= t < |programs| =>
                          Thread(Ready, false, false, [], 0, [], programs[t])), [])
  }

  predicate Finished(s: State) {
    forall t :: 0 <= t < |s.threads| ==> s.threads[t].todo == [] && s.threads[t].pending == []
  }

  /** When all threads have done their work the file consists of whole blocks, and is a
      merge of the programs: each thread's records are there in the thread's order. */
  lemma FinalFileIsMerge(c: Codec, programs: seq<seq<Cmd>>, schedule: seq<nat>)
    ensures Sound(c, Start(programs))
    ensures var s := Run(c, Start(programs), schedule);
            Finished(s) ==>
              && s.holder == None && s.file == Blocks(c, s.log)
              && (forall e :: e in s.log ==> e.recs != [] && e.owner < |programs|)
              && forall t :: 0 <= t < |programs| ==> Own(s.log, t) == Puts(programs[t])
  {
    hide Image, BigEndian, Joined, Own;
    var s0 := Start(programs);
    StartIsSound(c, programs);
    RunKeepsRecords(c, s0, schedule);
    var s := Run(c, s0, schedule);
    if Finished(s) {
      hide Run;
      if s.holder.Some? { Member(s, s.holder.value); }
      forall t | 0 <= t < |programs| ensures Own(s.log, t) == Puts(programs[t]) {
        assert Account(s, t) == Account(s0, t);
        Member(s, t);
      }
    }
  }

  lemma StartIsSound(c: Codec, programs: seq<seq<Cmd>>)
    ensures Sound(c, Start(programs))
    ensures forall t :: 0 <= t < |programs| ==> Account(Start(programs), t) == Puts(programs[t])
  {
    assert Locking(Start(programs));
  }

  /** The nested lock does not block: as long as some thread has something to do, some
      thread can take a step. */
  lemma NoDeadlock(c: Codec, s: State, t: nat)
    requires Sound(c, s) && t < |s.threads| && s.threads[t].todo != []
    ensures var u := if s.holder.Some? then s.holder.value else t;
            u < |s.threads| && Steppable(s, u) && Step(c, s, u) != s
  {
    hide Image, Blocks, BigEndian, Joined;
    var u := if s.holder.Some? then s.holder.value else t;
    Member(s, u);
    StepLocks(c, s, u);
    var th, th' := s.threads[u], Step(c, s, u).threads[u];
    assert th.pc != th'.pc || |th.todo| != |th'.todo|;
  }

  // ------------------------------------------------- the file as its readers see it

  function Bodies(c: Codec, log: seq<Entry>): (bodies: seq<seq<byte>>)
    ensures |bodies| == |log|
  {
    seq(|log|, i requires 0 <= i < |log| => Image(c, log[i].recs))
  }

  lemma {:induction false} BlocksAreFramed(c: Codec, log: seq<Entry>)
    ensures Blocks(c, log) == Framed(Bodies(c, log), 0)
  {
    if log != [] {
      var front, body := log[..|log| - 1], Image(c, log[|log| - 1].recs);
      BlocksAreFramed(c, front);
      FramedSnoc(Bodies(c, front), body, 0);
      assert Bodies(c, log) == Bodies(c, front) + [body];
    }
  }

  function Contents(log: seq<Entry>): (cs: seq<seq<byte>>) {
    seq(|log|, i requires 0 <= i < |log| => Joined(log[i].recs, 0))
  }

  lemma {:induction false} JoinedVisible(recs: seq<seq<byte>>, i: nat)
    requires i < |recs| && recs[i] != []
    ensures Joined(recs, i) != []
  {
    assert |Joined(recs, i)| == |recs[i]| + |Joined(recs, i + 1)|;
  }

  /** What the writers leave behind is what the readers need: behind any header, complete
      compressed streams with their lengths, which expand to the records of the log. */
  lemma WrittenFileIsReadable(c: Codec, log: seq<Entry>, header: seq<byte>)
    requires Lossless(c) && BlockLengths(Bodies(c, log))
    requires forall e :: e in log ==> e.recs != [] && e.recs[0] != []
    ensures Compressed(File(|header|, Bodies(c, log), Contents(log)), header + Blocks(c, log), c)
  {
    hide At, BigEndian, Joined, Blocks, Framed;
    var bodies, data := Bodies(c, log), header + Blocks(c, log);
    BlocksAreFramed(c, log);
    AtSlice(data, |header|, |Blocks(c, log)|);
    assert data[|header|..|header| + |Blocks(c, log)|] == Blocks(c, log);
    forall i | 0 <= i < |log| ensures Contents(log)[i] != [] {
      assert log[i] in log;
      JoinedVisible(log[i].recs, 0);
    }
  }

  // ------------------------------------------------- reading

  // A record in the file: record number index of block number block.
  datatype Item = Item(block: nat, index: nat, rec: seq<byte>)

  // A reader: what is left of the block it has claimed, what it has delivered, and
  // whether it has found the end of the file.
  datatype Reader = Reader(rest: seq<Item>, got: seq<Item>, ended: bool)

  // next is the first block that nobody has claimed.
  datatype Reading = Reading(next: nat, readers: seq<Reader>)

  function BlockItems(log: seq<Entry>, i: nat): (items: seq<Item>)
    requires i < |log|
    ensures |items| == |log[i].recs|
    ensures forall k :: 0 <= k < |items| ==> items[k] == Item(i, k, log[i].recs[k])
  {
    seq(|log[i].recs|, k requires 0 <= k < |log[i].recs| => Item(i, k, log[i].recs[k]))
  }

  // The records of the first n blocks.
  function ItemsTo(log: seq<Entry>, n: nat): (items: seq<Item>)
    requires n <= |log|
  {
    if n == 0 then [] else ItemsTo(log, n - 1) + BlockItems(log, n - 1)
  }

  // A reader delivers the next record of its block; without one it claims the next block.
  function ReadStep(log: seq<Entry>, s: Reading, t: nat): (s': Reading)
    requires t < |s.readers|
  {
    var r := s.readers[t];
    if r.rest != [] then
      s.(readers := s.readers[t := Reader(r.rest[1..], r.got + [r.rest[0]], r.ended)])
    else if s.next < |log| then
      Reading(s.next + 1, s.readers[t := Reader(BlockItems(log, s.next), r.got, false)])
    else
      s.(readers := s.readers[t := r.(ended := true)])
  }

  function ReadRun(log: seq<Entry>, s: Reading, schedule: seq<nat>): (s': Reading)
    ensures |s'.readers| == |s.readers|
    decreases |schedule|
  {
    if schedule == [] || schedule[0] >= |s.readers| then s
    else ReadRun(log, ReadStep(log, s, schedule[0]), schedule[1..])
  }

  // All records that a reader has, delivered or claimed.
  function Have(r: Reader): (items: multiset<Item>) {
    multiset(r.got + r.rest)
  }

  function Held(readers: seq<Reader>): (items: multiset<Item>) {
    if readers == [] then multiset{} else Held(readers[..|readers| - 1]) + Have(readers[|readers| - 1])
  }

  // Everything delivered, reader by reader.
  function Delivered(readers: seq<Reader>): (items: seq<Item>) {
    if readers == [] then [] else Delivered(readers[..|readers| - 1]) + readers[|readers| - 1].got
  }

  predicate InOrder(items: seq<Item>) {
    forall i, j :: 0 <= i < j < |items| ==>
      items[i].block < items[j].block || (items[i].block == items[j].block && items[i].index < items[j].index)
  }

  // A reader's records are in file order and lie before block n.
  predicate Orderly(r: Reader, n: nat) {
    InOrder(r.got + r.rest) && forall x :: x in r.got + r.rest ==> x.block < n
  }

  predicate Claimed(log: seq<Entry>, s: Reading) {
    && s.next <= |log|
    && Held(s.readers) == multiset(ItemsTo(log, s.next))
    && (forall t :: 0 <= t < |s.readers| ==> Orderly(s.readers[t], s.next))
    && (forall t :: 0 <= t < |s.readers| && s.readers[t].ended ==> s.next == |log| && s.readers[t].rest == [])
  }

  lemma {:induction false} HeldUpdate(readers: seq<Reader>, t: nat, r: Reader)
    requires t < |readers|
    ensures Held(readers[t := r]) + Have(readers[t]) == Held(readers) + Have(r)
  {
    hide Have;
    var n := |readers| - 1;
    if t < n {
      HeldUpdate(readers[..n], t, r);
      assert readers[t := r][..n] == readers[..n][t := r];
      Exchange(Held(readers[..n][t := r]), Have(readers[t]), Held(readers[..n]), Have(r), Have(readers[n]));
    } else {
      assert readers[t := r][..n] == readers[..n];
      Exchange(Held(readers[..n]), Have(r), Held(readers[..n]), Have(r), Have(readers[n]));
    }
  }

  lemma Exchange(a: multiset<Item>, b: multiset<Item>, c: multiset<Item>, d: multiset<Item>, e: multiset<Item>)
    requires a + b == c + d
    ensures (a + e) + b == (c + e) + d
  {
    forall x ensures ((a + e) + b)[x] == ((c + e) + d)[x] {
      assert (a + b)[x] == (c + d)[x];
    }
  }

  lemma CancelFrom(a: multiset<Item>, b: multiset<Item>, c: multiset<Item>, e: multiset<Item>, d: multiset<Item>)
    requires a + b == c + e && e == b + d
    ensures a == c + d
  {
    Cancel(a, b, c, d);
  }

  lemma BlockIsOrderly(r: Reader, log: seq<Entry>, n: nat)
    requires n < |log| && r.rest == [] && Orderly(r, n)
    ensures Orderly(Reader(BlockItems(log, n), r.got, false), n + 1)
  {
    var items, all := BlockItems(log, n), r.got + BlockItems(log, n);
    assert r.got + r.rest == r.got;
    forall i, j | 0 <= i < j < |all|
      ensures all[i].block < all[j].block || (all[i].block == all[j].block && all[i].index < all[j].index)
    {
      if i < |r.got| { assert all[i] in r.got + r.rest; }
    }
  }

  lemma ReadStepKeepsClaims(log: seq<Entry>, s: Reading, t: nat)
    requires Claimed(log, s) && t < |s.readers|
    ensures Claimed(log, ReadStep(log, s, t))
  {
    hide InOrder, BlockItems, Held, Have, Orderly, ItemsTo;
    var r, s' := s.readers[t], ReadStep(log, s, t);
    HeldUpdate(s.readers, t, s'.readers[t]);
    if r.rest != [] {
      Delivering(r, s.next);
      CancelSame(Held(s'.readers), Have(r), Held(s.readers));
    } else if s.next < |log| {
      Claiming(r, log, s.next);
      CancelFrom(Held(s'.readers), Have(r), Held(s.readers), Have(s'.readers[t]), multiset(BlockItems(log, s.next)));
      forall u | 0 <= u < |s.readers| ensures Orderly(s'.readers[u], s.next + 1) {
        if u != t { StillOrderly(s.readers[u], s.next); }
      }
    } else {
      Ending(r, s.next);
      CancelSame(Held(s'.readers), Have(r), Held(s.readers));
    }
  }

  lemma Delivering(r: Reader, n: nat)
    requires r.rest != [] && Orderly(r, n)
    ensures var r' := Reader(r.rest[1..], r.got + [r.rest[0]], r.ended);
            Have(r') == Have(r) && Orderly(r', n)
  {
    assert (r.got + [r.rest[0]]) + r.rest[1..] == r.got + r.rest;
  }

  lemma Ending(r: Reader, n: nat)
    requires Orderly(r, n)
    ensures Have(r.(ended := true)) == Have(r) && Orderly(r.(ended := true), n)
  {
  }

  lemma StillOrderly(r: Reader, n: nat)
    requires Orderly(r, n)
    ensures Orderly(r, n + 1)
  {
  }

  lemma Claiming(r: Reader, log: seq<Entry>, n: nat)
    requires n < |log| && r.rest == [] && Orderly(r, n)
    ensures var r' := Reader(BlockItems(log, n), r.got, false);
            Have(r') == Have(r) + multiset(BlockItems(log, n)) && Orderly(r', n + 1)
    ensures multiset(ItemsTo(log, n + 1)) == multiset(ItemsTo(log, n)) + multiset(BlockItems(log, n))
  {
    BlockIsOrderly(r, log, n);
    assert r.got + [] == r.got;
  }

  lemma {:induction false} ReadRunKeepsClaims(log: seq<Entry>, s: Reading, schedule: seq<nat>)
    requires Claimed(log, s)
    ensures Claimed(log, ReadRun(log, s, schedule))
    decreases |schedule|
  {
    hide Claimed, ReadStep;
    if schedule != [] && schedule[0] < |s.readers| {
      ReadStepKeepsClaims(log, s, schedule[0]);
      ReadRunKeepsClaims(log, ReadStep(log, s, schedule[0]), schedule[1..]);
    }
  }

  // ------------------------------------------------- exactly once

  function Waiting(n: nat): (s: Reading)
    ensures |s.readers| == n
  {
    Reading(0, seq(n, _ => Reader([], [], false)))
  }

  lemma NothingHad()
    ensures Have(Reader([], [], false)) == multiset{} && Orderly(Reader([], [], false), 0)
  {
  }

  lemma {:induction false} NoneHeld(n: nat)
    ensures Held(Waiting(n).readers) == multiset{}
  {
    hide Have;
    if n > 0 {
      NoneHeld(n - 1);
      assert Waiting(n).readers[..n - 1] == Waiting(n - 1).readers;
      NothingHad();
    }
  }

  lemma NothingHeld(log: seq<Entry>, n: nat)
    ensures Claimed(log, Waiting(n)) && Held(Waiting(n).readers) == multiset{}
  {
    hide Held, Have, Orderly;
    NoneHeld(n);
    NothingHad();
  }

  predicate AllEnded(readers: seq<Reader>) {
    forall t :: 0 <= t < |readers| ==> readers[t].ended && readers[t].rest == []
  }

  lemma {:induction false} AllDelivered(readers: seq<Reader>)
    requires AllEnded(readers)
    ensures Held(readers) == multiset(Delivered(readers))
  {
    if readers != [] {
      var last := readers[|readers| - 1];
      AllDelivered(readers[..|readers| - 1]);
      assert last.got + last.rest == last.got;
    }
  }

  lemma {:induction false} OrderedOnce(items: seq<Item>, x: Item)
    requires InOrder(items)
    ensures multiset(items)[x] == if x in items then 1 else 0
  {
    if items != [] {
      assert items == [items[0]] + items[1..];
      OrderedOnce(items[1..], x);
    }
  }

  lemma BlockHas(log: seq<Entry>, n: nat, x: Item)
    requires n < |log|
    ensures x in BlockItems(log, n)
            <==> x.block == n && x.index < |log[n].recs| && x.rec == log[n].recs[x.index]
  {
    if x.block == n && x.index < |log[n].recs| && x.rec == log[n].recs[x.index] {
      assert BlockItems(log, n)[x.index] == x;
    }
  }

  // The items of the first n blocks are their records.
  lemma {:induction false} ItemsHave(log: seq<Entry>, n: nat, x: Item)
    requires n <= |log|
    ensures x in ItemsTo(log, n)
            <==> x.block < n && x.index < |log[x.block].recs| && x.rec == log[x.block].recs[x.index]
  {
    hide BlockItems;
    if n > 0 {
      ItemsHave(log, n - 1, x);
      BlockHas(log, n - 1, x);
    }
  }

  lemma {:induction false} ItemsInOrder(log: seq<Entry>, n: nat)
    requires n <= |log|
    ensures InOrder(ItemsTo(log, n))
    ensures forall x :: x in ItemsTo(log, n) <==>
                          x.block < n && x.index < |log[x.block].recs| && x.rec == log[x.block].recs[x.index]
  {
    if n > 0 {
      ItemsInOrder(log, n - 1);
      OneMoreBlock(log, n - 1);
    }
    forall x: Item
      ensures x in ItemsTo(log, n)
              <==> x.block < n && x.index < |log[x.block].recs| && x.rec == log[x.block].recs[x.index]
    {
      ItemsHave(log, n, x);
    }
  }

  lemma OneMoreBlock(log: seq<Entry>, n: nat)
    requires n < |log| && InOrder(ItemsTo(log, n)) && forall x :: x in ItemsTo(log, n) ==> x.block < n
    ensures InOrder(ItemsTo(log, n + 1))
  {
    hide InOrder, BlockItems;
    var r := Reader([], ItemsTo(log, n), false);
    assert r.got + r.rest == r.got;
    BlockIsOrderly(r, log, n);
    assert r.got + BlockItems(log, n) == ItemsTo(log, n + 1);
  }

  /** Exactly-once delivery.  In every run no record is held by two readers or twice by
      one, every reader delivers in file order, and once all have reached the end of the
      file each record of the file has been delivered once and only once. */
  lemma ExactlyOnce(log: seq<Entry>, n: nat, schedule: seq<nat>, x: Item)
    ensures var s := ReadRun(log, Waiting(n), schedule);
            && Held(s.readers)[x] <= 1
            && (forall t :: 0 <= t < n ==> InOrder(s.readers[t].got))
            && (AllEnded(s.readers) && n > 0 ==>
                  multiset(Delivered(s.readers))[x]
                  == if x.block < |log| && x.index < |log[x.block].recs| && x.rec == log[x.block].recs[x.index]
                     then 1 else 0)
  {
    hide Held, Delivered, ItemsTo, ReadRun, InOrder;
    NothingHeld(log, n);
    ReadRunKeepsClaims(log, Waiting(n), schedule);
    var s := ReadRun(log, Waiting(n), schedule);
    ItemsInOrder(log, s.next);
    OrderedOnce(ItemsTo(log, s.next), x);
    forall t | 0 <= t < n ensures InOrder(s.readers[t].got) {
      OrderlyPrefix(s.readers[t], s.next);
    }
    if AllEnded(s.readers) && n > 0 {
      assert s.readers[0].ended;
      AllDelivered(s.readers);
    }
  }

  lemma OrderlyPrefix(r: Reader, n: nat)
    requires Orderly(r, n)
    ensures InOrder(r.got)
  {
    var all := r.got + r.rest;
    assert forall i :: 0 <= i < |r.got| ==> r.got[i] == all[i];
  }

  // ------------------------------------------------- from writers to readers

  function Recs(items: seq<Item>): (recs: seq<seq<byte>>) {
    seq(|items|, i requires 0 <= i < |items| => items[i].rec)
  }

  lemma RecsConcat(a: seq<Item>, b: seq<Item>)
    ensures Recs(a + b) == Recs(a) + Recs(b)
  {
  }

  lemma SameRecs(a: seq<Item>, b: seq<Item>)
    requires multiset(a) == multiset(b)
    ensures multiset(Recs(a)) == multiset(Recs(b))
  {
    var f := (x: Item) => x.rec;
    assert Recs(a) == Map(f, a) && Recs(b) == Map(f, b);
    SameMap(f, a, b);
  }

  function AllRecs(log: seq<Entry>, n: nat): (recs: multiset<seq<byte>>)
    requires n <= |log|
  {
    if n == 0 then multiset{} else AllRecs(log, n - 1) + multiset(log[n - 1].recs)
  }

  lemma {:induction false} ItemRecs(log: seq<Entry>, n: nat)
    requires n <= |log|
    ensures multiset(Recs(ItemsTo(log, n))) == AllRecs(log, n)
  {
    if n > 0 {
      ItemRecs(log, n - 1);
      RecsConcat(ItemsTo(log, n - 1), BlockItems(log, n - 1));
      assert Recs(BlockItems(log, n - 1)) == log[n - 1].recs;
    }
  }

  // The records of all programs.
  function AllPuts(programs: seq<seq<Cmd>>, n: nat): (recs: multiset<seq<byte>>)
    requires n <= |programs|
  {
    if n == 0 then multiset{} else AllPuts(programs, n - 1) + multiset(Puts(programs[n - 1]))
  }

  function OwnTo(log: seq<Entry>, n: nat): (recs: multiset<seq<byte>>) {
    if n == 0 then multiset{} else OwnTo(log, n - 1) + multiset(Own(log, n - 1))
  }

  lemma {:induction false} OwnToStep(log: seq<Entry>, e: Entry, n: nat)
    ensures OwnTo(log + [e], n) == OwnTo(log, n) + if e.owner < n then multiset(e.recs) else multiset{}
  {
    hide Own;
    if n > 0 {
      OwnToStep(log, e, n - 1);
      OwnAppended(log, e.owner, e.recs, n - 1);
    }
  }

  lemma {:induction false} OwnToIsAll(log: seq<Entry>, m: nat, n: nat)
    requires m <= |log| && forall e :: e in log ==> e.owner < n
    ensures OwnTo(log[..m], n) == AllRecs(log, m)
  {
    hide Own, OwnTo;
    if m == 0 {
      assert log[..0] == [];
      OwnToEmpty(n);
    } else {
      OwnToIsAll(log, m - 1, n);
      OwnToStep(log[..m - 1], log[m - 1], n);
      assert log[..m] == log[..m - 1] + [log[m - 1]];
    }
  }

  lemma {:induction false} OwnToEmpty(n: nat)
    ensures OwnTo([], n) == multiset{}
  {
    if n > 0 { OwnToEmpty(n - 1); }
  }

  lemma {:induction false} OwnToIsPuts(log: seq<Entry>, programs: seq<seq<Cmd>>, n: nat)
    requires n <= |programs| && forall t :: 0 <= t < |programs| ==> Own(log, t) == Puts(programs[t])
    ensures OwnTo(log, n) == AllPuts(programs, n)
  {
    hide Own, Puts;
    if n > 0 {
      OwnToIsPuts(log, programs, n - 1);
      assert Own(log, n - 1) == Puts(programs[n - 1]);
    }
  }

  // The records of a finished file are those of the programs.
  lemma FileHasAllPuts(c: Codec, programs: seq<seq<Cmd>>, writing: seq<nat>)
    ensures Sound(c, Start(programs))
    ensures var s := Run(c, Start(programs), writing);
            Finished(s) ==> AllRecs(s.log, |s.log|) == AllPuts(programs, |programs|)
  {
    hide Run, Own, Puts;
    FinalFileIsMerge(c, programs, writing);
    var s := Run(c, Start(programs), writing);
    if Finished(s) {
      OwnToIsAll(s.log, |s.log|, |programs|);
      assert s.log[..|s.log|] == s.log;
      OwnToIsPuts(s.log, programs, |programs|);
    }
  }

  /** Whatever the interleaving of the writers and of the readers, the records delivered
      are, as a multiset, the records written. */
  lemma NothingLostOrRepeated(c: Codec, programs: seq<seq<Cmd>>, writing: seq<nat>, n: nat, reading: seq<nat>)
    requires n > 0
    ensures Sound(c, Start(programs))
    ensures var s := Run(c, Start(programs), writing);
            var r := ReadRun(s.log, Waiting(n), reading);
            Finished(s) && AllEnded(r.readers) ==>
              multiset(Recs(Delivered(r.readers))) == AllPuts(programs, |programs|)
  {
    hide Run, ReadRun, Delivered, ItemsTo, AllRecs, AllPuts;
    FileHasAllPuts(c, programs, writing);
    var s := Run(c, Start(programs), writing);
    var r := ReadRun(s.log, Waiting(n), reading);
    if Finished(s) && AllEnded(r.readers) {
      EverythingDelivered(s.log, n, reading);
      SameRecs(Delivered(r.readers), ItemsTo(s.log, |s.log|));
      ItemRecs(s.log, |s.log|);
    }
  }

  lemma EverythingDelivered(log: seq<Entry>, n: nat, schedule: seq<nat>)
    requires n > 0 && AllEnded(ReadRun(log, Waiting(n), schedule).readers)
    ensures multiset(Delivered(ReadRun(log, Waiting(n), schedule).readers)) == multiset(ItemsTo(log, |log|))
  {
    hide ReadRun, Held, Delivered, ItemsTo;
    NothingHeld(log, n);
    ReadRunKeepsClaims(log, Waiting(n), schedule);
    var s := ReadRun(log, Waiting(n), schedule);
    assert s.readers[0].ended;
    AllDelivered(s.readers);
  }
}
