/** The compressing output buffer of one thread, with the lock macros as they are. */
module Flushing {
  import opened Xdr
  import opened Model
  import opened Framing

  // A pthread mutex that is not recursive.
  class Mutex {
    var held: bool
    ghost var taken: nat

    constructor ()
      ensures !held && taken == 0
    {
      held, taken := false, 0;
    }

    method Lock()
      requires !held
      modifies this
      ensures held && taken == old(taken) + 1
    {
      held, taken := true, taken + 1;
    }

    method Unlock()
      requires held
      modifies this
      ensures !held && taken == old(taken)
    {
      held := false;
    }
  }

  // The streambuf of the file.
  class Sink {
    var data: seq<byte>

    constructor ()
      ensures data == []
    {
      data := [];
    }

    method Sputn(b: seq<byte>)
      modifies this
      ensures data == old(data) + b
    {
      data := data + b;
    }
  }

  class OStreamBuf {
    const sb: Sink
    const codec: Codec
    const limit: nat // how much goes into a block: 32000 bytes for z, level * 100000 for bz
    var mutex: Mutex?
    var blockStart: nat
    var blockOffset: nat
    var fed: seq<byte> // what the compressor has got since it was last initialized

    constructor (sb: Sink, codec: Codec, limit: nat)
      ensures this.sb == sb && this.codec == codec && this.limit == limit
      ensures mutex == null && fed == [] && blockOffset == 0 && blockStart == |sb.data|
    {
      this.sb, this.codec, this.limit := sb, codec, limit;
      mutex, blockStart, blockOffset, fed := null, |sb.data|, 0, [];
    }

    method SetStreambufMutex(m: Mutex?)
      modifies `mutex
      ensures mutex == m
    {
      mutex := m;
    }

    // Does a call of flush complete a block?
    predicate Completes(finish: bool, append: seq<byte>)
      reads this
    {
      (finish || blockOffset + |append| > limit) && fed + append != []
    }

    function Written(finish: bool, append: seq<byte>): (b: seq<byte>)
      reads this
    {
      var out := codec.compress(fed + append);
      if Completes(finish, append) && out != [] then Block(out) else []
    }

    /** flush: whatever was fed goes out as one whole block, behind its length, or stays
        in the compressor; the lock is taken once for a block and given back. */
    method Flush(finish: bool, append: seq<byte>) returns (written: nat)
      requires mutex != null ==> !mutex.held
      modifies this, sb, mutex
      ensures written == |append|
      ensures sb.data == old(sb.data) + old(Written(finish, append))
      ensures fed == if old(Completes(finish, append)) then [] else old(fed) + append
      ensures old(Written(finish, append)) != [] ==> blockOffset == 0 && blockStart == |sb.data|
      ensures old(Written(finish, append)) == [] ==>
                blockOffset == old(blockOffset) + |append| && blockStart == old(blockStart)
      ensures mutex == old(mutex)
      ensures mutex != null ==>
                && !mutex.held
                && mutex.taken == old(mutex.taken) + if old(Written(finish, append)) == [] then 0 else 1
    {
      var f := finish;
      written := |append|;
      blockOffset := blockOffset + written;
      if blockOffset > limit { f := true; }
      if |append| + |fed| == 0 { return 0; }
      fed := fed + append;
      if f {
        var out := codec.compress(fed);
        if |out| > 0 {
          if mutex != null { mutex.Lock(); }
          var saved := mutex;
          mutex := null;
          sb.Sputn(U32(|out|));
          sb.Sputn(out);
          assert old(sb.data) + U32(|out|) + out == old(sb.data) + Block(out);
          blockStart := |sb.data|;
          blockOffset := 0;
          mutex := saved;
          if mutex != null { mutex.Unlock(); }
        }
        fed := [];
      }
    }

    method Xsputn(buffer: seq<byte>) returns (written: nat)
      requires mutex != null ==> !mutex.held
      modifies this, sb, mutex
      ensures written == |buffer| && mutex == old(mutex)
      ensures sb.data == old(sb.data) + old(Written(false, buffer))
      ensures fed == if old(Completes(false, buffer)) then [] else old(fed) + buffer
      ensures blockOffset == if old(Written(false, buffer)) != [] then 0 else old(blockOffset) + |buffer|
      ensures mutex != null ==>
                && !mutex.held
                && mutex.taken == old(mutex.taken) + if old(Written(false, buffer)) == [] then 0 else 1
    {
      written := Flush(false, buffer);
    }

    /** sync: the lock of sync and the lock of flush inside it take the mutex once. */
    method Sync()
      requires mutex != null ==> !mutex.held
      modifies this, sb, mutex
      ensures fed == [] && sb.data == old(sb.data) + old(Written(true, []))
      ensures blockOffset == if old(Written(true, [])) != [] then 0 else old(blockOffset)
      ensures mutex == old(mutex)
      ensures mutex != null ==> !mutex.held && mutex.taken == old(mutex.taken) + 1
    {
      if mutex != null { mutex.Lock(); }
      var saved := mutex;
      mutex := null;
      var _ := Flush(true, []);
      mutex := saved;
      if mutex != null { mutex.Unlock(); }
    }
  }
}
