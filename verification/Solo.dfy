/** One call with no other task at work: it ends, or it sleeps for good, with an exact result. */
module Solo {
  import opened Bytes
  import opened Chunks
  import opened CircularStore
  import opened Tasks

  function ReadRank(pc: ReaderPc): nat {
    match pc
    case ReadSection => 8
    case ReadDone => 7
    case ReadAbort => 6
    case ReadUnblock => 5
    case GiveWrite => 4
    case AwaitRead => 3
    case ReadFinish => 2
    case ClearUnblock => 1
    case ReadReturned => 0
  }

  /**
   The call run alone until it returns or sleeps.  It ends without any partner: bytes only
   get fewer, and the call never gives the semaphore it waits on.
   */
  function RunReader(sh: Shared, t: Reader): (Shared, Reader)
    requires sh.ring.Valid() && t.Coherent()
    decreases t.remaining, if sh.canRead then 1 else 0, ReadRank(t.pc)
  {
    if ReaderEnabled(sh, t) then
      ReaderStepConserves(sh, t);
      ReaderKeepsFlags(sh, t);
      var (sh', t') := ReaderStep(sh, t);
      RunReader(sh', t')
    else
      (sh, t)
  }

  /** The call on its way out with `ret`. */
  function ReadExit(sh: Shared, t: Reader, ret: int): (Shared, Reader) {
    (sh.(canWrite := sh.canWrite || |t.got| > 0, unblock := false), t.(pc := ReadReturned, ret := ret))
  }

  lemma RunReadFinish(sh: Shared, t: Reader)
    requires sh.ring.Valid() && t.Coherent() && t.pc.ReadFinish?
    ensures RunReader(sh, t) == ReadExit(sh, t, t.ret)
  {
    var sh1, t1 := ReaderStep(sh, t).0, t.(pc := ClearUnblock);
    assert RunReader(sh, t) == RunReader(sh1, t1);
    RunReadClear(sh1, t1);
  }

  lemma RunReadClear(sh: Shared, t: Reader)
    requires sh.ring.Valid() && t.Coherent() && t.pc.ClearUnblock?
    ensures RunReader(sh, t) == (sh.(unblock := false), t.(pc := ReadReturned))
  {
    var sh1, t1 := sh.(unblock := false), t.(pc := ReadReturned);
    assert RunReader(sh, t) == RunReader(sh1, t1);
  }

  lemma RunReadFlags(sh: Shared, t: Reader)
    requires sh.ring.Valid() && t.Coherent() && t.pc.ReadDone?
    ensures sh.done ==> RunReader(sh, t) == ReadExit(sh, t, RB_DONE)
    ensures !sh.done && sh.abortRead ==> RunReader(sh, t) == ReadExit(sh, t, RB_ABORT)
    ensures !sh.done && !sh.abortRead && sh.unblock ==> RunReader(sh, t) == ReadExit(sh, t, RB_TIMEOUT)
    ensures !sh.done && !sh.abortRead && !sh.unblock ==> RunReader(sh, t) == RunReader(sh, t.(pc := GiveWrite))
  {
    if sh.done {
      RunReadFinish(sh, t.(pc := ReadFinish, ret := RB_DONE));
    } else {
      var t1 := t.(pc := ReadAbort);
      assert RunReader(sh, t) == RunReader(sh, t1);
      if sh.abortRead {
        RunReadFinish(sh, t.(pc := ReadFinish, ret := RB_ABORT));
      } else {
        var t2 := t.(pc := ReadUnblock);
        assert RunReader(sh, t1) == RunReader(sh, t2);
        if sh.unblock {
          RunReadFinish(sh, t.(pc := ReadFinish, ret := RB_TIMEOUT));
        }
      }
    }
  }

  lemma RunReadWait(sh: Shared, t: Reader)
    requires sh.ring.Valid() && t.Coherent() && t.pc.GiveWrite?
    ensures var sh1 := sh.(canWrite := true);
      RunReader(sh, t) ==
        if sh.canRead then RunReader(sh1.(canRead := false), t.(pc := ReadSection))
        else if t.forever then (sh1, t.(pc := AwaitRead))
        else ReadExit(sh1, t, RB_TIMEOUT)
  {
    var sh1, t1 := sh.(canWrite := true), t.(pc := AwaitRead);
    assert RunReader(sh, t) == RunReader(sh1, t1);
    if !sh.canRead && !t.forever {
      RunReadFinish(sh1, t.(pc := ReadFinish, ret := RB_TIMEOUT));
    }
  }

  /** What a call alone on the ring can read: its demand, or all there is once writing is done, or whole words. */
  function Readable(fill: nat, demand: nat, done: bool): (n: nat)
    ensures n <= fill && n <= demand
  {
    if demand <= fill then demand else if done then fill else fill - fill % 4
  }

  /** The ring lost its first `n` bytes to the caller. */
  ghost predicate ReadMoved(sh: Shared, t: Reader, sh': Shared, t': Reader, n: nat)
    requires sh.ring.Valid() && n <= sh.ring.fill
  {
    && sh'.ring.Valid()
    && sh'.ring.Size() == sh.ring.Size()
    && sh'.ring.Contents() == sh.ring.Contents()[n..]
    && t'.got == t.got + sh.ring.Contents()[..n]
    && n <= t.remaining && t'.remaining == t.remaining - n
  }

  /** How a call that cannot get its whole demand ends; the flags are checked in this order. */
  ghost predicate ReadEnds(sh: Shared, t: Reader, sh': Shared, t': Reader) {
    && sh'.done == sh.done && t'.forever == t.forever
    && if t'.remaining == 0 then t'.pc.ReadReturned? && t'.ret == 0
       else if sh.done then t'.pc.ReadReturned? && t'.ret == RB_DONE
       else if sh.abortRead then t'.pc.ReadReturned? && t'.ret == RB_ABORT
       else if sh.unblock || !t.forever then t'.pc.ReadReturned? && t'.ret == RB_TIMEOUT
       else t'.pc.AwaitRead? && t'.ret == 0 && !sh'.canRead
  }

  lemma MovedTwice(sh0: Shared, t0: Reader, sh1: Shared, t1: Reader, sh2: Shared, t2: Reader, n: nat, m: nat)
    requires sh0.ring.Valid() && n <= sh0.ring.fill && ReadMoved(sh0, t0, sh1, t1, n)
    requires m <= sh1.ring.fill && ReadMoved(sh1, t1, sh2, t2, m)
    ensures n + m <= sh0.ring.fill && ReadMoved(sh0, t0, sh2, t2, n + m)
  {
    var q := sh0.ring.Contents();
    assert q[n..][m..] == q[n + m..];
    assert q[..n] + q[n..][..m] == q[..n + m];
  }

  /** The exact result of a reading call that runs alone, from any point of its loop and whatever the flags. */
  lemma {:induction false} ReadAlone(sh: Shared, t: Reader)
    requires sh.ring.Valid() && t.Coherent() && t.pc.ReadSection?
    ensures var (sh', t') := RunReader(sh, t);
      && ReadMoved(sh, t, sh', t', Readable(sh.ring.fill, t.remaining, sh.done))
      && ReadEnds(sh, t, sh', t')
    decreases t.remaining, if sh.canRead then 1 else 0
  {
    var n := ReadChunk(sh.ring.fill, t.remaining, sh.done);
    if n == 0 {
      RunReadEmpty(sh, t);
      ReadNothing(sh, t.(pc := ReadDone));
      if !sh.done && !sh.abortRead && !sh.unblock && sh.canRead {
        ReadAlone(sh.(canWrite := true, canRead := false), t);
      }
      NothingMoved(sh, t);
    } else {
      var (sh1, t1) := LockedRead(sh, t);
      ReadSome(sh, t, n);
      if n == t.remaining {
        RunReadFinish(sh1, t1);
      } else {
        ReadAlone(sh1, t1);
        var (sh2, t2) := RunReader(sh1, t1);
        MovedTwice(sh, t, sh1, t1, sh2, t2, n, Readable(sh1.ring.fill, t1.remaining, sh.done));
      }
    }
  }

  /** A reading call at the head of its loop, or past it when nothing is left to read. */
  ghost function ReadLoop(remaining: nat, got: seq<byte>, forever: bool): (t: Reader)
    ensures t.Coherent()
  {
    Reader(if remaining == 0 then ReadFinish else ReadSection, remaining, got, forever, 0)
  }

  /** A pass that moves a chunk. */
  lemma RunReadChunk(sh: Shared, sh': Shared, remaining: nat, got: seq<byte>, got': seq<byte>, forever: bool)
    requires sh.ring.Valid() && 0 < remaining && ReadChunk(sh.ring.fill, remaining, sh.done) > 0
    requires var n := ReadChunk(sh.ring.fill, remaining, sh.done);
      sh' == sh.(ring := sh.ring.Taken(n)) && got' == got + sh.ring.Window(n)
    ensures sh'.ring.Valid() && |got'| == |got| + ReadChunk(sh.ring.fill, remaining, sh.done)
    ensures RunReader(sh, ReadLoop(remaining, got, forever)) ==
      RunReader(sh', ReadLoop(remaining - ReadChunk(sh.ring.fill, remaining, sh.done), got', forever))
  {
    var t, n := ReadLoop(remaining, got, forever), ReadChunk(sh.ring.fill, remaining, sh.done);
    var (sh1, t1) := LockedRead(sh, t);
    ReadSome(sh, t, n);
    assert sh1 == sh' && t1 == ReadLoop(remaining - n, got', forever);
  }

  lemma RunReadEmpty(sh: Shared, t: Reader)
    requires sh.ring.Valid() && t.Coherent() && t.pc.ReadSection?
    requires ReadChunk(sh.ring.fill, t.remaining, sh.done) == 0
    ensures RunReader(sh, t) == RunReader(sh, t.(pc := ReadDone))
  {
  }

  lemma NothingMoved(sh: Shared, t: Reader)
    requires sh.ring.Valid()
    ensures sh.ring.Contents()[..0] == [] && sh.ring.Contents()[0..] == sh.ring.Contents()
    ensures t.got + [] == t.got
  {
  }

  lemma ReadSome(sh: Shared, t: Reader, n: nat)
    requires sh.ring.Valid() && t.Coherent() && t.pc.ReadSection?
    requires n == ReadChunk(sh.ring.fill, t.remaining, sh.done) > 0
    ensures var (sh1, t1) := LockedRead(sh, t);
      && ReadMoved(sh, t, sh1, t1, n) && t1.Coherent()
      && sh1 == sh.(ring := sh.ring.Taken(n)) && t1.ret == 0 && t1.forever == t.forever
      && t1.pc == (if n == t.remaining then ReadFinish else ReadSection)
      && RunReader(sh, t) == RunReader(sh1, t1)
  {
    TakenIsPrefix(sh.ring, n);
  }

  lemma ReadNothing(sh: Shared, t: Reader)
    requires sh.ring.Valid() && t.Coherent() && t.pc.ReadDone?
    ensures var (sh', t') := RunReader(sh, t);
      if !sh.done && !sh.abortRead && !sh.unblock && sh.canRead then
        RunReader(sh, t) == RunReader(sh.(canWrite := true, canRead := false), t.(pc := ReadSection))
      else
        && ReadEnds(sh, t, sh', t')
        && sh'.ring == sh.ring && t'.got == t.got && t'.remaining == t.remaining
  {
    RunReadFlags(sh, t);
    if !sh.done && !sh.abortRead && !sh.unblock {
      RunReadWait(sh, t.(pc := GiveWrite));
    }
  }

  /** Everything but the ring after a lone read: tokens given and taken, and `unblock_reader_flag` gone. */
  ghost predicate ReadLeft(sh: Shared, sh': Shared, t': Reader) {
    var waits := t'.remaining > 0 && !sh.done && !sh.abortRead && !sh.unblock;
    sh' == Shared(sh'.ring, sh.canRead && !waits, sh.canWrite || waits || |t'.got| > 0,
                  sh.done, sh.abortRead, sh.abortWrite, false)
  }

  /** A read that finds nothing leaves the semaphores so; if it has to wait it first takes its token, if any. */
  lemma {:induction false} NothingLeft(sh: Shared, t: Reader)
    requires sh.ring.Valid() && t.Coherent() && t.pc.ReadSection?
    requires ReadChunk(sh.ring.fill, t.remaining, sh.done) == 0
    ensures var (sh', t') := RunReader(sh, t);
      ReadLeft(sh, sh', t') && t'.remaining == t.remaining && t'.got == t.got
    decreases sh.canRead
  {
    RunReadEmpty(sh, t);
    RunReadFlags(sh, t.(pc := ReadDone));
    if !sh.done && !sh.abortRead && !sh.unblock {
      RunReadWait(sh, t.(pc := GiveWrite));
      if sh.canRead {
        NothingLeft(sh.(canWrite := true, canRead := false), t);
      }
    }
  }

  /** What a lone read does to flags and semaphores, in every case. */
  lemma {:induction false} ReadLeaves(sh: Shared, t: Reader)
    requires sh.ring.Valid() && t.Coherent() && t.pc.ReadSection?
    ensures var (sh', t') := RunReader(sh, t); ReadLeft(sh, sh', t')
    decreases t.remaining
  {
    var n := ReadChunk(sh.ring.fill, t.remaining, sh.done);
    if n == 0 {
      NothingLeft(sh, t);
    } else {
      var (sh1, t1) := LockedRead(sh, t);
      ReadSome(sh, t, n);
      if n == t.remaining {
        RunReadFinish(sh1, t1);
      } else {
        ReadLeaves(sh1, t1);
      }
    }
  }

  /**
   What `rb_read` returns when no other task is at work.  A positive result is exactly the
   number of bytes moved and a negative one means none moved, except that an abort hides
   the bytes the call had already taken.
   */
  lemma ReadResult(sh: Shared, len: nat, forever: bool)
    requires sh.ring.Valid() && 0 < len
    ensures var (sh', t) := RunReader(sh, BeginRead(len, forever));
      var n := Readable(sh.ring.fill, len, sh.done);
      && t.got == sh.ring.Contents()[..n]
      && sh'.ring.Valid() && sh'.ring.Size() == sh.ring.Size() && sh'.ring.Contents() == sh.ring.Contents()[n..]
      && (t.pc.ReadReturned? <==> n == len || sh.done || sh.abortRead || sh.unblock || !forever)
      && var returned :=
           if n == len then len
           else if sh.done then (if sh.ring.fill == 0 then RB_DONE else sh.ring.fill)
           else if sh.abortRead then RB_ABORT
           else if n == 0 then RB_TIMEOUT
           else n;
      && (t.pc.ReadReturned? ==> t.Result() == returned)
      && (!t.pc.ReadReturned? ==> !ReaderEnabled(sh', t))
  {
    ReadAlone(sh, BeginRead(len, forever));
  }

  /** A negative result hides bytes the call has taken exactly when an abort cuts it short after its first chunk. */
  lemma AbortHidesReadBytes(sh: Shared, len: nat, forever: bool)
    requires sh.ring.Valid() && 0 < len
    ensures var t := RunReader(sh, BeginRead(len, forever)).1;
      t.pc.ReadReturned? && t.Result() < 0 && |t.got| > 0
      <==> !sh.done && sh.abortRead && 0 < Readable(sh.ring.fill, len, false) < len
  {
    ReadResult(sh, len, forever);
  }

  /** Four bytes are queued, five are asked for: the four are gone and the caller is told `RB_ABORT`. */
  lemma FourBytesHidden(store: seq<byte>)
    requires |store| == 4
    ensures var sh := Shared(Ring(store, 0, 4, 4), false, false, false, true, true, false);
      && sh.ring.Valid()
      && var (sh', t) := RunReader(sh, BeginRead(5, true));
      && t.pc.ReadReturned? && t.Result() == RB_ABORT && t.got == store && sh'.ring.fill == 0
  {
    var sh := Shared(Ring(store, 0, 4, 4), false, false, false, true, true, false);
    ReadResult(sh, 5, true);
    forall i | 0 <= i < 4
      ensures sh.ring.Contents()[i] == store[i]
    {
      sh.ring.ContentsAt(i);
    }
  }

  /** Reads of `b` bytes, one after the other, until one brings nothing. */
  ghost function ReadAll(sh: Shared, b: nat): seq<byte>
    requires sh.ring.Valid() && sh.done && 0 < b
    decreases sh.ring.fill
  {
    ReadAlone(sh, BeginRead(b, true));
    var (sh', t) := RunReader(sh, BeginRead(b, true));
    if sh'.ring.fill < sh.ring.fill then t.got + ReadAll(sh', b) else []
  }

  /** After the last write, repeated reads of any size hand out the whole content in order, odd tail included. */
  lemma {:induction false} CompleteDrain(sh: Shared, b: nat)
    requires sh.ring.Valid() && sh.done && 0 < b
    ensures ReadAll(sh, b) == sh.ring.Contents()
    decreases sh.ring.fill
  {
    ReadAlone(sh, BeginRead(b, true));
    var (sh', t) := RunReader(sh, BeginRead(b, true));
    var n, q := Readable(sh.ring.fill, b, true), sh.ring.Contents();
    assert sh'.ring.Contents() == q[n..] && t.got == [] + q[..n] == q[..n];
    assert sh'.ring.fill == |q[n..]| == |q| - n;
    if n > 0 {
      CompleteDrain(sh', b);
      assert q == q[..n] + q[n..];
    }
  }

  // ---------- writing ----------

  function WriteRank(pc: WriterPc): nat {
    match pc
    case WriteSection => 6
    case WriteDone => 5
    case WriteAbort => 4
    case GiveRead => 3
    case AwaitWrite => 2
    case WriteFinish => 1
    case WriteReturned => 0
  }

  function RunWriter(sh: Shared, u: Writer): (Shared, Writer)
    requires sh.ring.Valid() && u.Coherent()
    decreases |u.rest|, if sh.canWrite then 1 else 0, WriteRank(u.pc)
  {
    if WriterEnabled(sh, u) then
      WriterStepConserves(sh, u);
      WriterKeepsFlags(sh, u);
      var (sh', u') := WriterStep(sh, u);
      RunWriter(sh', u')
    else
      (sh, u)
  }

  function WriteExit(sh: Shared, u: Writer, ret: int): (Shared, Writer) {
    (sh.(canRead := sh.canRead || |u.put| > 0), u.(pc := WriteReturned, ret := ret))
  }

  lemma RunWriteFinish(sh: Shared, u: Writer)
    requires sh.ring.Valid() && u.Coherent() && u.pc.WriteFinish?
    ensures RunWriter(sh, u) == WriteExit(sh, u, u.ret)
  {
    var (sh1, u1) := WriterStep(sh, u);
    assert RunWriter(sh, u) == RunWriter(sh1, u1);
  }

  lemma RunWriteFlags(sh: Shared, u: Writer)
    requires sh.ring.Valid() && u.Coherent() && u.pc.WriteDone?
    ensures sh.done ==> RunWriter(sh, u) == WriteExit(sh, u, RB_DONE)
    ensures !sh.done && sh.abortWrite ==> RunWriter(sh, u) == WriteExit(sh, u, RB_ABORT)
    ensures !sh.done && !sh.abortWrite ==> RunWriter(sh, u) == RunWriter(sh, u.(pc := GiveRead))
  {
    if sh.done {
      RunWriteFinish(sh, u.(pc := WriteFinish, ret := RB_DONE));
    } else {
      var u1 := u.(pc := WriteAbort);
      assert RunWriter(sh, u) == RunWriter(sh, u1);
      if sh.abortWrite {
        RunWriteFinish(sh, u.(pc := WriteFinish, ret := RB_ABORT));
      }
    }
  }

  lemma RunWriteWait(sh: Shared, u: Writer)
    requires sh.ring.Valid() && u.Coherent() && u.pc.GiveRead?
    ensures var sh1 := sh.(canRead := true);
      RunWriter(sh, u) ==
        if sh.canWrite then RunWriter(sh1.(canWrite := false), u.(pc := WriteSection))
        else if u.forever then (sh1, u.(pc := AwaitWrite))
        else WriteExit(sh1, u, RB_TIMEOUT)
  {
    var sh1, u1 := sh.(canRead := true), u.(pc := AwaitWrite);
    assert RunWriter(sh, u) == RunWriter(sh1, u1);
    if !sh.canWrite && !u.forever {
      RunWriteFinish(sh1, u.(pc := WriteFinish, ret := RB_TIMEOUT));
    }
  }

  /** The first `n` of the caller's open bytes joined the queue. */
  ghost predicate WriteMoved(sh: Shared, u: Writer, sh': Shared, u': Writer, n: nat)
    requires sh.ring.Valid() && n <= |u.rest|
  {
    && sh'.ring.Valid()
    && sh'.ring.Size() == sh.ring.Size()
    && sh'.ring.Contents() == sh.ring.Contents() + u.rest[..n]
    && u'.put == u.put + u.rest[..n]
    && u'.rest == u.rest[n..]
  }

  ghost predicate WriteEnds(sh: Shared, u: Writer, sh': Shared, u': Writer) {
    && sh'.done == sh.done && u'.forever == u.forever
    && if u'.rest == [] then u'.pc.WriteReturned? && u'.ret == 0
       else if sh.done then u'.pc.WriteReturned? && u'.ret == RB_DONE
       else if sh.abortWrite then u'.pc.WriteReturned? && u'.ret == RB_ABORT
       else if !u.forever then u'.pc.WriteReturned? && u'.ret == RB_TIMEOUT
       else u'.pc.AwaitWrite? && u'.ret == 0 && !sh'.canWrite
  }

  lemma WriteNothing(sh: Shared, u: Writer)
    requires sh.ring.Valid() && u.Coherent() && u.pc.WriteDone?
    ensures var (sh', u') := RunWriter(sh, u);
      if !sh.done && !sh.abortWrite && sh.canWrite then
        RunWriter(sh, u) == RunWriter(sh.(canRead := true, canWrite := false), u.(pc := WriteSection))
      else
        && WriteEnds(sh, u, sh', u')
        && sh'.ring == sh.ring && u'.put == u.put && u'.rest == u.rest
  {
    RunWriteFlags(sh, u);
    if !sh.done && !sh.abortWrite {
      RunWriteWait(sh, u.(pc := GiveRead));
    }
  }

  lemma WriteSome(sh: Shared, u: Writer, n: nat)
    requires sh.ring.Valid() && u.Coherent() && u.pc.WriteSection?
    requires n == WriteChunk(sh.ring.Free(), |u.rest|) > 0
    ensures var (sh1, u1) := LockedWrite(sh, u);
      && WriteMoved(sh, u, sh1, u1, n) && u1.Coherent()
      && sh1 == sh.(ring := sh.ring.Filled(u.rest[..n])) && u1.ret == 0 && u1.forever == u.forever
      && u1.pc == (if n == |u.rest| then WriteFinish else WriteSection)
      && RunWriter(sh, u) == RunWriter(sh1, u1)
  {
    FilledIsAppended(sh.ring, u.rest[..n]);
  }

  ghost function WriteLoop(rest: seq<byte>, put: seq<byte>, forever: bool): (u: Writer)
    ensures u.Coherent()
  {
    Writer(if rest == [] then WriteFinish else WriteSection, rest, put, forever, 0)
  }

  lemma RunWriteChunk(sh: Shared, sh': Shared, rest: seq<byte>, put: seq<byte>, put': seq<byte>, forever: bool)
    requires sh.ring.Valid() && rest != [] && sh.ring.Free() > 0
    requires var n := WriteChunk(sh.ring.Free(), |rest|);
      sh' == sh.(ring := sh.ring.Filled(rest[..n])) && put' == put + rest[..n]
    ensures sh'.ring.Valid()
    ensures RunWriter(sh, WriteLoop(rest, put, forever)) ==
      RunWriter(sh', WriteLoop(rest[WriteChunk(sh.ring.Free(), |rest|)..], put', forever))
  {
    var u := WriteLoop(rest, put, forever);
    WriteSome(sh, u, WriteChunk(sh.ring.Free(), |rest|));
  }

  lemma RunWriteFull(sh: Shared, u: Writer)
    requires sh.ring.Valid() && u.Coherent() && u.pc.WriteSection? && sh.ring.Free() == 0
    ensures RunWriter(sh, u) == RunWriter(sh, u.(pc := WriteDone))
  {
  }

  /** A call that finds no space leaves the queue and its bytes as they were. */
  lemma NothingPlaced(sh: Shared, u: Writer, sh': Shared, u': Writer)
    requires sh.ring.Valid() && sh'.ring == sh.ring && u'.put == u.put && u'.rest == u.rest
    ensures WriteMoved(sh, u, sh', u', 0)
  {
  }

  /** What is placed first is all that is placed if the rest of the call places nothing. */
  lemma PlacedThenNothing(sh0: Shared, u0: Writer, sh1: Shared, u1: Writer, sh2: Shared, u2: Writer, n: nat)
    requires sh0.ring.Valid() && n <= |u0.rest| && WriteMoved(sh0, u0, sh1, u1, n) && WriteMoved(sh1, u1, sh2, u2, 0)
    ensures WriteMoved(sh0, u0, sh2, u2, n)
  {
    assert u1.rest[..0] == [] && u1.rest[0..] == u1.rest;
    assert sh1.ring.Contents() + [] == sh1.ring.Contents() && u1.put + [] == u1.put;
  }

  /** Data that fits is placed whole, and the call is over. */
  lemma PlacedWhole(sh: Shared, u: Writer)
    requires sh.ring.Valid() && u.Coherent() && u.pc.WriteSection? && |u.rest| <= sh.ring.Free()
    ensures var (sh', u') := RunWriter(sh, u);
      WriteMoved(sh, u, sh', u', |u.rest|) && WriteEnds(sh, u, sh', u')
  {
    var (sh1, u1) := LockedWrite(sh, u);
    WriteSome(sh, u, |u.rest|);
    RunWriteFinish(sh1, u1);
  }

  /** On a full ring a call places nothing: it takes its token if there is one, and then leaves or sleeps. */
  lemma {:induction false} WriteToFull(sh: Shared, u: Writer)
    requires sh.ring.Valid() && u.Coherent() && u.pc.WriteSection? && sh.ring.Free() == 0
    ensures var (sh', u') := RunWriter(sh, u);
      WriteMoved(sh, u, sh', u', 0) && WriteEnds(sh, u, sh', u')
    decreases sh.canWrite
  {
    RunWriteFull(sh, u);
    WriteNothing(sh, u.(pc := WriteDone));
    if !sh.done && !sh.abortWrite && sh.canWrite {
      WriteToFull(sh.(canRead := true, canWrite := false), u);
    } else {
      NothingPlaced(sh, u, RunWriter(sh, u).0, RunWriter(sh, u).1);
    }
  }

  /** The exact result of a writing call that runs alone: it places what fits and no more. */
  lemma WriteAlone(sh: Shared, u: Writer)
    requires sh.ring.Valid() && u.Coherent() && u.pc.WriteSection?
    ensures var (sh', u') := RunWriter(sh, u);
      && WriteMoved(sh, u, sh', u', WriteChunk(sh.ring.Free(), |u.rest|))
      && WriteEnds(sh, u, sh', u')
  {
    var n := WriteChunk(sh.ring.Free(), |u.rest|);
    if n == |u.rest| {
      PlacedWhole(sh, u);
    } else if n == 0 {
      WriteToFull(sh, u);
    } else {
      var (sh1, u1) := LockedWrite(sh, u);
      WriteSome(sh, u, n);
      WriteToFull(sh1, u1);
      var (sh2, u2) := RunWriter(sh1, u1);
      PlacedThenNothing(sh, u, sh1, u1, sh2, u2, n);
    }
  }

  /** Everything but the ring after a lone write. */
  ghost predicate WriteLeft(sh: Shared, sh': Shared, u': Writer) {
    var waits := u'.rest != [] && !sh.done && !sh.abortWrite;
    sh' == Shared(sh'.ring, sh.canRead || waits || |u'.put| > 0, sh.canWrite && !waits,
                  sh.done, sh.abortRead, sh.abortWrite, sh.unblock)
  }

  lemma {:induction false} NoSpaceLeft(sh: Shared, u: Writer)
    requires sh.ring.Valid() && u.Coherent() && u.pc.WriteSection? && sh.ring.Free() == 0
    ensures var (sh', u') := RunWriter(sh, u);
      WriteLeft(sh, sh', u') && u'.rest == u.rest && u'.put == u.put
    decreases sh.canWrite
  {
    RunWriteFull(sh, u);
    RunWriteFlags(sh, u.(pc := WriteDone));
    if !sh.done && !sh.abortWrite {
      RunWriteWait(sh, u.(pc := GiveRead));
      if sh.canWrite {
        NoSpaceLeft(sh.(canRead := true, canWrite := false), u);
      }
    }
  }

  /** What a lone write does to flags and semaphores, in every case. */
  lemma WriteLeaves(sh: Shared, u: Writer)
    requires sh.ring.Valid() && u.Coherent() && u.pc.WriteSection?
    ensures var (sh', u') := RunWriter(sh, u); WriteLeft(sh, sh', u')
  {
    var n := WriteChunk(sh.ring.Free(), |u.rest|);
    if n == 0 {
      NoSpaceLeft(sh, u);
    } else {
      var (sh1, u1) := LockedWrite(sh, u);
      WriteSome(sh, u, n);
      if n == |u.rest| { RunWriteFinish(sh1, u1); } else { NoSpaceLeft(sh1, u1); }
    }
  }

  /** What `rb_write` returns when no other task is at work. */
  lemma WriteResult(sh: Shared, data: seq<byte>, forever: bool)
    requires sh.ring.Valid() && data != []
    ensures var (sh', u) := RunWriter(sh, BeginWrite(data, forever));
      var n := WriteChunk(sh.ring.Free(), |data|);
      && u.put == data[..n]
      && sh'.ring.Valid() && sh'.ring.Size() == sh.ring.Size()
      && sh'.ring.Contents() == sh.ring.Contents() + data[..n]
      && (u.pc.WriteReturned? <==> n == |data| || sh.done || sh.abortWrite || !forever)
      && var returned :=
           if n == |data| then n
           else if !sh.done && sh.abortWrite then RB_ABORT
           else if n > 0 then n
           else if sh.done then RB_DONE
           else RB_TIMEOUT;
      && (u.pc.WriteReturned? ==> u.Result() == returned)
      && (!u.pc.WriteReturned? ==> !WriterEnabled(sh', u))
  {
    WriteAlone(sh, BeginWrite(data, forever));
  }

  /** The same for writing: placed bytes are hidden exactly when an abort cuts the call short. */
  lemma AbortHidesWrittenBytes(sh: Shared, data: seq<byte>, forever: bool)
    requires sh.ring.Valid() && data != []
    ensures var u := RunWriter(sh, BeginWrite(data, forever)).1;
      u.pc.WriteReturned? && u.Result() < 0 && |u.put| > 0
      <==> !sh.done && sh.abortWrite && 0 < sh.ring.Free() < |data|
  {
    WriteResult(sh, data, forever);
  }
}
