/**
 One call of `rb_read` or `rb_write`, as the steps that other tasks can see.

 The section under the lock is one step.  Each flag check, each give and each take of
 a binary semaphore is a step of its own, outside the lock.
 */
module Tasks {
  import opened Bytes
  import opened Chunks
  import opened CircularStore

  const RB_FAIL: int := -1
  const RB_DONE: int := -2
  const RB_ABORT: int := -3
  const RB_TIMEOUT: int := -4

  /** What every task sharing the handle can touch. A semaphore is its token. */
  datatype Shared = Shared(
    ring: Ring,
    canRead: bool,
    canWrite: bool,
    done: bool,
    abortRead: bool,
    abortWrite: bool,
    unblock: bool)

  datatype ReaderPc =
    | ReadSection    // about to take the lock
    | ReadDone       // found nothing to read, about to check is_done_write
    | ReadAbort      // about to check abort_read
    | ReadUnblock    // about to check unblock_reader_flag
    | GiveWrite      // about to give can_write
    | AwaitRead      // taking can_read
    | ReadFinish     // at read_err
    | ClearUnblock   // about to clear unblock_reader_flag
    | ReadReturned   // no call in progress

  /** A reading call: the demand still open, the bytes copied to the caller so far, `ret_val`. */
  datatype Reader = Reader(pc: ReaderPc, remaining: nat, got: seq<byte>, forever: bool, ret: int) {

    ghost predicate Coherent() {
      if pc.ReadFinish? || pc.ClearUnblock? || pc.ReadReturned? then
        && ret in {0, RB_DONE, RB_ABORT, RB_TIMEOUT}
        && (ret == 0 <==> remaining == 0)
      else
        ret == 0 && 0 < remaining
    }

    /** The value handed back once the call has returned. */
    function Result(): int {
      var total := if ret == RB_FAIL || ret == RB_ABORT then ret else |got|;
      if total > 0 then total else ret
    }

    /** Has seen too few bytes and is on its way to sleep, or asleep. */
    predicate Committed() {
      pc.ReadDone? || pc.ReadAbort? || pc.ReadUnblock? || pc.GiveWrite? || pc.AwaitRead?
    }
  }

  function BeginRead(len: nat, forever: bool): (t: Reader)
    ensures t.Coherent()
  {
    Reader(if len == 0 then ReadFinish else ReadSection, len, [], forever, 0)
  }

  predicate ReaderEnabled(sh: Shared, t: Reader) {
    match t.pc
    case ReadReturned => false
    case AwaitRead => sh.canRead || !t.forever
    case _ => true
  }

  /** The section under the lock: move one chunk, or decide there is nothing to read. */
  function LockedRead(sh: Shared, t: Reader): (Shared, Reader)
    requires sh.ring.Valid() && t.pc.ReadSection?
  {
    var n := ReadChunk(sh.ring.fill, t.remaining, sh.done);
    if n == 0 then
      (sh, t.(pc := ReadDone))
    else
      (sh.(ring := sh.ring.Taken(n)),
       t.(pc := if n == t.remaining then ReadFinish else ReadSection,
          remaining := t.remaining - n,
          got := t.got + sh.ring.Window(n)))
  }

  /** The step a reading call takes next. A finite wait without a token times out. */
  function ReaderStep(sh: Shared, t: Reader): (Shared, Reader)
    requires sh.ring.Valid() && t.Coherent() && ReaderEnabled(sh, t)
  {
    match t.pc
    case ReadSection =>
      LockedRead(sh, t)
    case ReadDone =>
      (sh, if sh.done then t.(pc := ReadFinish, ret := RB_DONE) else t.(pc := ReadAbort))
    case ReadAbort =>
      (sh, if sh.abortRead then t.(pc := ReadFinish, ret := RB_ABORT) else t.(pc := ReadUnblock))
    case ReadUnblock =>
      (sh, if sh.unblock then t.(pc := ReadFinish, ret := RB_TIMEOUT) else t.(pc := GiveWrite))
    case GiveWrite =>
      (sh.(canWrite := true), t.(pc := AwaitRead))
    case AwaitRead =>
      if sh.canRead then
        (sh.(canRead := false), t.(pc := ReadSection))
      else
        (sh, t.(pc := ReadFinish, ret := RB_TIMEOUT))
    case ReadFinish =>
      (if |t.got| > 0 then sh.(canWrite := true) else sh, t.(pc := ClearUnblock))
    case ClearUnblock =>
      (sh.(unblock := false), t.(pc := ReadReturned))
  }

  datatype WriterPc =
    | WriteSection   // about to take the lock
    | WriteDone      // found no space, about to check is_done_write
    | WriteAbort     // about to check abort_write
    | GiveRead       // about to give can_read
    | AwaitWrite     // taking can_write
    | WriteFinish    // at write_err
    | WriteReturned  // no call in progress

  /** A writing call: the bytes still to place, the bytes placed so far, `ret_val`. */
  datatype Writer = Writer(pc: WriterPc, rest: seq<byte>, put: seq<byte>, forever: bool, ret: int) {

    ghost predicate Coherent() {
      if pc.WriteFinish? || pc.WriteReturned? then
        && ret in {0, RB_DONE, RB_ABORT, RB_TIMEOUT}
        && (ret == 0 <==> rest == [])
      else
        ret == 0 && rest != []
    }

    function Result(): int {
      var total := if ret == RB_FAIL || ret == RB_ABORT then ret else |put|;
      if total > 0 then total else ret
    }

    predicate Committed() {
      pc.WriteDone? || pc.WriteAbort? || pc.GiveRead? || pc.AwaitWrite?
    }
  }

  function BeginWrite(data: seq<byte>, forever: bool): (t: Writer)
    ensures t.Coherent()
  {
    Writer(if data == [] then WriteFinish else WriteSection, data, [], forever, 0)
  }

  predicate WriterEnabled(sh: Shared, t: Writer) {
    match t.pc
    case WriteReturned => false
    case AwaitWrite => sh.canWrite || !t.forever
    case _ => true
  }

  /** The section under the lock: place one chunk, or decide there is no space. */
  function LockedWrite(sh: Shared, t: Writer): (Shared, Writer)
    requires sh.ring.Valid() && t.pc.WriteSection?
  {
    var n := WriteChunk(sh.ring.Free(), |t.rest|);
    if n == 0 then
      (sh, t.(pc := WriteDone))
    else
      (sh.(ring := sh.ring.Filled(t.rest[..n])),
       t.(pc := if n == |t.rest| then WriteFinish else WriteSection,
          rest := t.rest[n..],
          put := t.put + t.rest[..n]))
  }

  function WriterStep(sh: Shared, t: Writer): (Shared, Writer)
    requires sh.ring.Valid() && t.Coherent() && WriterEnabled(sh, t)
  {
    match t.pc
    case WriteSection =>
      LockedWrite(sh, t)
    case WriteDone =>
      (sh, if sh.done then t.(pc := WriteFinish, ret := RB_DONE) else t.(pc := WriteAbort))
    case WriteAbort =>
      (sh, if sh.abortWrite then t.(pc := WriteFinish, ret := RB_ABORT) else t.(pc := GiveRead))
    case GiveRead =>
      (sh.(canRead := true), t.(pc := AwaitWrite))
    case AwaitWrite =>
      if sh.canWrite then
        (sh.(canWrite := false), t.(pc := WriteSection))
      else
        (sh, t.(pc := WriteFinish, ret := RB_TIMEOUT))
    case WriteFinish =>
      (if |t.put| > 0 then sh.(canRead := true) else sh, t.(pc := WriteReturned))
  }

  /** What a reading step keeps: the bytes gained, then the bytes queued, are the bytes queued before. */
  ghost predicate ReadConserves(sh: Shared, t: Reader, sh': Shared, t': Reader)
    requires sh.ring.Valid()
  {
    && sh'.ring.Valid()
    && sh'.ring.Size() == sh.ring.Size()
    && t'.Coherent()
    && t.got <= t'.got
    && |t'.got| + t'.remaining == |t.got| + t.remaining
    && t'.got[|t.got|..] + sh'.ring.Contents() == sh.ring.Contents()
  }

  lemma LockedReadConserves(sh: Shared, t: Reader)
    requires sh.ring.Valid() && t.Coherent() && t.pc.ReadSection?
    ensures var (sh', t') := LockedRead(sh, t); ReadConserves(sh, t, sh', t')
  {
    var n := ReadChunk(sh.ring.fill, t.remaining, sh.done);
    var q := sh.ring.Contents();
    if n == 0 {
      assert t.got[|t.got|..] + q == q;
    } else {
      TakenIsPrefix(sh.ring, n);
      assert (t.got + q[..n])[|t.got|..] == q[..n];
      assert q[..n] + q[n..] == q;
    }
  }

  lemma ReaderStepConserves(sh: Shared, t: Reader)
    requires sh.ring.Valid() && t.Coherent() && ReaderEnabled(sh, t)
    ensures var (sh', t') := ReaderStep(sh, t); ReadConserves(sh, t, sh', t')
  {
    if t.pc.ReadSection? {
      LockedReadConserves(sh, t);
    } else {
      assert t.got[|t.got|..] == [];
    }
  }

  /** What a writing step keeps: bytes leave the caller in order and join the end of the queue. */
  ghost predicate WriteConserves(sh: Shared, t: Writer, sh': Shared, t': Writer)
    requires sh.ring.Valid()
  {
    && sh'.ring.Valid()
    && sh'.ring.Size() == sh.ring.Size()
    && t'.Coherent()
    && t.put <= t'.put
    && t'.put + t'.rest == t.put + t.rest
    && sh'.ring.Contents() == sh.ring.Contents() + t'.put[|t.put|..]
  }

  lemma LockedWriteConserves(sh: Shared, t: Writer)
    requires sh.ring.Valid() && t.Coherent() && t.pc.WriteSection?
    ensures var (sh', t') := LockedWrite(sh, t); WriteConserves(sh, t, sh', t')
  {
    var n := WriteChunk(sh.ring.Free(), |t.rest|);
    var q := sh.ring.Contents();
    if n == 0 {
      assert q + t.put[|t.put|..] == q;
    } else {
      FilledIsAppended(sh.ring, t.rest[..n]);
      assert (t.put + t.rest[..n])[|t.put|..] == t.rest[..n];
      assert t.put + t.rest[..n] + t.rest[n..] == t.put + t.rest;
    }
  }

  lemma WriterStepConserves(sh: Shared, t: Writer)
    requires sh.ring.Valid() && t.Coherent() && WriterEnabled(sh, t)
    ensures var (sh', t') := WriterStep(sh, t); WriteConserves(sh, t, sh', t')
  {
    if t.pc.WriteSection? {
      LockedWriteConserves(sh, t);
    } else {
      assert t.put[|t.put|..] == [];
    }
  }

  /** A reading call sets no flag and gives no token to itself; it only clears `unblock_reader_flag`. */
  lemma ReaderKeepsFlags(sh: Shared, t: Reader)
    requires sh.ring.Valid() && t.Coherent() && ReaderEnabled(sh, t)
    ensures var sh' := ReaderStep(sh, t).0;
      && sh'.done == sh.done && sh'.abortRead == sh.abortRead && sh'.abortWrite == sh.abortWrite
      && (sh'.canRead ==> sh.canRead) && (sh'.unblock ==> sh.unblock)
  {
  }

  /** A writing call sets no flag and gives no token to itself. */
  lemma WriterKeepsFlags(sh: Shared, u: Writer)
    requires sh.ring.Valid() && u.Coherent() && WriterEnabled(sh, u)
    ensures var sh' := WriterStep(sh, u).0;
      && sh'.done == sh.done && sh'.abortRead == sh.abortRead && sh'.abortWrite == sh.abortWrite
      && (sh'.canWrite ==> sh.canWrite) && sh'.unblock == sh.unblock
  {
  }
}
