/** The ring buffer as the program has it: an array, two offsets, a counter and flags, updated in place. */
module RingBuffers {
  import opened Bytes
  import opened Chunks
  import opened CircularStore
  import opened Tasks
  import opened TaskSystem
  import opened Solo

  /** How a call made with no other task at work ends: with a value, or asleep without limit. */
  datatype Outcome = Returned(value: int) | Asleep

  function ReadOutcome(t: Reader): Outcome {
    if t.pc.ReadReturned? then Returned(t.Result()) else Asleep
  }

  function WriteOutcome(u: Writer): Outcome {
    if u.pc.WriteReturned? then Returned(u.Result()) else Asleep
  }

  /** What a call that could move nothing does next. */
  datatype Verdict = Again | Sleep | Leave(ret: int)

  /** How a call alone on the ring goes on from its loop, once a pass has given its verdict. */
  ghost function ReadOn(v: Verdict, sh: Shared, t: Reader): (Shared, Reader)
    requires sh.ring.Valid() && t.Coherent()
  {
    match v
    case Again => RunReader(sh, t)
    case Sleep => (sh, t.(pc := AwaitRead))
    case Leave(ret) => ReadExit(sh, t, ret)
  }

  ghost function WriteOn(v: Verdict, sh: Shared, u: Writer): (Shared, Writer)
    requires sh.ring.Valid() && u.Coherent()
  {
    match v
    case Again => RunWriter(sh, u)
    case Sleep => (sh, u.(pc := AwaitWrite))
    case Leave(ret) => WriteExit(sh, u, ret)
  }

  /** `memcpy` between two blocks that do not overlap. */
  method Copy(src: array<byte>, from: nat, dst: array<byte>, to: nat, n: nat)
    requires src != dst && from + n <= src.Length && to + n <= dst.Length
    modifies dst
    ensures forall i :: to <= i < to + n ==> dst[i] == src[from + (i - to)]
    ensures forall i :: 0 <= i < dst.Length && !(to <= i < to + n) ==> dst[i] == old(dst[i])
  {
    forall i | 0 <= i < n {
      dst[to + i] := src[from + i];
    }
  }

  /** The copies of a read, in one piece or two, and the next read offset. */
  method CopyOut(store: array<byte>, from: nat, buf: array<byte>, at: nat, n: nat) returns (next: nat)
    requires buf != store && from <= store.Length && n <= store.Length && at + n <= buf.Length
    modifies buf
    ensures next == Advance(from, n, store.Length)
    ensures forall i :: at <= i < at + n ==> buf[i] == store[Slot(from + (i - at), store.Length)]
    ensures forall i :: 0 <= i < buf.Length && !(at <= i < at + n) ==> buf[i] == old(buf[i])
  {
    if from + n > store.Length {
      var n1 := store.Length - from;
      var n2 := n - n1;
      Copy(store, from, buf, at, n1);
      Copy(store, 0, buf, at + n1, n2);
      next := n2;
    } else {
      Copy(store, from, buf, at, n);
      next := from + n;
    }
  }

  /** The copies of a write, in one piece or two, and the next write offset. */
  method CopyIn(buf: array<byte>, at: nat, n: nat, store: array<byte>, to: nat) returns (next: nat)
    requires buf != store && to <= store.Length && n <= store.Length && at + n <= buf.Length
    modifies store
    ensures next == Advance(to, n, store.Length)
    ensures forall j :: 0 <= j < store.Length ==>
      store[j] == PastedByte(old(store[..]), to, buf[..][at..at + n], j)
    ensures forall j :: 0 <= j < store.Length ==>
      store[j] == if to <= j < to + n then buf[at + (j - to)]
                  else if j + store.Length < to + n then buf[at + (j + store.Length - to)]
                  else old(store[j])
  {
    if to + n > store.Length {
      var n1 := store.Length - to;
      var n2 := n - n1;
      Copy(buf, at, store, to, n1);
      Copy(buf, at + n1, store, 0, n2);
      next := n2;
    } else {
      Copy(buf, at, store, to, n);
      next := to + n;
    }
  }

  /** The caller's block holds what was read so far, and is untouched behind it. */
  ghost predicate Received(buf: array<byte>, got: seq<byte>, before: seq<byte>)
    reads buf
  {
    && |got| <= buf.Length == |before|
    && (forall i :: 0 <= i < |got| ==> buf[i] == got[i])
    && (forall i :: |got| <= i < buf.Length ==> buf[i] == before[i])
  }

  lemma ReceivedWhole(buf: array<byte>, got: seq<byte>, before: seq<byte>)
    requires Received(buf, got, before)
    ensures buf[..] == got + before[|got|..]
  {
  }

  /** A lone read, with every number written out: the bytes it hands out and the bytes it leaves. */
  lemma ReadMoves(sh: Shared, len: nat, forever: bool)
    requires sh.ring.Valid()
    ensures var (sh', t) := RunReader(sh, BeginRead(len, forever));
      var fill := sh.ring.fill;
      var n := if len <= fill then len else if sh.done then fill else fill - fill % 4;
      && sh'.ring.Valid() && sh'.ring.Size() == sh.ring.Size()
      && t.got == sh.ring.Contents()[..n] && |t.got| == n
      && sh'.ring.Contents() == sh.ring.Contents()[n..]
  {
    if len == 0 {
      RunReadFinish(sh, BeginRead(0, forever));
    } else {
      ReadResult(sh, len, forever);
    }
  }

  /** What it returns. */
  lemma ReadReturns(sh: Shared, len: nat, forever: bool)
    requires sh.ring.Valid()
    ensures var fill, words := sh.ring.fill, sh.ring.fill - sh.ring.fill % 4;
      ReadOutcome(RunReader(sh, BeginRead(len, forever)).1) ==
        if len <= fill then Returned(len)
        else if sh.done then Returned(if fill > 0 then fill else -2)
        else if sh.abortRead then Returned(-3)
        else if sh.unblock || !forever then Returned(if words > 0 then words else -4)
        else Asleep
  {
    if len == 0 {
      RunReadFinish(sh, BeginRead(0, forever));
    } else {
      ReadResult(sh, len, forever);
    }
  }

  /** What it does to flags and semaphores. */
  lemma ReadSignals(sh: Shared, len: nat, forever: bool)
    requires sh.ring.Valid()
    ensures var sh' := RunReader(sh, BeginRead(len, forever)).0;
      var waits := sh.ring.fill < len && !sh.done && !sh.abortRead && !sh.unblock;
      && sh'.canRead == (sh.canRead && !waits)
      && sh'.canWrite == (sh.canWrite || waits || sh'.ring.fill < sh.ring.fill)
      && sh'.done == sh.done && sh'.abortRead == sh.abortRead && sh'.abortWrite == sh.abortWrite && !sh'.unblock
  {
    if len == 0 {
      RunReadFinish(sh, BeginRead(0, forever));
    } else {
      ReadAlone(sh, BeginRead(len, forever));
      ReadLeaves(sh, BeginRead(len, forever));
      var sh' := RunReader(sh, BeginRead(len, forever)).0;
      assert sh'.ring.fill == |sh'.ring.Contents()| && sh.ring.fill == |sh.ring.Contents()|;
    }
  }

  /** The same for a lone write: the bytes it places. */
  lemma WriteMoves(sh: Shared, data: seq<byte>, forever: bool)
    requires sh.ring.Valid()
    ensures var (sh', u) := RunWriter(sh, BeginWrite(data, forever));
      var free := |sh.ring.store| - sh.ring.fill;
      var n := if |data| <= free then |data| else free;
      && sh'.ring.Valid() && sh'.ring.Size() == sh.ring.Size()
      && u.put == data[..n]
      && sh'.ring.Contents() == sh.ring.Contents() + data[..n]
  {
    if data == [] {
      RunWriteFinish(sh, BeginWrite([], forever));
    } else {
      WriteResult(sh, data, forever);
    }
  }

  lemma WriteReturns(sh: Shared, data: seq<byte>, forever: bool)
    requires sh.ring.Valid()
    ensures var free := |sh.ring.store| - sh.ring.fill;
      WriteOutcome(RunWriter(sh, BeginWrite(data, forever)).1) ==
        if |data| <= free then Returned(|data|)
        else if sh.done then Returned(if free > 0 then free else -2)
        else if sh.abortWrite then Returned(-3)
        else if forever then Asleep
        else Returned(if free > 0 then free else -4)
  {
    if data == [] {
      RunWriteFinish(sh, BeginWrite([], forever));
    } else {
      WriteResult(sh, data, forever);
    }
  }

  lemma WriteSignals(sh: Shared, data: seq<byte>, forever: bool)
    requires sh.ring.Valid()
    ensures var sh' := RunWriter(sh, BeginWrite(data, forever)).0;
      var waits := |sh.ring.store| - sh.ring.fill < |data| && !sh.done && !sh.abortWrite;
      && sh'.canRead == (sh.canRead || waits || sh'.ring.fill > sh.ring.fill)
      && sh'.canWrite == (sh.canWrite && !waits)
      && sh'.done == sh.done && sh'.abortRead == sh.abortRead && sh'.abortWrite == sh.abortWrite
      && sh'.unblock == sh.unblock
  {
    if data == [] {
      RunWriteFinish(sh, BeginWrite([], forever));
    } else {
      WriteAlone(sh, BeginWrite(data, forever));
      WriteLeaves(sh, BeginWrite(data, forever));
      var sh' := RunWriter(sh, BeginWrite(data, forever)).0;
      assert sh'.ring.fill == |sh'.ring.Contents()| && sh.ring.fill == |sh.ring.Contents()|;
    }
  }

  class RingBuffer {
    const data: array<byte>
    var pR: nat
    var pW: nat
    var fillCnt: nat
    var canRead: bool
    var canWrite: bool
    var doneWrite: bool
    var abortRead: bool
    var abortWrite: bool
    var unblockReader: bool

    ghost function AsShared(): Shared
      reads this, data
    {
      Shared(Ring(data[..], pR, pW, fillCnt), canRead, canWrite, doneWrite, abortRead, abortWrite, unblockReader)
    }

    ghost predicate Valid()
      reads this, data
    {
      AsShared().ring.Valid()
    }

    ghost function Contents(): seq<byte>
      reads this, data
      requires Valid()
    {
      AsShared().ring.Contents()
    }

    constructor (size: nat)
      ensures fresh(data) && data.Length == size
      ensures Valid() && AsShared() == Created(data[..])
      ensures forall i :: 0 <= i < size ==> data[i] == 0
      ensures pR == 0 && pW == 0 && fillCnt == 0 && !canRead && !canWrite
      ensures !doneWrite && !unblockReader && !abortRead && !abortWrite
    {
      data := new byte[size](_ => 0);
      pR, pW, fillCnt := 0, 0, 0;
      canRead, canWrite := false, false;
      doneWrite, unblockReader, abortRead, abortWrite := false, false, false, false;
    }

    /** `rb_create`: no ring for blocks of fewer than two bytes, nor unless memory and semaphores are granted. */
    static method Create(blockSize: int, nBlocks: nat, granted: bool) returns (rb: RingBuffer?)
      ensures rb == null <==> blockSize < 2 || !granted
      ensures rb != null ==>
        && fresh(rb) && fresh(rb.data) && rb.Valid()
        && rb.data.Length == blockSize * nBlocks
        && rb.AsShared() == Created(rb.data[..])
        && (forall i :: 0 <= i < rb.data.Length ==> rb.data[i] == 0)
        && rb.pR == 0 && rb.pW == 0 && rb.fillCnt == 0 && !rb.canRead && !rb.canWrite
        && !rb.doneWrite && !rb.unblockReader && !rb.abortRead && !rb.abortWrite
    {
      if blockSize < 2 {
        return null;
      }
      if !granted {
        return null;
      }
      var size: nat := blockSize * nBlocks;
      rb := new RingBuffer(size);
    }

    /** `rb_reset`, allowed only while no call is in progress. */
    method Reset()
      modifies this
      ensures Valid() && Contents() == []
      ensures AsShared() ==
        Shared(Ring(old(data[..]), 0, 0, 0), old(canRead), old(canWrite), false, false, false, false)
      ensures AsShared() == ResetShared(old(AsShared()))
    {
      pR, pW := 0, 0;
      fillCnt := 0;
      doneWrite := false;
      unblockReader := false;
      abortRead := false;
      abortWrite := false;
    }

    method BytesAvailable() returns (n: nat)
      requires Valid()
      ensures n + fillCnt == data.Length
    {
      n := data.Length - fillCnt;
    }

    method ChooseChunk(remaining: nat) returns (n: nat)
      ensures n == ReadChunk(fillCnt, remaining, doneWrite)
    {
      if fillCnt < remaining {
        n := fillCnt - fillCnt % 4;
        if n == 0 && doneWrite {
          n := fillCnt;
        }
      } else {
        n := remaining;
      }
    }

    /** Copy a chunk out of the ring. */
    method CopyChunk(buf: array<byte>, at: nat, n: nat, ghost got: seq<byte>, ghost before: seq<byte>)
      returns (next: nat)
      requires Valid() && buf != data && at + n <= buf.Length && n <= fillCnt
      requires |got| == at && Received(buf, got, before)
      modifies buf
      ensures next == Advance(pR, n, data.Length)
      ensures Received(buf, got + AsShared().ring.Window(n), before)
    {
      ghost var window := AsShared().ring.Window(n);
      forall i | 0 <= i < n
        ensures window[i] == data[Slot(pR + i, data.Length)]
      {
        CutAt(data[..], pR, n, i);
      }
      next := CopyOut(data, pR, buf, at, n);
      forall i | 0 <= i < at + n
        ensures buf[i] == (got + window)[i]
      {
        if at <= i {
          assert (got + window)[i] == window[i - at];
        }
      }
    }

    /** Move on past a chunk that has been copied out. */
    method LeaveChunk(next: nat, n: nat, remaining: nat, forever: bool, ghost got: seq<byte>, ghost got': seq<byte>)
      requires Valid() && 0 < n == ReadChunk(fillCnt, remaining, doneWrite)
      requires next == Advance(pR, n, data.Length) && got' == got + AsShared().ring.Window(n)
      modifies this`pR, this`fillCnt
      ensures Valid() && |got'| == |got| + n
      ensures AsShared() == old(AsShared()).(ring := old(AsShared()).ring.Taken(n))
      ensures RunReader(old(AsShared()), ReadLoop(remaining, got, forever))
        == RunReader(AsShared(), ReadLoop(remaining - n, got', forever))
    {
      ghost var sh := AsShared();
      pR := next;
      fillCnt := fillCnt - n;
      RunReadChunk(sh, AsShared(), remaining, got, got', forever);
    }

    /** A read that found nothing: the flag checks in their order, the give, the wait. */
    method AwaitData(forever: bool, ghost t: Reader) returns (v: Verdict)
      requires Valid() && t.Coherent() && t.pc.ReadSection? && t.forever == forever
      modifies this`canRead, this`canWrite
      ensures v.Again? ==> old(canRead) && !canRead
      ensures v.Leave? ==> v.ret < 0
      ensures RunReader(old(AsShared()), t.(pc := ReadDone)) == ReadOn(v, AsShared(), t)
    {
      RunReadFlags(AsShared(), t.(pc := ReadDone));
      if doneWrite {
        return Leave(RB_DONE);
      }
      if abortRead {
        return Leave(RB_ABORT);
      }
      if unblockReader {
        return Leave(RB_TIMEOUT);
      }
      RunReadWait(AsShared(), t.(pc := GiveWrite));
      canWrite := true;
      if canRead {
        canRead := false;
        return Again;
      }
      v := if forever then Sleep else Leave(RB_TIMEOUT);
    }

    /** One pass through the loop of `rb_read`: move a chunk, or leave, or wait and go round again. */
    method ReadPass(buf: array<byte>, at: nat, remaining: nat, forever: bool,
                    ghost got: seq<byte>, ghost before: seq<byte>, ghost goal: (Shared, Reader))
      returns (n: nat, v: Verdict, ghost got': seq<byte>)
      requires Valid() && buf != data && 0 < remaining
      requires goal == RunReader(AsShared(), ReadLoop(remaining, got, forever))
      requires |got| == at && at + remaining <= |before| && Received(buf, got, before)
      modifies this`pR, this`fillCnt, this`canRead, this`canWrite, buf
      ensures Valid() && n <= remaining && |got'| == at + n && Received(buf, got', before)
      ensures v.Again? ==> 0 < n || (old(canRead) && !canRead)
      ensures v.Leave? ==> v.ret < 0
      ensures goal == ReadOn(v, AsShared(), ReadLoop(remaining - n, got', forever))
    {
      n := ChooseChunk(remaining);
      if n == 0 {
        RunReadEmpty(AsShared(), ReadLoop(remaining, got, forever));
        v := AwaitData(forever, ReadLoop(remaining, got, forever));
        got' := got;
      } else {
        got' := got + AsShared().ring.Window(n);
        var next := CopyChunk(buf, at, n, got, before);
        LeaveChunk(next, n, remaining, forever, got, got');
        v := Again;
      }
    }

    /** The same pass, counted by the bytes read in all. */
    method ReadMore(buf: array<byte>, at: nat, len: nat, forever: bool,
                    ghost got: seq<byte>, ghost before: seq<byte>, ghost goal: (Shared, Reader))
      returns (total: nat, v: Verdict, ghost got': seq<byte>)
      requires Valid() && buf != data && at < len <= |before|
      requires goal == RunReader(AsShared(), ReadLoop(len - at, got, forever))
      requires |got| == at && Received(buf, got, before)
      modifies this`pR, this`fillCnt, this`canRead, this`canWrite, buf
      ensures Valid() && at <= |got'| == total <= len && Received(buf, got', before)
      ensures v.Again? ==> at < total || (old(canRead) && !canRead)
      ensures v.Leave? ==> v.ret < 0
      ensures goal == ReadOn(v, AsShared(), ReadLoop(len - total, got', forever))
    {
      var n;
      n, v, got' := ReadPass(buf, at, len - at, forever, got, before, goal);
      total := at + n;
    }

    /** The loop of `rb_read`, until the demand is met or a pass says otherwise. */
    method ReadPasses(buf: array<byte>, len: nat, forever: bool) returns (total: nat, v: Verdict, ghost got: seq<byte>)
      requires Valid() && buf != data && len <= buf.Length
      modifies this`pR, this`fillCnt, this`canRead, this`canWrite, buf
      ensures Valid() && |got| == total <= len && Received(buf, got, old(buf[..]))
      ensures RunReader(old(AsShared()), BeginRead(len, forever))
        == ReadOn(v, AsShared(), ReadLoop(len - total, got, forever))
      ensures v.Again? ==> total == len
      ensures v.Leave? ==> v.ret < 0
    {
      ghost var goal, before := RunReader(AsShared(), BeginRead(len, forever)), buf[..];
      total, v, got := 0, Again, [];
      while v.Again? && total < len
        invariant Valid() && |got| == total <= len && Received(buf, got, before)
        invariant goal == ReadOn(v, AsShared(), ReadLoop(len - total, got, forever))
        invariant v.Leave? ==> v.ret < 0
        decreases v.Again?, len - total, if canRead then 1 else 0
      {
        total, v, got := ReadMore(buf, total, len, forever, got, before, goal);
      }
    }

    /** The way out of `rb_read`, with the value it returns. */
    method ReadErr(total: nat, ret: int, ghost t: Reader) returns (value: int)
      requires |t.got| == total
      modifies this`canWrite, this`unblockReader
      ensures (AsShared(), t.(pc := ReadReturned, ret := ret)) == ReadExit(old(AsShared()), t, ret)
      ensures value == t.(ret := ret).Result()
    {
      if total > 0 {
        canWrite := true;
      }
      var shown := if ret == RB_FAIL || ret == RB_ABORT then ret else total;
      unblockReader := false;
      value := if shown > 0 then shown else ret;
    }

    /** `rb_read` with no other task at work, step for step. */
    method ReadThrough(buf: array<byte>, len: nat, forever: bool) returns (o: Outcome)
      requires Valid() && buf != data && len <= buf.Length
      modifies this, buf
      ensures Valid()
      ensures var (sh, t) := RunReader(old(AsShared()), BeginRead(len, forever));
        && AsShared() == sh
        && o == ReadOutcome(t)
        && |t.got| <= len
        && buf[..] == t.got + old(buf[..])[|t.got|..]
    {
      ghost var before := buf[..];
      var total, v, got := ReadPasses(buf, len, forever);
      ReceivedWhole(buf, got, before);
      match v
      case Sleep =>
        o := Asleep;
      case Leave(ret) =>
        var value := ReadErr(total, ret, ReadLoop(len - total, got, forever));
        o := Returned(value);
      case Again =>
        RunReadFinish(AsShared(), ReadLoop(0, got, forever));
        var value := ReadErr(total, 0, ReadLoop(0, got, forever));
        o := Returned(value);
    }

    /** `rb_read` with no other task at work. */
    method Read(buf: array<byte>, len: nat, forever: bool) returns (o: Outcome)
      requires Valid() && buf != data && len <= buf.Length
      modifies this, buf
      ensures Valid()
      ensures var (sh, t) := RunReader(old(AsShared()), BeginRead(len, forever));
        && AsShared() == sh
        && o == ReadOutcome(t)
        && |t.got| <= len
        && buf[..] == t.got + old(buf[..])[|t.got|..]
      ensures var fill := old(fillCnt);
        var n := if len <= fill then len else if old(doneWrite) then fill else fill - fill % 4;
        && buf[..] == old(Contents())[..n] + old(buf[..])[n..]
        && Contents() == old(Contents())[n..]
      ensures var fill := old(fillCnt); var words := fill - fill % 4;
        o == if len <= fill then Returned(len)
             else if old(doneWrite) then Returned(if fill > 0 then fill else -2)
             else if old(abortRead) then Returned(-3)
             else if old(unblockReader) || !forever then Returned(if words > 0 then words else -4)
             else Asleep
      ensures var waits := old(fillCnt) < len && !old(doneWrite) && !old(abortRead) && !old(unblockReader);
        && canRead == (old(canRead) && !waits)
        && canWrite == (old(canWrite) || waits || fillCnt < old(fillCnt))
      ensures doneWrite == old(doneWrite) && abortRead == old(abortRead) && abortWrite == old(abortWrite)
      ensures !unblockReader
    {
      ReadMoves(AsShared(), len, forever);
      ReadReturns(AsShared(), len, forever);
      ReadSignals(AsShared(), len, forever);
      o := ReadThrough(buf, len, forever);
    }

    // ---------- writing ----------

    /** Copy a chunk in and move on. */
    method PlaceChunk(buf: array<byte>, at: nat, n: nat)
      requires Valid() && buf != data && at + n <= buf.Length && n <= data.Length - fillCnt
      modifies this`pW, this`fillCnt, data
      ensures AsShared() == old(AsShared()).(ring := old(AsShared()).ring.Filled(buf[..][at..at + n]))
    {
      ghost var before, bytes, to := data[..], buf[..][at..at + n], pW;
      pW := CopyIn(buf, at, n, data, pW);
      PastedSlotwise(before, data[..], to, bytes);
      fillCnt := fillCnt + n;
    }

    /** Place the chunk that a writing call has chosen. */
    method PlaceNext(buf: array<byte>, at: nat, n: nat, forever: bool, ghost put: seq<byte>, ghost rest: seq<byte>)
      requires Valid() && buf != data && 0 < n == WriteChunk(data.Length - fillCnt, |rest|)
      requires at + n <= buf.Length && rest[..n] == buf[..][at..at + n]
      modifies this`pW, this`fillCnt, data
      ensures Valid()
      ensures RunWriter(old(AsShared()), WriteLoop(rest, put, forever))
        == RunWriter(AsShared(), WriteLoop(rest[n..], put + rest[..n], forever))
    {
      ghost var sh := AsShared();
      PlaceChunk(buf, at, n);
      assert AsShared() == sh.(ring := sh.ring.Filled(rest[..n]));
      RunWriteChunk(sh, AsShared(), rest, put, put + rest[..n], forever);
    }

    /** A write that found no space: the flag checks in their order, the give, the wait. */
    method AwaitSpace(forever: bool, ghost u: Writer) returns (v: Verdict)
      requires Valid() && u.Coherent() && u.pc.WriteSection? && u.forever == forever
      modifies this`canRead, this`canWrite
      ensures v.Again? ==> old(canWrite) && !canWrite
      ensures v.Leave? ==> v.ret < 0
      ensures RunWriter(old(AsShared()), u.(pc := WriteDone)) == WriteOn(v, AsShared(), u)
    {
      RunWriteFlags(AsShared(), u.(pc := WriteDone));
      if doneWrite {
        return Leave(RB_DONE);
      }
      if abortWrite {
        return Leave(RB_ABORT);
      }
      RunWriteWait(AsShared(), u.(pc := GiveRead));
      canRead := true;
      if canWrite {
        canWrite := false;
        return Again;
      }
      v := if forever then Sleep else Leave(RB_TIMEOUT);
    }

    /** One pass through the loop of `rb_write`. */
    method WritePass(buf: array<byte>, len: nat, forever: bool, ghost put: seq<byte>, ghost rest: seq<byte>, at: nat)
      returns (n: nat, v: Verdict, ghost put': seq<byte>, ghost rest': seq<byte>)
      requires Valid() && buf != data && len <= buf.Length
      requires put + rest == buf[..][..len] && |put| == at < len
      modifies this`pW, this`fillCnt, this`canRead, this`canWrite, data
      ensures Valid() && put' + rest' == put + rest && |put'| == at + n <= len
      ensures v.Again? ==> 0 < n || (old(canWrite) && !canWrite)
      ensures v.Leave? ==> v.ret < 0
      ensures !v.Again? ==> n == 0
      ensures RunWriter(old(AsShared()), WriteLoop(rest, put, forever))
        == WriteOn(v, AsShared(), WriteLoop(rest', put', forever))
    {
      ghost var sh, u := AsShared(), WriteLoop(rest, put, forever);
      n := BytesAvailable();
      if len - at < n {
        n := len - at;
      }
      if n == 0 {
        RunWriteFull(sh, u);
        v := AwaitSpace(forever, u);
        put', rest' := put, rest;
      } else {
        PutAndRest(put, rest, buf[..], len, n);
        PlaceNext(buf, at, n, forever, put, rest);
        v := Again;
        put', rest' := put + rest[..n], rest[n..];
      }
    }

    /** The loop of `rb_write`, until all bytes are placed or a pass says otherwise. */
    method WritePasses(buf: array<byte>, len: nat, forever: bool)
      returns (total: nat, v: Verdict, ghost put: seq<byte>, ghost rest: seq<byte>)
      requires Valid() && buf != data && len <= buf.Length
      modifies this`pW, this`fillCnt, this`canRead, this`canWrite, data
      ensures Valid() && put + rest == buf[..][..len] && |put| == total
      ensures RunWriter(old(AsShared()), BeginWrite(buf[..][..len], forever))
        == WriteOn(v, AsShared(), WriteLoop(rest, put, forever))
      ensures v.Again? ==> rest == []
      ensures v.Leave? ==> v.ret < 0
    {
      ghost var goal := RunWriter(AsShared(), BeginWrite(buf[..][..len], forever));
      total, v, put, rest := 0, Again, [], buf[..][..len];
      while v.Again? && total < len
        invariant Valid() && put + rest == buf[..][..len] && |put| == total
        invariant goal == WriteOn(v, AsShared(), WriteLoop(rest, put, forever))
        invariant v.Leave? ==> v.ret < 0
        decreases v.Again?, len - total, if canWrite then 1 else 0
      {
        var n;
        n, v, put, rest := WritePass(buf, len, forever, put, rest, total);
        total := total + n;
      }
    }

    /** The way out of `rb_write`, with the value it returns. */
    method WriteErr(total: nat, ret: int, ghost u: Writer) returns (value: int)
      requires |u.put| == total
      modifies this`canRead
      ensures (AsShared(), u.(pc := WriteReturned, ret := ret)) == WriteExit(old(AsShared()), u, ret)
      ensures value == u.(ret := ret).Result()
    {
      if total > 0 {
        canRead := true;
      }
      var shown := if ret == RB_FAIL || ret == RB_ABORT then ret else total;
      value := if shown > 0 then shown else ret;
    }

    /** `rb_write` with no other task at work, step for step. */
    method WriteThrough(buf: array<byte>, len: nat, forever: bool) returns (o: Outcome)
      requires Valid() && buf != data && len <= buf.Length
      modifies this, data
      ensures Valid()
      ensures var (sh, u) := RunWriter(old(AsShared()), BeginWrite(buf[..][..len], forever));
        && AsShared() == sh
        && o == WriteOutcome(u)
    {
      var total, v, put, rest := WritePasses(buf, len, forever);
      match v
      case Sleep =>
        o := Asleep;
      case Leave(ret) =>
        var value := WriteErr(total, ret, WriteLoop(rest, put, forever));
        o := Returned(value);
      case Again =>
        RunWriteFinish(AsShared(), WriteLoop(rest, put, forever));
        var value := WriteErr(total, 0, WriteLoop(rest, put, forever));
        o := Returned(value);
    }

    /** The same, with what it returns and signals written out. */
    method WriteSignalled(buf: array<byte>, len: nat, forever: bool) returns (o: Outcome)
      requires Valid() && buf != data && len <= buf.Length
      modifies this, data
      ensures Valid()
      ensures var (sh, u) := RunWriter(old(AsShared()), BeginWrite(buf[..][..len], forever));
        && AsShared() == sh
        && o == WriteOutcome(u)
      ensures var free := data.Length - old(fillCnt);
        o == if len <= free then Returned(len)
             else if old(doneWrite) then Returned(if free > 0 then free else -2)
             else if old(abortWrite) then Returned(-3)
             else if forever then Asleep
             else Returned(if free > 0 then free else -4)
      ensures var waits := data.Length - old(fillCnt) < len && !old(doneWrite) && !old(abortWrite);
        && canRead == (old(canRead) || waits || fillCnt > old(fillCnt))
        && canWrite == (old(canWrite) && !waits)
      ensures doneWrite == old(doneWrite) && abortRead == old(abortRead) && abortWrite == old(abortWrite)
      ensures unblockReader == old(unblockReader)
    {
      WriteReturns(AsShared(), buf[..][..len], forever);
      WriteSignals(AsShared(), buf[..][..len], forever);
      o := WriteThrough(buf, len, forever);
    }

    /** `rb_write` with no other task at work. */
    method Write(buf: array<byte>, len: nat, forever: bool) returns (o: Outcome)
      requires Valid() && buf != data && len <= buf.Length
      modifies this, data
      ensures Valid()
      ensures var (sh, u) := RunWriter(old(AsShared()), BeginWrite(buf[..][..len], forever));
        && AsShared() == sh
        && o == WriteOutcome(u)
      ensures var free := data.Length - old(fillCnt);
        Contents() == old(Contents()) + buf[..if len <= free then len else free]
      ensures var free := data.Length - old(fillCnt);
        o == if len <= free then Returned(len)
             else if old(doneWrite) then Returned(if free > 0 then free else -2)
             else if old(abortWrite) then Returned(-3)
             else if forever then Asleep
             else Returned(if free > 0 then free else -4)
      ensures var waits := data.Length - old(fillCnt) < len && !old(doneWrite) && !old(abortWrite);
        && canRead == (old(canRead) || waits || fillCnt > old(fillCnt))
        && canWrite == (old(canWrite) && !waits)
      ensures doneWrite == old(doneWrite) && abortRead == old(abortRead) && abortWrite == old(abortWrite)
      ensures unblockReader == old(unblockReader)
    {
      ghost var sh, bytes, free := AsShared(), buf[..][..len], data.Length - fillCnt;
      WriteMoves(sh, bytes, forever);
      assert |bytes| == len && |sh.ring.store| - sh.ring.fill == free;
      assert bytes[..if len <= free then len else free] == buf[..if len <= free then len else free];
      o := WriteSignalled(buf, len, forever);
    }

    // ---------- control calls ----------

    method DoneWrite()
      modifies this`doneWrite, this`canRead
      ensures AsShared() == old(AsShared()).(done := true, canRead := true)
    {
      doneWrite := true;
      canRead := true;
    }

    method UnblockReader()
      modifies this`unblockReader, this`canRead
      ensures AsShared() == old(AsShared()).(unblock := true, canRead := true)
    {
      unblockReader := true;
      canRead := true;
    }

    method Abort()
      modifies this`abortRead, this`abortWrite, this`canRead, this`canWrite
      ensures AsShared() ==
        old(AsShared()).(abortRead := true, canRead := true, abortWrite := true, canWrite := true)
    {
      abortRead := true;
      canRead := true;
      abortWrite := true;
      canWrite := true;
    }
  }
}
