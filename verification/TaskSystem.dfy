/**
 Any number of reading, writing and control calls on one ring, interleaved step by step.

 A run is a sequence of events.  The schedule, the data, the moments at which finite
 waits time out and the moments at which control calls are made are all in the events,
 so a statement about every event sequence is a statement about every interleaving.
 */
module TaskSystem {
  import opened Bytes
  import opened CircularStore
  import opened Tasks

  /** What a control call that has begun still has to do. */
  datatype Pending =
    | DoneGive        // rb_done_write: give can_read
    | UnblockGive     // rb_unblock_reader: give can_read
    | AbortReadGive   // rb_abort: give can_read, then the writing half
    | AbortWriteSet   // rb_abort: set abort_write, then give can_write
    | AbortWriteGive  // rb_abort: give can_write

  /** `accepted` and `delivered` record the bytes placed and taken since creation or reset. */
  datatype System = System(
    shared: Shared,
    readers: seq<Reader>,
    writers: seq<Writer>,
    pending: multiset<Pending>,
    accepted: seq<byte>,
    delivered: seq<byte>)

  datatype Event =
    | ReaderMove(i: nat)
    | WriterMove(i: nat)
    | StartRead(i: nat, len: nat, forever: bool)
    | StartWrite(i: nat, data: seq<byte>, forever: bool)
    | SetDone
    | SetUnblock
    | SetAbortRead
    | Resume(p: Pending)
    | Reset

  ghost predicate WellFormed(s: System) {
    && s.shared.ring.Valid()
    && (forall i :: 0 <= i < |s.readers| ==> s.readers[i].Coherent())
    && (forall i :: 0 <= i < |s.writers| ==> s.writers[i].Coherent())
  }

  /** No call of any kind is in progress. */
  predicate Quiescent(s: System) {
    && (forall i :: 0 <= i < |s.readers| ==> s.readers[i].pc.ReadReturned?)
    && (forall i :: 0 <= i < |s.writers| ==> s.writers[i].pc.WriteReturned?)
    && s.pending == multiset{}
  }

  predicate Enabled(s: System, e: Event) {
    match e
    case ReaderMove(i) => i < |s.readers| && ReaderEnabled(s.shared, s.readers[i])
    case WriterMove(i) => i < |s.writers| && WriterEnabled(s.shared, s.writers[i])
    case StartRead(i, _, _) => i < |s.readers| && s.readers[i].pc.ReadReturned?
    case StartWrite(i, _, _) => i < |s.writers| && s.writers[i].pc.WriteReturned?
    case Resume(p) => p in s.pending
    case Reset => Quiescent(s)
    case _ => true
  }

  function MoveReader(s: System, i: nat): (s': System)
    requires WellFormed(s) && i < |s.readers| && ReaderEnabled(s.shared, s.readers[i])
    ensures WellFormed(s')
  {
    var t := s.readers[i];
    var (sh', t') := ReaderStep(s.shared, t);
    ReaderStepConserves(s.shared, t);
    s.(shared := sh', readers := s.readers[i := t'], delivered := s.delivered + t'.got[|t.got|..])
  }

  function MoveWriter(s: System, i: nat): (s': System)
    requires WellFormed(s) && i < |s.writers| && WriterEnabled(s.shared, s.writers[i])
    ensures WellFormed(s')
  {
    var t := s.writers[i];
    var (sh', t') := WriterStep(s.shared, t);
    WriterStepConserves(s.shared, t);
    s.(shared := sh', writers := s.writers[i := t'], accepted := s.accepted + t'.put[|t.put|..])
  }

  function ResumeControl(s: System, p: Pending): System
    requires p in s.pending
  {
    var rest := s.pending - multiset{p};
    match p
    case DoneGive => s.(shared := s.shared.(canRead := true), pending := rest)
    case UnblockGive => s.(shared := s.shared.(canRead := true), pending := rest)
    case AbortReadGive => s.(shared := s.shared.(canRead := true), pending := rest + multiset{AbortWriteSet})
    case AbortWriteSet => s.(shared := s.shared.(abortWrite := true), pending := rest + multiset{AbortWriteGive})
    case AbortWriteGive => s.(shared := s.shared.(canWrite := true), pending := rest)
  }

  /** `rb_reset` brings back the created state, but keeps the semaphores as they are. */
  function ResetShared(sh: Shared): Shared {
    Created(sh.ring.store).(canRead := sh.canRead, canWrite := sh.canWrite)
  }

  function Apply(s: System, e: Event): (s': System)
    requires WellFormed(s) && Enabled(s, e)
    ensures WellFormed(s')
  {
    match e
    case ReaderMove(i) => MoveReader(s, i)
    case WriterMove(i) => MoveWriter(s, i)
    case StartRead(i, len, forever) => s.(readers := s.readers[i := BeginRead(len, forever)])
    case StartWrite(i, data, forever) => s.(writers := s.writers[i := BeginWrite(data, forever)])
    case SetDone => s.(shared := s.shared.(done := true), pending := s.pending + multiset{DoneGive})
    case SetUnblock => s.(shared := s.shared.(unblock := true), pending := s.pending + multiset{UnblockGive})
    case SetAbortRead => s.(shared := s.shared.(abortRead := true), pending := s.pending + multiset{AbortReadGive})
    case Resume(p) => ResumeControl(s, p)
    case Reset => s.(shared := ResetShared(s.shared), accepted := [], delivered := [])
  }

  /** `rb_reset` as an event, field by field: ring empty at its origin, flags clear, tokens and calls as they were. */
  lemma ResetClears(s: System)
    requires WellFormed(s) && Quiescent(s)
    ensures Enabled(s, Reset)
    ensures Apply(s, Reset) == System(
      Shared(Ring(s.shared.ring.store, 0, 0, 0), s.shared.canRead, s.shared.canWrite, false, false, false, false),
      s.readers, s.writers, multiset{}, [], [])
  {
  }

  /** A call changes only by its own steps, or by the next call that starts in its slot. */
  lemma ReaderSlot(s: System, e: Event, i: nat)
    requires WellFormed(s) && Enabled(s, e) && i < |s.readers|
    ensures |Apply(s, e).readers| == |s.readers|
    ensures Apply(s, e).readers[i] ==
      if e == ReaderMove(i) then ReaderStep(s.shared, s.readers[i]).1
      else if e.StartRead? && e.i == i then BeginRead(e.len, e.forever)
      else s.readers[i]
  {
  }

  lemma WriterSlot(s: System, e: Event, i: nat)
    requires WellFormed(s) && Enabled(s, e) && i < |s.writers|
    ensures |Apply(s, e).writers| == |s.writers|
    ensures Apply(s, e).writers[i] ==
      if e == WriterMove(i) then WriterStep(s.shared, s.writers[i]).1
      else if e.StartWrite? && e.i == i then BeginWrite(e.data, e.forever)
      else s.writers[i]
  {
  }

  /** Between resets no flag but `unblock_reader_flag` is ever cleared. */
  lemma FlagsStay(s: System, e: Event)
    requires WellFormed(s) && Enabled(s, e) && e != Reset
    ensures s.shared.done ==> Apply(s, e).shared.done
    ensures s.shared.abortRead ==> Apply(s, e).shared.abortRead
    ensures s.shared.abortWrite ==> Apply(s, e).shared.abortWrite
  {
    match e
    case ReaderMove(i) => ReaderKeepsFlags(s.shared, s.readers[i]);
    case WriterMove(i) => WriterKeepsFlags(s.shared, s.writers[i]);
    case _ =>
  }

  ghost predicate Runs(s: System, es: seq<Event>)
    requires WellFormed(s)
    decreases |es|
  {
    es == [] || (Enabled(s, es[0]) && Runs(Apply(s, es[0]), es[1..]))
  }

  function After(s: System, es: seq<Event>): (s': System)
    requires WellFormed(s) && Runs(s, es)
    ensures WellFormed(s')
    decreases |es|
  {
    if es == [] then s else After(Apply(s, es[0]), es[1..])
  }

  /** A run with one more event in front. */
  lemma Prepend(s: System, e: Event, s': System, es: seq<Event>, all: seq<Event>)
    requires WellFormed(s) && Enabled(s, e) && s' == Apply(s, e) && Runs(s', es)
    requires |all| > 0 && all[0] == e && all[1..] == es
    ensures Runs(s, all) && After(s, all) == After(s', es)
  {
  }

  lemma TailOfJoin(first: seq<Event>, second: seq<Event>, all: seq<Event>)
    requires first != [] && all == first + second
    ensures |all| > 0 && all[0] == first[0] && all[1..] == first[1..] + second
  {
  }

  lemma FirstStep(s: System, es: seq<Event>)
    requires WellFormed(s) && es != [] && Runs(s, es)
    ensures Enabled(s, es[0]) && Runs(Apply(s, es[0]), es[1..]) && After(s, es) == After(Apply(s, es[0]), es[1..])
  {
  }

  /** Two runs, one after the other. */
  lemma {:induction false} Concatenate(s: System, first: seq<Event>, second: seq<Event>, all: seq<Event>)
    requires WellFormed(s) && Runs(s, first) && Runs(After(s, first), second) && all == first + second
    ensures Runs(s, all) && After(s, all) == After(After(s, first), second)
    decreases |first|
  {
    if first == [] {
      assert all == second;
    } else {
      TailOfJoin(first, second, all);
      FirstStep(s, first);
      var s', rest, tail := Apply(s, first[0]), first[1..], all[1..];
      Concatenate(s', rest, second, tail);
      Prepend(s, first[0], s', tail, all);
    }
  }

  /** A created ring: empty, no token given, no flag set. */
  function Created(store: seq<byte>): Shared {
    Shared(Empty(store), false, false, false, false, false, false)
  }

  /** A newly created ring with some tasks, none of them in a call. */
  ghost predicate Initial(s: System)
    ensures Initial(s) ==> WellFormed(s)
  {
    && s.shared == Created(s.shared.ring.store)
    && (forall i :: 0 <= i < |s.readers| ==> s.readers[i] == Reader(ReadReturned, 0, [], false, 0))
    && (forall i :: 0 <= i < |s.writers| ==> s.writers[i] == Writer(WriteReturned, [], [], false, 0))
    && s.pending == multiset{}
    && s.accepted == [] && s.delivered == []
  }

  /** Every accepted byte is delivered or queued, in the order of acceptance. */
  ghost predicate Conserved(s: System)
    requires s.shared.ring.Valid()
  {
    s.accepted == s.delivered + s.shared.ring.Contents()
  }

  lemma ApplySize(s: System, e: Event)
    requires WellFormed(s) && Enabled(s, e)
    ensures Apply(s, e).shared.ring.Size() == s.shared.ring.Size()
  {
    match e
    case ReaderMove(i) => ReaderStepConserves(s.shared, s.readers[i]);
    case WriterMove(i) => WriterStepConserves(s.shared, s.writers[i]);
    case _ =>
  }

  lemma JoinThree(a: seq<byte>, b: seq<byte>, c: seq<byte>)
    ensures a + (b + c) == (a + b) + c
  {
  }

  lemma MoveReaderConserves(s: System, i: nat)
    requires WellFormed(s) && i < |s.readers| && ReaderEnabled(s.shared, s.readers[i])
    requires Conserved(s)
    ensures Conserved(MoveReader(s, i)) && MoveReader(s, i).shared.ring.Size() == s.shared.ring.Size()
  {
    var t := s.readers[i];
    ReaderStepConserves(s.shared, t);
    var (sh', t') := ReaderStep(s.shared, t);
    JoinThree(s.delivered, t'.got[|t.got|..], sh'.ring.Contents());
  }

  lemma MoveWriterConserves(s: System, i: nat)
    requires WellFormed(s) && i < |s.writers| && WriterEnabled(s.shared, s.writers[i])
    requires Conserved(s)
    ensures Conserved(MoveWriter(s, i)) && MoveWriter(s, i).shared.ring.Size() == s.shared.ring.Size()
  {
    var t := s.writers[i];
    WriterStepConserves(s.shared, t);
    var (sh', t') := WriterStep(s.shared, t);
    JoinThree(s.delivered, s.shared.ring.Contents(), t'.put[|t.put|..]);
  }

  lemma ApplyConserves(s: System, e: Event)
    requires WellFormed(s) && Enabled(s, e) && Conserved(s)
    ensures Conserved(Apply(s, e))
    ensures Apply(s, e).shared.ring.Size() == s.shared.ring.Size()
    ensures |Apply(s, e).readers| == |s.readers| && |Apply(s, e).writers| == |s.writers|
  {
    match e
    case ReaderMove(i) => MoveReaderConserves(s, i);
    case WriterMove(i) => MoveWriterConserves(s, i);
    case Reset => assert Apply(s, e).shared.ring.Contents() == [];
    case _ => assert Apply(s, e).shared.ring == s.shared.ring;
  }

  lemma {:induction false} RunConserves(s: System, es: seq<Event>)
    requires WellFormed(s) && Runs(s, es) && Conserved(s)
    ensures Conserved(After(s, es))
    ensures After(s, es).shared.ring.Size() == s.shared.ring.Size()
    ensures |After(s, es).readers| == |s.readers| && |After(s, es).writers| == |s.writers|
    decreases |es|
  {
    if es != [] {
      ApplyConserves(s, es[0]);
      RunConserves(Apply(s, es[0]), es[1..]);
    }
  }

  /**
   First in, first out, over every run: however many tasks read, write, time out, abort and
   are unblocked, the bytes accepted are the bytes delivered followed by the bytes queued, and
   the offsets and the counter describe those queued bytes.
   */
  lemma FifoOverEveryRun(s: System, es: seq<Event>)
    requires Initial(s) && Runs(s, es)
    ensures var s' := After(s, es);
      && s'.accepted == s'.delivered + s'.shared.ring.Contents()
      && s'.shared.ring.Valid()
      && s'.shared.ring.Size() == s.shared.ring.Size()
      && |s'.accepted| - |s'.delivered| <= s.shared.ring.Size()
  {
    assert s.shared.ring.Contents() == [];
    RunConserves(s, es);
  }
}
