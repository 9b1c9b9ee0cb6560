/**
 One reading and one writing call that both wait forever, with no control calls: every
 interleaving ends, after boundedly many steps and with the same outcome, for all demands,
 as soon as the ring holds one word.
 */
module Pair {
  import opened Bytes
  import opened Chunks
  import opened CircularStore
  import opened Tasks
  import opened TaskSystem
  import opened Wakeup
  import opened Alignment
  import Solo

  /** One task of each kind, any call in progress waiting without limit; no flag is set. */
  ghost predicate Calm(s: System) {
    && OneEach(s)
    && (s.readers[0].forever || s.readers[0].pc.ReadReturned?)
    && (s.writers[0].forever || s.writers[0].pc.WriteReturned?)
    && s.readers[0].ret == 0 && s.writers[0].ret == 0
    && !s.shared.done && !s.shared.abortRead && !s.shared.abortWrite && !s.shared.unblock
    && s.pending == multiset{}
  }

  ghost predicate PairRun(es: seq<Event>) {
    forall k :: 0 <= k < |es| ==> es[k] == ReaderMove(0) || es[k] == WriterMove(0)
  }

  // ---------- termination ----------

  function ReadHop(pc: ReaderPc): nat {
    match pc
    case ReadDone => 5
    case ReadAbort => 4
    case ReadUnblock => 3
    case GiveWrite => 2
    case AwaitRead => 1
    case ReadSection => 0
    case ReadFinish => 2
    case ClearUnblock => 1
    case ReadReturned => 0
  }

  function WriteHop(pc: WriterPc): nat {
    match pc
    case WriteDone => 4
    case WriteAbort => 3
    case GiveRead => 2
    case AwaitWrite => 1
    case WriteSection => 0
    case WriteFinish => 1
    case WriteReturned => 0
  }

  predicate InCall(pc: ReaderPc) {
    !pc.ReadFinish? && !pc.ClearUnblock? && !pc.ReadReturned?
  }

  predicate InWrite(pc: WriterPc) {
    !pc.WriteFinish? && !pc.WriteReturned?
  }

  /**
   Steps the reader can take before bytes move.  If it will find a chunk, the steps to its next
   section; otherwise the steps to its wait, and one more round for a token it can take.  The
   factor pays for the round that one give can cause on the other side.
   */
  function ReadIdle(sh: Shared, t: Reader): nat {
    if !InCall(t.pc) || ReadChunk(sh.ring.fill, t.remaining, sh.done) > 0 then
      7 * ReadHop(t.pc)
    else
      (if t.pc.ReadSection? then 5 else ReadHop(t.pc) - 1) + if sh.canRead then 6 else 0
  }

  function WriteIdle(sh: Shared, u: Writer): nat
    requires sh.ring.fill <= sh.ring.Size()
  {
    if !InWrite(u.pc) || WriteChunk(sh.ring.Free(), |u.rest|) > 0 then
      7 * WriteHop(u.pc)
    else
      (if u.pc.WriteSection? then 4 else WriteHop(u.pc) - 1) + if sh.canWrite then 6 else 0
  }

  /** Bytes still to move, then the idle steps possible before the next one moves. */
  function Measure(s: System): nat
    requires |s.readers| == 1 && |s.writers| == 1 && s.shared.ring.fill <= s.shared.ring.Size()
  {
    64 * (s.readers[0].remaining + |s.writers[0].rest|)
    + ReadIdle(s.shared, s.readers[0]) + WriteIdle(s.shared, s.writers[0])
  }

  /** The ring holds a word, or all that is still asked for, or all that is queued and still to be written. */
  predicate Fits(s: System)
    requires |s.readers| == 1 && |s.writers| == 1
  {
    var size := s.shared.ring.Size();
    4 <= size || s.readers[0].remaining <= size || s.shared.ring.fill + |s.writers[0].rest| <= size
  }

  lemma ReadChunkDescends(s: System)
    requires Calm(s) && Fits(s) && s.readers[0].pc.ReadSection?
    requires ReadChunk(s.shared.ring.fill, s.readers[0].remaining, false) > 0
    ensures Calm(MoveReader(s, 0)) && Fits(MoveReader(s, 0)) && Measure(MoveReader(s, 0)) < Measure(s)
  {
    ReaderStepConserves(s.shared, s.readers[0]);
  }

  lemma ReadNothingDescends(s: System)
    requires Calm(s) && Fits(s) && s.readers[0].pc.ReadSection?
    requires ReadChunk(s.shared.ring.fill, s.readers[0].remaining, false) == 0
    ensures Calm(MoveReader(s, 0)) && Fits(MoveReader(s, 0)) && Measure(MoveReader(s, 0)) < Measure(s)
  {
  }

  lemma ReadHopDescends(s: System)
    requires Calm(s) && Fits(s)
    requires ReaderEnabled(s.shared, s.readers[0]) && !s.readers[0].pc.ReadSection?
    ensures Calm(MoveReader(s, 0)) && Fits(MoveReader(s, 0)) && Measure(MoveReader(s, 0)) < Measure(s)
  {
  }

  lemma ReadStepDescends(s: System)
    requires Calm(s) && Fits(s) && ReaderEnabled(s.shared, s.readers[0])
    ensures Calm(MoveReader(s, 0)) && Fits(MoveReader(s, 0)) && Measure(MoveReader(s, 0)) < Measure(s)
  {
    if !s.readers[0].pc.ReadSection? {
      ReadHopDescends(s);
    } else if ReadChunk(s.shared.ring.fill, s.readers[0].remaining, false) > 0 {
      ReadChunkDescends(s);
    } else {
      ReadNothingDescends(s);
    }
  }

  lemma WriteSectionDescends(s: System)
    requires Calm(s) && Fits(s) && s.writers[0].pc.WriteSection?
    ensures Calm(MoveWriter(s, 0)) && Fits(MoveWriter(s, 0)) && Measure(MoveWriter(s, 0)) < Measure(s)
  {
    WriterStepConserves(s.shared, s.writers[0]);
  }

  lemma WriteHopDescends(s: System)
    requires Calm(s) && Fits(s)
    requires WriterEnabled(s.shared, s.writers[0]) && !s.writers[0].pc.WriteSection?
    ensures Calm(MoveWriter(s, 0)) && Fits(MoveWriter(s, 0)) && Measure(MoveWriter(s, 0)) < Measure(s)
  {
  }

  lemma WriteStepDescends(s: System)
    requires Calm(s) && Fits(s) && WriterEnabled(s.shared, s.writers[0])
    ensures Calm(MoveWriter(s, 0)) && Fits(MoveWriter(s, 0)) && Measure(MoveWriter(s, 0)) < Measure(s)
  {
    if s.writers[0].pc.WriteSection? { WriteSectionDescends(s); } else { WriteHopDescends(s); }
  }

  /** Every interleaving is finite, without any fairness assumption: each step of either task lowers the measure. */
  lemma {:induction false} EveryPairRunEnds(s: System, es: seq<Event>)
    requires Calm(s) && Fits(s)
    requires Runs(s, es) && PairRun(es)
    ensures Calm(After(s, es)) && Fits(After(s, es)) && |es| + Measure(After(s, es)) <= Measure(s)
    decreases |es|
  {
    if es != [] {
      ApplySize(s, es[0]);
      if es[0] == ReaderMove(0) { ReadStepDescends(s); } else { WriteStepDescends(s); }
      EveryPairRunEnds(Apply(s, es[0]), es[1..]);
    }
  }

  /** How many steps of the run move bytes. */
  ghost function Transfers(s: System, es: seq<Event>): nat
    requires WellFormed(s) && Runs(s, es)
    decreases |es|
  {
    if es == [] then 0
    else
      var s' := Apply(s, es[0]);
      (if s'.shared.ring.fill == s.shared.ring.fill then 0 else 1) + Transfers(s', es[1..])
  }

  /** Whatever the size of the ring, no run moves bytes more often than there are bytes to move. */
  lemma {:induction false} TransfersAreBounded(s: System, es: seq<Event>)
    requires OneEach(s) && Runs(s, es) && PairRun(es)
    ensures OneEach(After(s, es))
    ensures Transfers(s, es) + After(s, es).readers[0].remaining + |After(s, es).writers[0].rest|
      <= s.readers[0].remaining + |s.writers[0].rest|
    decreases |es|
  {
    if es != [] {
      if es[0] == ReaderMove(0) { ReadPaysForMove(s); } else { WritePaysForMove(s); }
      TransfersAreBounded(Apply(s, es[0]), es[1..]);
    }
  }

  /** The count is of steps that change the fill: if it is zero, the ring is as full as before. */
  lemma {:induction false} NoTransferNoChange(s: System, es: seq<Event>)
    requires WellFormed(s) && Runs(s, es) && Transfers(s, es) == 0
    ensures After(s, es).shared.ring.fill == s.shared.ring.fill
    decreases |es|
  {
    if es != [] {
      NoTransferNoChange(Apply(s, es[0]), es[1..]);
    }
  }

  lemma ReadPaysForMove(s: System)
    requires OneEach(s) && ReaderEnabled(s.shared, s.readers[0])
    ensures var s' := MoveReader(s, 0);
      && s'.writers == s.writers && |s'.readers| == 1
      && s'.readers[0].remaining <= s.readers[0].remaining
      && (s'.shared.ring.fill != s.shared.ring.fill ==> s'.readers[0].remaining < s.readers[0].remaining)
  {
  }

  lemma WritePaysForMove(s: System)
    requires OneEach(s) && WriterEnabled(s.shared, s.writers[0])
    ensures var s' := MoveWriter(s, 0);
      && s'.readers == s.readers && |s'.writers| == 1
      && |s'.writers[0].rest| <= |s.writers[0].rest|
      && (s'.shared.ring.fill != s.shared.ring.fill ==> |s'.writers[0].rest| < |s.writers[0].rest|)
  {
  }

  // ---------- outcome ----------

  /** Everything the reader has or can still get, in order. */
  ghost function Stream(s: System): seq<byte>
    requires OneEach(s)
  {
    s.readers[0].got + s.shared.ring.Contents() + s.writers[0].rest
  }

  function Demand(s: System): nat
    requires |s.readers| == 1
  {
    |s.readers[0].got| + s.readers[0].remaining
  }

  lemma ReadStepKeepsStream(s: System)
    requires Calm(s) && ReaderEnabled(s.shared, s.readers[0]) && WordsOrAll(s.readers[0])
    ensures var s' := MoveReader(s, 0);
      OneEach(s') && Stream(s') == Stream(s) && Demand(s') == Demand(s) && WordsOrAll(s'.readers[0])
  {
    var t := s.readers[0];
    ReaderStepConserves(s.shared, t);
    MoveKeepsWords(s.shared, t);
    var (sh', t') := ReaderStep(s.shared, t);
    var gained, q' := t'.got[|t.got|..], sh'.ring.Contents();
    assert t'.got == t.got + gained;
    assert t.got + (gained + q') == (t.got + gained) + q';
  }

  lemma SplitOff(put: seq<byte>, placed: seq<byte>, rest: seq<byte>, all: seq<byte>)
    requires (put + placed) + rest == put + all
    ensures all == placed + rest
  {
    assert all == (put + all)[|put|..] == placed + rest;
  }

  lemma PassAlong(got: seq<byte>, q: seq<byte>, placed: seq<byte>, rest: seq<byte>)
    ensures got + (q + placed) + rest == got + q + (placed + rest)
  {
  }

  lemma WriteStepKeepsStream(s: System)
    requires Calm(s) && WriterEnabled(s.shared, s.writers[0])
    ensures var s' := MoveWriter(s, 0); OneEach(s') && Stream(s') == Stream(s)
  {
    var u := s.writers[0];
    WriterStepConserves(s.shared, u);
    var (sh', u') := WriterStep(s.shared, u);
    var placed := u'.put[|u.put|..];
    assert u'.put == u.put + placed;
    SplitOff(u.put, placed, u'.rest, u.rest);
    PassAlong(s.readers[0].got, s.shared.ring.Contents(), placed, u'.rest);
  }

  lemma {:induction false} PairRunKeepsStream(s: System, es: seq<Event>)
    requires Calm(s) && Fits(s) && WordsOrAll(s.readers[0]) && Wakeful(s)
    requires Runs(s, es) && PairRun(es)
    ensures var s' := After(s, es);
      && Calm(s') && Fits(s') && Wakeful(s') && WordsOrAll(s'.readers[0])
      && s'.shared.ring.Size() == s.shared.ring.Size()
      && Stream(s') == Stream(s) && Demand(s') == Demand(s)
    decreases |es|
  {
    if es != [] {
      ApplySize(s, es[0]);
      StepIsWakeful(s, es[0]);
      if es[0] == ReaderMove(0) {
        ReadStepDescends(s);
        ReadStepKeepsStream(s);
      } else {
        WriteStepDescends(s);
        WriteStepKeepsStream(s);
      }
      PairRunKeepsStream(Apply(s, es[0]), es[1..]);
    }
  }

  /** Neither task can take a step: each has returned or sleeps for good. */
  predicate Settled(s: System) {
    !Enabled(s, ReaderMove(0)) && !Enabled(s, WriterMove(0))
  }

  /**
   The stream is shared out as if it had all been queued before the reader came alone: the reader has its demand
   or else all whole words, the ring holds the next bytes up to its size, the writer keeps the rest.
   */
  ghost predicate Division(s: System, stream: seq<byte>, demand: nat)
    requires OneEach(s)
  {
    var t, u, q := s.readers[0], s.writers[0], s.shared.ring.Contents();
    var taken := Solo.Readable(|stream|, demand, false);
    var left := |stream| - taken;
    var kept := if left <= s.shared.ring.Size() then left else s.shared.ring.Size();
    && t.got == stream[..taken]
    && q == stream[taken..taken + kept]
    && u.rest == stream[taken + kept..]
    && (t.pc.ReadReturned? <==> demand <= |stream|)
    && (u.pc.WriteReturned? <==> left <= s.shared.ring.Size())
  }

  lemma SettledOutcome(s: System)
    requires Calm(s) && Fits(s) && WordsOrAll(s.readers[0]) && Wakeful(s)
    requires Settled(s)
    ensures Division(s, Stream(s), Demand(s))
  {
    var t, u, q := s.readers[0], s.writers[0], s.shared.ring.Contents();
    var stream := Stream(s);
    assert t.got == stream[..|t.got|];
    assert q == stream[|t.got|..|t.got| + |q|];
    assert u.rest == stream[|t.got| + |q|..];
    assert Solo.Readable(|stream|, Demand(s), false) == |t.got| by {
      if !t.pc.ReadReturned? {
        assert ReadChunk(|q|, t.remaining, false) == 0;
        WordsAndTail(|t.got|, |q|);
      }
    }
  }

  lemma StreamAtTheStart(s: System, len: nat, data: seq<byte>)
    requires Calm(s) && s.readers[0] == BeginRead(len, true) && s.writers[0] == BeginWrite(data, true)
    ensures Stream(s) == s.shared.ring.Contents() + data && Demand(s) == len
    ensures WordsOrAll(s.readers[0]) && Wakeful(s)
  {
    assert [] + s.shared.ring.Contents() == s.shared.ring.Contents();
  }

  lemma WordsAndTail(words: nat, tail: nat)
    requires words % 4 == 0 && tail < 4
    ensures (words + tail) % 4 == tail
  {
  }

  /**
   For every demand, every data, every initial content and every schedule: a run that can
   go no further has the same outcome.  Together with `EveryPairRunEnds`, reading and writing
   are a function of what was asked, not of the interleaving.
   */
  lemma PairOutcome(s: System, es: seq<Event>, len: nat, data: seq<byte>)
    requires Calm(s) && Fits(s)
    requires s.readers[0] == BeginRead(len, true) && s.writers[0] == BeginWrite(data, true)
    requires Runs(s, es) && PairRun(es) && Settled(After(s, es))
    ensures OneEach(After(s, es))
    ensures Division(After(s, es), s.shared.ring.Contents() + data, len)
    ensures var stream, s' := s.shared.ring.Contents() + data, After(s, es);
      var taken := if len <= |stream| then len else |stream| - |stream| % 4;
      && s'.readers[0].got == stream[..taken]
      && s'.readers[0].got + s'.shared.ring.Contents() + s'.writers[0].rest == stream
      && (s'.readers[0].pc.ReadReturned? <==> len <= |stream|)
      && (s'.writers[0].pc.WriteReturned? <==> |stream| - taken <= s.shared.ring.Size())
  {
    StreamAtTheStart(s, len, data);
    PairRunKeepsStream(s, es);
    var s' := After(s, es);
    SettledOutcome(s');
  }

  /**
   Total correctness of a matched pair: a reader that asks for exactly what is queued plus what
   is being written gets exactly that, both calls return their lengths, and the ring ends empty.
   */
  lemma MatchedPair(s: System, es: seq<Event>, len: nat, data: seq<byte>)
    requires Calm(s) && Fits(s)
    requires s.readers[0] == BeginRead(len, true) && s.writers[0] == BeginWrite(data, true)
    requires len == s.shared.ring.fill + |data|
    requires Runs(s, es) && PairRun(es)
    ensures |es| <= Measure(s)
    ensures OneEach(After(s, es))
    ensures Settled(After(s, es)) ==>
      var s' := After(s, es); var t, u := s'.readers[0], s'.writers[0];
      && t.pc.ReadReturned? && t.got == s.shared.ring.Contents() + data && t.Result() == len
      && u.pc.WriteReturned? && u.put == data && u.Result() == |data|
      && s'.shared.ring.Contents() == []
  {
    EveryPairRunEnds(s, es);
    if Settled(After(s, es)) {
      MatchedSettles(s, es, len, data);
    }
  }

  lemma MatchedSettles(s: System, es: seq<Event>, len: nat, data: seq<byte>)
    requires Calm(s) && Fits(s)
    requires s.readers[0] == BeginRead(len, true) && s.writers[0] == BeginWrite(data, true)
    requires len == s.shared.ring.fill + |data|
    requires Runs(s, es) && PairRun(es) && Calm(After(s, es)) && Settled(After(s, es))
    ensures var s' := After(s, es); var t, u := s'.readers[0], s'.writers[0];
      && t.pc.ReadReturned? && t.got == s.shared.ring.Contents() + data && t.Result() == len
      && u.pc.WriteReturned? && u.put == data && u.Result() == |data|
      && s'.shared.ring.Contents() == []
  {
    PairOutcome(s, es, len, data);
    PairRunKeepsPut(s, es);
    assert [] + data == data;
    MatchedOutcome(After(s, es), s.shared.ring.Contents(), data);
  }

  lemma MatchedOutcome(s: System, queued: seq<byte>, data: seq<byte>)
    requires Calm(s) && Division(s, queued + data, |queued| + |data|)
    requires s.writers[0].put + s.writers[0].rest == data
    ensures var t, u := s.readers[0], s.writers[0];
      && t.pc.ReadReturned? && t.got == queued + data && t.Result() == |queued| + |data|
      && u.pc.WriteReturned? && u.put == data && u.Result() == |data|
      && s.shared.ring.Contents() == []
  {
    var stream := queued + data;
    assert stream[..|stream|] == stream;
    assert s.writers[0].put + [] == s.writers[0].put;
  }

  lemma {:induction false} PairRunKeepsPut(s: System, es: seq<Event>)
    requires OneEach(s) && Runs(s, es) && PairRun(es)
    ensures OneEach(After(s, es))
    ensures After(s, es).writers[0].put + After(s, es).writers[0].rest == s.writers[0].put + s.writers[0].rest
    decreases |es|
  {
    if es != [] {
      if es[0] == WriterMove(0) { WriterStepConserves(s.shared, s.writers[0]); }
      PairRunKeepsPut(Apply(s, es[0]), es[1..]);
    }
  }

  // ---------- the bound on the size is needed ----------

  /** Where the two calls are, and which semaphores hold a token. */
  datatype Stand = Stand(pc: ReaderPc, wpc: WriterPc, canRead: bool, canWrite: bool)

  predicate CanHop(x: Stand, e: Event) {
    && InCall(x.pc) && InWrite(x.wpc)
    && match e
       case ReaderMove(i) => i == 0 && (x.pc.AwaitRead? ==> x.canRead)
       case WriterMove(i) => i == 0 && (x.wpc.AwaitWrite? ==> x.canWrite)
       case _ => false
  }

  /** The next stand when the reader finds no chunk and the writer no space. */
  function Hop(x: Stand, e: Event): (x': Stand)
    requires CanHop(x, e)
    ensures InCall(x'.pc) && InWrite(x'.wpc)
  {
    if e.ReaderMove? then
      match x.pc
      case ReadSection => x.(pc := ReadDone)
      case ReadDone => x.(pc := ReadAbort)
      case ReadAbort => x.(pc := ReadUnblock)
      case ReadUnblock => x.(pc := GiveWrite)
      case GiveWrite => x.(pc := AwaitRead, canWrite := true)
      case AwaitRead => x.(pc := ReadSection, canRead := false)
    else
      match x.wpc
      case WriteSection => x.(wpc := WriteDone)
      case WriteDone => x.(wpc := WriteAbort)
      case WriteAbort => x.(wpc := GiveRead)
      case GiveRead => x.(wpc := AwaitWrite, canRead := true)
      case AwaitWrite => x.(wpc := WriteSection, canWrite := false)
  }

  predicate Hops(x: Stand, es: seq<Event>, y: Stand)
    decreases |es|
  {
    if es == [] then x == y else CanHop(x, es[0]) && Hops(Hop(x, es[0]), es[1..], y)
  }

  /** The ring is full and below a word, the reader asks for more than it can hold, the writer has bytes left. */
  ghost predicate Jammed(s: System) {
    && Calm(s) && InCall(s.readers[0].pc) && InWrite(s.writers[0].pc)
    && s.shared.ring.fill == s.shared.ring.Size() < 4
    && s.shared.ring.Size() < s.readers[0].remaining && s.writers[0].rest != []
  }

  /** The same calls and ring, with the calls at these points and these tokens given. */
  function At(s: System, x: Stand): System
    requires |s.readers| == 1 && |s.writers| == 1
  {
    s.(shared := s.shared.(canRead := x.canRead, canWrite := x.canWrite),
       readers := [s.readers[0].(pc := x.pc)],
       writers := [s.writers[0].(pc := x.wpc)])
  }

  lemma JammedAt(s: System, x: Stand)
    requires Jammed(s) && InCall(x.pc) && InWrite(x.wpc)
    ensures Jammed(At(s, x))
  {
  }

  /** Two jammed calls only hop: no byte moves. */
  lemma JammedHops(s: System, x: Stand, e: Event)
    requires Jammed(s) && CanHop(x, e)
    ensures var at := At(s, x);
      WellFormed(at) && Enabled(at, e) && Apply(at, e) == At(s, Hop(x, e))
  {
    JammedAt(s, x);
    var t, u := s.readers[0], s.writers[0];
    assert t.got[|t.got|..] == [] && u.put[|u.put|..] == [];
    assert s.delivered + [] == s.delivered && s.accepted + [] == s.accepted;
  }

  lemma {:induction false} JammedRuns(s: System, x: Stand, es: seq<Event>, y: Stand)
    requires Jammed(s) && InCall(x.pc) && InWrite(x.wpc) && Hops(x, es, y)
    ensures WellFormed(At(s, x))
    ensures PairRun(es) && Runs(At(s, x), es) && After(At(s, x), es) == At(s, y)
    decreases |es|
  {
    JammedAt(s, x);
    if es != [] {
      JammedHops(s, x, es[0]);
      JammedRuns(s, Hop(x, es[0]), es[1..], y);
    }
  }

  lemma {:induction false} HopsOn(x: Stand, first: seq<Event>, y: Stand, second: seq<Event>, z: Stand)
    requires Hops(x, first, y) && Hops(y, second, z)
    ensures Hops(x, first + second, z)
    decreases |first|
  {
    if first == [] {
      assert first + second == second;
    } else {
      HopsOn(Hop(x, first[0]), first[1..], y, second, z);
      assert (first + second)[1..] == first[1..] + second;
    }
  }

  /** The reader looks, checks the three flags, gives `can_write` and waits. */
  function ReaderWaits(): seq<Event> {
    [ReaderMove(0), ReaderMove(0), ReaderMove(0), ReaderMove(0), ReaderMove(0)]
  }

  /** The writer looks, checks the two flags, gives `can_read` and takes its own token. */
  function WriterPasses(): seq<Event> {
    [WriterMove(0), WriterMove(0), WriterMove(0), WriterMove(0), WriterMove(0)]
  }

  lemma ReaderWaitsHops(wpc: WriterPc, canRead: bool, canWrite: bool)
    requires InWrite(wpc)
    ensures Hops(Stand(ReadSection, wpc, canRead, canWrite), ReaderWaits(), Stand(AwaitRead, wpc, canRead, true))
  {
  }

  lemma WriterPassesHops(pc: ReaderPc, canRead: bool)
    requires InCall(pc)
    ensures Hops(Stand(pc, WriteSection, canRead, true), WriterPasses(), Stand(pc, WriteSection, true, false))
  {
  }

  /** Both calls have just begun, and no semaphore holds a token. */
  const START := Stand(ReadSection, WriteSection, false, false)

  /** One lap: the reader finds nothing and waits, the writer finds no space and waits, each wakes the other. */
  function Lap(): seq<Event> {
    ReaderWaits() + WriterPasses() + [ReaderMove(0)]
  }

  lemma LapReturns(canWrite: bool)
    ensures Hops(Stand(ReadSection, WriteSection, false, canWrite), Lap(), START)
  {
    ReaderWaitsHops(WriteSection, false, canWrite);
    WriterPassesHops(AwaitRead, false);
    var x, y := Stand(ReadSection, WriteSection, false, canWrite), Stand(AwaitRead, WriteSection, false, true);
    var z := Stand(AwaitRead, WriteSection, true, false);
    HopsOn(x, ReaderWaits(), y, WriterPasses(), z);
    assert Hops(z, [ReaderMove(0)], START);
    HopsOn(x, ReaderWaits() + WriterPasses(), z, [ReaderMove(0)], START);
  }

  /** With a token left over for it, the reader first goes round once by itself. */
  function LeadIn(canRead: bool): (es: seq<Event>)
    ensures PairRun(es)
  {
    if canRead then ReaderWaits() + [ReaderMove(0)] + Lap() else Lap()
  }

  /** From any tokens the calls come to where a lap begins. */
  lemma LeadsIn(canRead: bool, canWrite: bool)
    ensures Hops(Stand(ReadSection, WriteSection, canRead, canWrite), LeadIn(canRead), START)
  {
    if canRead {
      var x, y := Stand(ReadSection, WriteSection, true, canWrite), Stand(AwaitRead, WriteSection, true, true);
      var z := START.(canWrite := true);
      ReaderWaitsHops(WriteSection, true, canWrite);
      assert Hops(y, [ReaderMove(0)], z);
      HopsOn(x, ReaderWaits(), y, [ReaderMove(0)], z);
      LapReturns(true);
      HopsOn(x, ReaderWaits() + [ReaderMove(0)], z, Lap(), START);
    } else {
      LapReturns(canWrite);
    }
  }

  /** The two calls come back to a state they were in. */
  ghost predicate Cycles(s: System, es: seq<Event>, size: nat) {
    && Calm(s) && s.shared.ring.Size() == size
    && es != [] && PairRun(es) && Runs(s, es) && After(s, es) == s
  }

  lemma JammedCycles(s: System, canRead: bool, canWrite: bool)
    requires Jammed(s) && s == At(s, Stand(ReadSection, WriteSection, canRead, canWrite))
    ensures Runs(s, LeadIn(canRead)) && After(s, LeadIn(canRead)) == At(s, START)
    ensures Cycles(At(s, START), Lap(), s.shared.ring.Size())
  {
    LeadsIn(canRead, canWrite);
    JammedRuns(s, Stand(ReadSection, WriteSection, canRead, canWrite), LeadIn(canRead), START);
    LapReturns(false);
    JammedAt(s, START);
    JammedRuns(s, START, Lap(), START);
  }

  /** The steps `lead` of the two calls bring them to a state that the steps `es` bring them back to. */
  ghost predicate GetsCaught(s: System, lead: seq<Event>, es: seq<Event>)
    requires WellFormed(s)
  {
    Runs(s, lead) && PairRun(lead) && Cycles(After(s, lead), es, s.shared.ring.Size())
  }

  lemma FillingStepJams(s: System, len: nat, data: seq<byte>)
    requires Calm(s) && s.readers[0] == BeginRead(len, true) && s.writers[0] == BeginWrite(data, true)
    requires !Fits(s) && s.shared.ring.Free() > 0
    ensures var s1 := MoveWriter(s, 0);
      && Jammed(s1) && s1.shared.ring.Size() == s.shared.ring.Size()
      && s1 == At(s1, Stand(ReadSection, WriteSection, s.shared.canRead, s.shared.canWrite))
  {
    WriterStepConserves(s.shared, s.writers[0]);
  }

  lemma CaughtWhenJammed(s: System, canRead: bool, canWrite: bool) returns (lead: seq<Event>)
    requires Jammed(s) && s == At(s, Stand(ReadSection, WriteSection, canRead, canWrite))
    ensures GetsCaught(s, lead, Lap())
  {
    JammedCycles(s, canRead, canWrite);
    lead := LeadIn(canRead);
  }

  lemma CaughtAfterStep(s: System, lead: seq<Event>, es: seq<Event>)
    requires OneEach(s) && WriterEnabled(s.shared, s.writers[0])
    requires GetsCaught(MoveWriter(s, 0), lead, es)
    ensures GetsCaught(s, [WriterMove(0)] + lead, es)
  {
    ApplySize(s, WriterMove(0));
    Prepend(s, WriterMove(0), MoveWriter(s, 0), lead, [WriterMove(0)] + lead);
  }

  /** Calls that do not fit: the writer fills the ring, and then they go round. */
  lemma Caught(s: System, len: nat, data: seq<byte>) returns (lead: seq<Event>)
    requires Calm(s) && s.readers[0] == BeginRead(len, true) && s.writers[0] == BeginWrite(data, true) && !Fits(s)
    ensures GetsCaught(s, lead, Lap())
  {
    if s.shared.ring.Free() == 0 {
      lead := CaughtWhenJammed(s, s.shared.canRead, s.shared.canWrite);
    } else {
      FillingStepJams(s, len, data);
      var rest := CaughtWhenJammed(MoveWriter(s, 0), s.shared.canRead, s.shared.canWrite);
      CaughtAfterStep(s, rest, Lap());
      lead := [WriterMove(0)] + rest;
    }
  }

  /**
   Which pairs of calls must end, for every content and all tokens: they can be caught in a circle exactly if the
   ring is below a word, below the demand, and below what is queued and to be written.  By `EveryPairRunEnds` all
   other pairs end in every interleaving.
   */
  lemma PairsThatEnd(s: System, len: nat, data: seq<byte>)
    requires Calm(s) && s.readers[0] == BeginRead(len, true) && s.writers[0] == BeginWrite(data, true)
    ensures (exists lead: seq<Event>, es: seq<Event> :: GetsCaught(s, lead, es))
      <==> var size := s.shared.ring.Size(); size < 4 && size < len && size < s.shared.ring.fill + |data|
  {
    if Fits(s) {
      forall lead: seq<Event>, es: seq<Event> | GetsCaught(s, lead, es)
        ensures false
      {
        EveryPairRunEnds(s, lead);
        EveryPairRunEnds(After(s, lead), es);
      }
    } else {
      var lead := Caught(s, len, data);
    }
  }

  /** A new ring with one reading and one writing task. */
  function NewPair(store: seq<byte>): (s: System)
    ensures Initial(s) && OneEach(s) && s.shared.ring.Size() == |store|
  {
    System(Created(store), [Reader(ReadReturned, 0, [], false, 0)], [Writer(WriteReturned, [], [], false, 0)],
           multiset{}, [], [])
  }

  /** A full ring and two new calls: a read of more than it can ever hold, a write of one more byte. */
  function Overfull(store: seq<byte>): (s: System)
    ensures WellFormed(s)
  {
    System(Created(store).(ring := Ring(store, 0, |store|, |store|)),
           [BeginRead(|store| + 1, true)], [BeginWrite([0], true)], multiset{}, store, [])
  }

  /** A ring that one write has filled; the writer is at `wpc`. */
  function FilledPair(data: seq<byte>, wpc: WriterPc): (s: System)
    requires wpc.WriteFinish? || wpc.WriteReturned?
    ensures WellFormed(s)
  {
    System(Created(data).(ring := Ring(data, 0, |data|, |data|), canRead := wpc.WriteReturned?),
           [Reader(ReadReturned, 0, [], false, 0)], [Writer(wpc, [], data, true, 0)], multiset{}, data, [])
  }

  lemma WholeWriteFills(s: System, store: seq<byte>, data: seq<byte>)
    requires |store| == |data| > 0 && s == Apply(NewPair(store), StartWrite(0, data, true))
    ensures MoveWriter(s, 0) == FilledPair(data, WriteFinish)
  {
    assert data[..|data|] == data && data[|data|..] == [] && [] + data == data;
    var (sh', u') := LockedWrite(s.shared, s.writers[0]);
    assert sh'.ring == Ring(data, 0, |data|, |data|);
    assert u'.put[0..] == data;
  }

  lemma FillingWriteReturns(data: seq<byte>)
    requires |data| > 0
    ensures MoveWriter(FilledPair(data, WriteFinish), 0) == FilledPair(data, WriteReturned)
  {
    assert data[|data|..] == [] && data + [] == data;
  }

  lemma FillsUp(store: seq<byte>, data: seq<byte>)
    requires |store| == |data| > 0
    ensures var es := [StartWrite(0, data, true), WriterMove(0), WriterMove(0)];
      Runs(NewPair(store), es) && After(NewPair(store), es) == FilledPair(data, WriteReturned)
  {
    var s, start, w := NewPair(store), StartWrite(0, data, true), WriterMove(0);
    var s1 := Apply(s, start);
    WholeWriteFills(s1, store, data);
    var s2, s3 := FilledPair(data, WriteFinish), FilledPair(data, WriteReturned);
    FillingWriteReturns(data);
    Prepend(s2, w, s3, [], [w]);
    Prepend(s1, w, s2, [w], [w, w]);
    Prepend(s, start, s1, [w, w], [start, w, w]);
  }

  lemma BothBegin(s: System, store: seq<byte>)
    requires s == FilledPair(store, WriteReturned) || (store == [] && s == NewPair([]))
    ensures var es := [StartRead(0, |store| + 1, true), StartWrite(0, [0], true)];
      Runs(s, es) && After(s, es) == At(Overfull(store), START.(canRead := s.shared.canRead))
  {
    var read, write := StartRead(0, |store| + 1, true), StartWrite(0, [0], true);
    var s1 := Apply(s, read);
    var s2 := Apply(s1, write);
    Prepend(s1, write, s2, [], [write]);
    Prepend(s, read, s1, [write], [read, write]);
  }

  /** From creation on, a filling write and two more calls lead to where the laps begin. */
  lemma ReachesStart(store: seq<byte>, data: seq<byte>) returns (es: seq<Event>)
    requires |store| == |data| < 4
    ensures Runs(NewPair(store), es) && After(NewPair(store), es) == Overfull(data)
  {
    var s := NewPair(store);
    var begin := [StartRead(0, |data| + 1, true), StartWrite(0, [0], true)];
    if data == [] {
      BothBegin(s, data);
      es := begin;
    } else {
      var fill := [StartWrite(0, data, true), WriterMove(0), WriterMove(0)];
      FillsUp(store, data);
      BothBegin(FilledPair(data, WriteReturned), data);
      Concatenate(s, fill, begin, fill + begin);
      var begun := At(Overfull(data), START.(canRead := true));
      JammedCycles(begun, true, false);
      es := fill + begin + LeadIn(true);
      Concatenate(s, fill + begin, LeadIn(true), es);
    }
  }

  /**
   In a ring of fewer than four bytes two calls can wake each other forever: the lap comes back to the very state
   it started from, no byte moves, and a run from creation leads there.  `rb_create` admits such rings.
   */
  lemma TinyRingLivelock(store: seq<byte>, data: seq<byte>) returns (es: seq<Event>)
    requires |store| == |data| < 4
    ensures Runs(NewPair(store), es) && After(NewPair(store), es) == Overfull(data)
    ensures var s := Overfull(data);
      && Calm(s) && s.readers[0] == BeginRead(|data| + 1, true) && s.writers[0] == BeginWrite([0], true)
      && PairRun(Lap()) && Runs(s, Lap()) && After(s, Lap()) == s
  {
    es := ReachesStart(store, data);
    JammedCycles(Overfull(data), false, false);
    assert At(Overfull(data), START) == Overfull(data);
  }

  /** They do so after some run from creation. */
  ghost predicate ReachesCycle(s: System, lead: seq<Event>, es: seq<Event>, size: nat) {
    Initial(s) && Runs(s, lead) && Cycles(After(s, lead), es, size)
  }

  /**
   Two unlimited calls can go round in circles exactly when the ring is smaller than a word, and if they can at
   all they can from creation on.
   */
  lemma CyclesOnlyBelowFour(size: nat)
    ensures (exists s: System, es: seq<Event> :: Cycles(s, es, size)) <==> size < 4
    ensures (exists s: System, lead: seq<Event>, es: seq<Event> :: ReachesCycle(s, lead, es, size)) <==> size < 4
  {
    if size < 4 {
      var store := seq(size, _ => 0);
      var lead := TinyRingLivelock(store, store);
      assert Cycles(Overfull(store), Lap(), size);
      assert ReachesCycle(NewPair(store), lead, Lap(), size);
    } else {
      forall s: System, es: seq<Event> | Cycles(s, es, size)
        ensures false
      {
        EveryPairRunEnds(s, es);
      }
    }
  }
}
