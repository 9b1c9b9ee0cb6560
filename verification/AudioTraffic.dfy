/**
 Whole runs of the audio queue: reading, writing and output tasks that use it only through `read_audio` and
 `write_audio`, interleaved step by step.
 */
module AudioTraffic {
  import opened Bytes
  import opened CircularStore
  import opened Tasks
  import opened TaskSystem
  import opened Wakeup
  import opened Alignment
  import opened RingBuffers
  import opened AudioQueue
  import SoloRuns
  import Pair

  /** What a read asks of the ring before it starts: free space, as the program has it, or filled bytes. */
  datatype Guard = ByFreeSpace | ByFilledBytes

  predicate Admits(g: Guard, ring: Ring, d: nat)
    requires ring.fill <= |ring.store|
  {
    match g
    case ByFreeSpace => d <= ring.Free()
    case ByFilledBytes => d <= ring.fill
  }

  /** The two calls of the queue; calls in progress take their steps. */
  datatype AudioEvent =
    | ReadAudio(i: nat)
    | WriteAudio(i: nat, data: seq<byte>)
    | Step(e: Event)

  /** A call that the guard turned away: it returns 0. */
  const REFUSED: Reader := Reader(ReadReturned, 0, [], true, 0)

  predicate AudioEnabled(s: System, a: AudioEvent) {
    match a
    case ReadAudio(i) => i < |s.readers| && s.readers[i].pc.ReadReturned?
    case WriteAudio(i, data) => Enabled(s, StartWrite(i, data, true))
    case Step(e) => (e.ReaderMove? || e.WriterMove?) && Enabled(s, e)
  }

  /**
   All reads ask for the same `d`, as the output loop does.  Guard and start of a read are one event: the start
   touches nothing shared, so a write between the two is a write right after both.
   */
  function AudioApply(s: System, g: Guard, d: nat, a: AudioEvent): (s': System)
    requires WellFormed(s) && AudioEnabled(s, a)
    ensures WellFormed(s')
  {
    match a
    case ReadAudio(i) =>
      if Admits(g, s.shared.ring, d) then Apply(s, StartRead(i, d, true))
      else s.(readers := s.readers[i := REFUSED])
    case WriteAudio(i, data) => Apply(s, StartWrite(i, data, true))
    case Step(e) => Apply(s, e)
  }

  ghost predicate AudioRuns(s: System, g: Guard, d: nat, events: seq<AudioEvent>)
    requires WellFormed(s)
    decreases |events|
  {
    events == [] ||
    (AudioEnabled(s, events[0]) && AudioRuns(AudioApply(s, g, d, events[0]), g, d, events[1..]))
  }

  function AudioAfter(s: System, g: Guard, d: nat, events: seq<AudioEvent>): (s': System)
    requires WellFormed(s) && AudioRuns(s, g, d, events)
    ensures WellFormed(s')
    decreases |events|
  {
    if events == [] then s else AudioAfter(AudioApply(s, g, d, events[0]), g, d, events[1..])
  }

  lemma AudioPrepend(s: System, g: Guard, d: nat, a: AudioEvent, s': System, events: seq<AudioEvent>,
                     all: seq<AudioEvent>)
    requires WellFormed(s) && AudioEnabled(s, a) && s' == AudioApply(s, g, d, a) && AudioRuns(s', g, d, events)
    requires |all| > 0 && all[0] == a && all[1..] == events
    ensures AudioRuns(s, g, d, all) && AudioAfter(s, g, d, all) == AudioAfter(s', g, d, events)
  {
  }

  /** Steps of calls in progress, as events of the queue. */
  function Steps(es: seq<Event>): (events: seq<AudioEvent>)
    ensures |events| == |es| && forall k :: 0 <= k < |es| ==> events[k] == Step(es[k])
  {
    seq(|es|, k requires 0 <= k < |es| => Step(es[k]))
  }

  lemma {:induction false} StepsRun(s: System, g: Guard, d: nat, es: seq<Event>)
    requires WellFormed(s) && Runs(s, es)
    requires forall k :: 0 <= k < |es| ==> es[k].ReaderMove? || es[k].WriterMove?
    ensures AudioRuns(s, g, d, Steps(es)) && AudioAfter(s, g, d, Steps(es)) == After(s, es)
    decreases |es|
  {
    if es != [] {
      assert Steps(es)[1..] == Steps(es[1..]);
      StepsRun(Apply(s, es[0]), g, d, es[1..]);
    }
  }

  /** The call that the class makes with no other task at work is one run of the queue. */
  lemma ReadAudioIsARun(s: System, d: nat, i: nat) returns (es: seq<Event>)
    requires WellFormed(s) && AudioEnabled(s, ReadAudio(i))
    ensures forall k :: 0 <= k < |es| ==> es[k] == ReaderMove(i)
    ensures var events := [ReadAudio(i)] + Steps(es);
      && AudioRuns(s, ByFreeSpace, d, events)
      && var s' := AudioAfter(s, ByFreeSpace, d, events);
      && i < |s'.readers| && ReadOutcome(s'.readers[i]) == ReadAudioAlone(s.shared, d)
  {
    var s1 := AudioApply(s, ByFreeSpace, d, ReadAudio(i));
    es := [];
    if Admits(ByFreeSpace, s.shared.ring, d) {
      es := SoloRuns.SoloReadIsARun(s1, i);
    }
    StepsRun(s1, ByFreeSpace, d, es);
    AudioPrepend(s, ByFreeSpace, d, ReadAudio(i), s1, Steps(es), [ReadAudio(i)] + Steps(es));
  }

  lemma AudioApplyConserves(s: System, g: Guard, d: nat, a: AudioEvent)
    requires WellFormed(s) && AudioEnabled(s, a) && Conserved(s)
    ensures Conserved(AudioApply(s, g, d, a))
    ensures AudioApply(s, g, d, a).shared.ring.Size() == s.shared.ring.Size()
  {
    match a
    case Step(e) => ApplyConserves(s, e);
    case _ =>
  }

  /** First in, first out, over every run of the queue. */
  lemma {:induction false} AudioConserves(s: System, g: Guard, d: nat, events: seq<AudioEvent>)
    requires WellFormed(s) && AudioRuns(s, g, d, events) && Conserved(s)
    ensures Conserved(AudioAfter(s, g, d, events))
    ensures AudioAfter(s, g, d, events).shared.ring.Size() == s.shared.ring.Size()
    decreases |events|
  {
    if events != [] {
      AudioApplyConserves(s, g, d, events[0]);
      AudioConserves(AudioApply(s, g, d, events[0]), g, d, events[1..]);
    }
  }

  // ---------- calls return all or nothing ----------

  /** No flag is ever set: the queue makes no control call. */
  predicate NoControls(s: System) {
    !s.shared.done && !s.shared.abortRead && !s.shared.abortWrite && !s.shared.unblock && s.pending == multiset{}
  }

  /** A read of `d` bytes on its way to all of them, or one that was turned away. */
  predicate WholeRead(t: Reader, d: nat) {
    && t.ret == 0 && (t.forever || t.pc.ReadReturned?)
    && (|t.got| + t.remaining == d || (t.pc.ReadReturned? && t.got == []))
  }

  predicate WholeWrite(u: Writer) {
    u.ret == 0 && (u.forever || u.pc.WriteReturned?)
  }

  ghost predicate Whole(s: System, d: nat) {
    && WellFormed(s) && NoControls(s)
    && (forall i :: 0 <= i < |s.readers| ==> WholeRead(s.readers[i], d))
    && (forall i :: 0 <= i < |s.writers| ==> WholeWrite(s.writers[i]))
  }

  lemma WholeByRead(s: System, d: nat, i: nat)
    requires Whole(s, d) && i < |s.readers| && ReaderEnabled(s.shared, s.readers[i])
    ensures Whole(MoveReader(s, i), d)
  {
    ReaderKeepsFlags(s.shared, s.readers[i]);
    ReaderStepConserves(s.shared, s.readers[i]);
  }

  lemma WholeByWrite(s: System, d: nat, i: nat)
    requires Whole(s, d) && i < |s.writers| && WriterEnabled(s.shared, s.writers[i])
    ensures Whole(MoveWriter(s, i), d)
  {
    WriterKeepsFlags(s.shared, s.writers[i]);
  }

  lemma WholeDespite(s: System, g: Guard, d: nat, a: AudioEvent)
    requires Whole(s, d) && AudioEnabled(s, a)
    ensures Whole(AudioApply(s, g, d, a), d)
  {
    match a
    case Step(e) => if e.ReaderMove? { WholeByRead(s, d, e.i); } else { WholeByWrite(s, d, e.i); }
    case _ =>
  }

  lemma {:induction false} WholeRun(s: System, g: Guard, d: nat, events: seq<AudioEvent>)
    requires Whole(s, d) && AudioRuns(s, g, d, events)
    ensures Whole(AudioAfter(s, g, d, events), d)
    decreases |events|
  {
    if events != [] {
      WholeDespite(s, g, d, events[0]);
      WholeRun(AudioApply(s, g, d, events[0]), g, d, events[1..]);
    }
  }

  /** The data of the last `write_audio` in writer slot `i`, or what the slot held before the events. */
  function LastWritten(events: seq<AudioEvent>, i: nat, before: seq<byte>): seq<byte> {
    if events == [] then before
    else
      LastWritten(events[1..], i,
                  match events[0]
                  case WriteAudio(j, data) => if j == i then data else before
                  case _ => before)
  }

  lemma {:induction false} PlacedAndOpen(s: System, g: Guard, d: nat, events: seq<AudioEvent>, i: nat)
    requires WellFormed(s) && AudioRuns(s, g, d, events) && i < |s.writers|
    ensures |AudioAfter(s, g, d, events).writers| == |s.writers|
    ensures var u := AudioAfter(s, g, d, events).writers[i];
      u.put + u.rest == LastWritten(events, i, s.writers[i].put + s.writers[i].rest)
    decreases |events|
  {
    if events != [] {
      PlacedAndOpenNext(s, g, d, events[0], i);
      PlacedAndOpen(AudioApply(s, g, d, events[0]), g, d, events[1..], i);
    }
  }

  lemma PlacedAndOpenNext(s: System, g: Guard, d: nat, a: AudioEvent, i: nat)
    requires WellFormed(s) && AudioEnabled(s, a) && i < |s.writers|
    ensures |AudioApply(s, g, d, a).writers| == |s.writers|
    ensures var u, u' := s.writers[i], AudioApply(s, g, d, a).writers[i];
      u'.put + u'.rest == if a.WriteAudio? && a.i == i then a.data else u.put + u.rest
  {
    match a
    case Step(e) =>
      WriterSlot(s, e, i);
      if e == WriterMove(i) { WriterStepConserves(s.shared, s.writers[i]); }
    case WriteAudio(j, data) => assert [] + data == data;
    case ReadAudio(_) =>
  }

  /**
   With either guard and any number of tasks, in every run from creation: a `read_audio` that has returned gave
   all `d` bytes or none, and a `write_audio` that has returned placed exactly the data it was last called with.
   */
  lemma AllOrNothing(s: System, g: Guard, d: nat, events: seq<AudioEvent>, i: nat)
    requires Initial(s) && AudioRuns(s, g, d, events)
    ensures var s' := AudioAfter(s, g, d, events);
      && (i < |s'.readers| && s'.readers[i].pc.ReadReturned? ==>
            s'.readers[i].Result() in {0, d} && s'.readers[i].Result() == |s'.readers[i].got|)
      && |s'.writers| == |s.writers|
      && (i < |s'.writers| ==> s'.writers[i].put + s'.writers[i].rest == LastWritten(events, i, []))
      && (i < |s'.writers| && s'.writers[i].pc.WriteReturned? ==>
            && s'.writers[i].put == LastWritten(events, i, [])
            && s'.writers[i].Result() == |LastWritten(events, i, [])|)
  {
    WholeRun(s, g, d, events);
    WriterCount(s, g, d, events);
    if i < |s.writers| {
      assert s.writers[i].put + s.writers[i].rest == [];
      PlacedAndOpen(s, g, d, events, i);
      WholeWritten(AudioAfter(s, g, d, events).writers[i], LastWritten(events, i, []));
    }
  }

  lemma WholeWritten(u: Writer, data: seq<byte>)
    requires u.Coherent() && WholeWrite(u) && u.put + u.rest == data
    ensures u.pc.WriteReturned? ==> u.put == data && u.Result() == |data|
  {
    if u.pc.WriteReturned? { assert u.put + [] == u.put; }
  }

  lemma {:induction false} WriterCount(s: System, g: Guard, d: nat, events: seq<AudioEvent>)
    requires WellFormed(s) && AudioRuns(s, g, d, events)
    ensures |AudioAfter(s, g, d, events).writers| == |s.writers|
    decreases |events|
  {
    if events != [] {
      WriterCount(AudioApply(s, g, d, events[0]), g, d, events[1..]);
    }
  }

  // ---------- a read that has started ----------

  /** One reading and one writing task, no wake-up lost, partial reads on words, no read that the ring cannot hold. */
  ghost predicate Healthy(s: System, d: nat) {
    && Whole(s, d) && OneEach(s) && Wakeful(s) && WordsOrAll(s.readers[0])
    && s.readers[0].remaining <= s.shared.ring.Size()
  }

  lemma HealthyDespite(s: System, g: Guard, d: nat, a: AudioEvent)
    requires Healthy(s, d) && AudioEnabled(s, a)
    ensures Healthy(AudioApply(s, g, d, a), d)
    ensures AudioApply(s, g, d, a).shared.ring.Size() == s.shared.ring.Size()
  {
    WholeDespite(s, g, d, a);
    match a
    case Step(e) => HealthyByStep(s, d, e);
    case WriteAudio(i, data) => HealthyByStep(s, d, StartWrite(i, data, true));
    case ReadAudio(i) => if Admits(g, s.shared.ring, d) { HealthyByStep(s, d, StartRead(i, d, true)); }
  }

  lemma HealthyByStep(s: System, d: nat, e: Event)
    requires Healthy(s, d) && Enabled(s, e)
    requires e.ReaderMove? || e.WriterMove? || e.StartWrite? || (e.StartRead? && e.len <= s.shared.ring.Size())
    ensures OneEach(Apply(s, e)) && Wakeful(Apply(s, e)) && WordsOrAll(Apply(s, e).readers[0])
    ensures Apply(s, e).shared.ring.Size() == s.shared.ring.Size()
    ensures Apply(s, e).readers[0].remaining <= s.shared.ring.Size()
  {
    StepIsWakeful(s, e);
    WordsDespite(s, e, 0);
    ApplySize(s, e);
    ReaderSlot(s, e, 0);
    if e.ReaderMove? { ReaderStepConserves(s.shared, s.readers[0]); }
  }

  lemma {:induction false} HealthyRun(s: System, g: Guard, d: nat, events: seq<AudioEvent>)
    requires Healthy(s, d) && AudioRuns(s, g, d, events)
    ensures Healthy(AudioAfter(s, g, d, events), d)
    ensures AudioAfter(s, g, d, events).shared.ring.Size() == s.shared.ring.Size()
    decreases |events|
  {
    if events != [] {
      HealthyDespite(s, g, d, events[0]);
      HealthyRun(AudioApply(s, g, d, events[0]), g, d, events[1..]);
    }
  }

  /** A read of `d` bytes has the head of the stream if that is long enough, and otherwise sleeps with too little. */
  ghost predicate ServedFrom(stream: seq<byte>, d: nat, s: System)
    requires OneEach(s)
  {
    var t := s.readers[0];
    && (t.pc.ReadReturned? <==> d <= |stream|)
    && (t.pc.ReadReturned? ==> t.Result() == d && t.got == stream[..d])
    && (!t.pc.ReadReturned? ==> s.writers[0].pc.WriteReturned? && |t.got| + s.shared.ring.fill < d)
  }

  /**
   After any use of the queue by one reader and one writer, in a ring of any size, let the calls in progress go
   on, in any order, until neither can: that takes boundedly many steps.  A read that was in progress has then
   delivered the head of what it had taken, what was queued and what the writer was placing, if that was `d` bytes
   or more, whatever the fill; otherwise it sleeps, the writer has returned, and fewer than `d` bytes have come.
   */
  lemma StartedReadDelivers(s0: System, g: Guard, d: nat, events: seq<AudioEvent>, es: seq<Event>)
    requires Initial(s0) && |s0.readers| == 1 && |s0.writers| == 1 && AudioRuns(s0, g, d, events)
    ensures var s := AudioAfter(s0, g, d, events);
      && OneEach(s)
      && (!s.readers[0].pc.ReadReturned? && Runs(s, es) && Pair.PairRun(es) ==>
            && OneEach(After(s, es)) && |es| <= Pair.Measure(s)
            && (Pair.Settled(After(s, es)) ==>
                  var stream, s' := Pair.Stream(s), After(s, es);
                  && ServedFrom(stream, d, s')
                  && if d <= |stream| then s'.readers[0].Result() == d && s'.readers[0].got == stream[..d]
                     else s'.writers[0].pc.WriteReturned? && |s'.readers[0].got| + s'.shared.ring.fill < d))
  {
    var s := AudioAfter(s0, g, d, events);
    HealthyRun(s0, g, d, events);
    if !s.readers[0].pc.ReadReturned? && Runs(s, es) && Pair.PairRun(es) {
      StartedReadSettles(s, d, es);
    }
  }

  lemma HealthyIsCalm(s: System, d: nat)
    requires Healthy(s, d)
    ensures Pair.Calm(s) && Pair.Fits(s)
    ensures !s.readers[0].pc.ReadReturned? ==> Pair.Demand(s) == d
  {
  }

  lemma StartedReadSettles(s: System, d: nat, es: seq<Event>)
    requires Healthy(s, d) && !s.readers[0].pc.ReadReturned?
    requires Runs(s, es) && Pair.PairRun(es)
    ensures OneEach(After(s, es)) && |es| <= Pair.Measure(s)
    ensures Pair.Settled(After(s, es)) ==> ServedFrom(Pair.Stream(s), d, After(s, es))
  {
    HealthyIsCalm(s, d);
    Pair.EveryPairRunEnds(s, es);
    Pair.PairRunKeepsStream(s, es);
    if Pair.Settled(After(s, es)) {
      Pair.SettledOutcome(After(s, es));
      WholeShare(After(s, es), Pair.Stream(s), d);
    }
  }

  /** What the division of the stream says about one read of `d` bytes. */
  lemma WholeShare(s: System, stream: seq<byte>, d: nat)
    requires Pair.Calm(s) && Pair.Division(s, stream, d)
    ensures var t := s.readers[0];
      && (t.pc.ReadReturned? <==> d <= |stream|)
      && (t.pc.ReadReturned? ==> t.Result() == d && t.got == stream[..d])
      && (!t.pc.ReadReturned? ==> |t.got| + s.shared.ring.fill < d)
  {
  }

  lemma {:induction false} ReturnedStays(s: System, es: seq<Event>)
    requires OneEach(s) && s.readers[0].pc.ReadReturned? && Runs(s, es) && Pair.PairRun(es)
    ensures After(s, es).readers == s.readers
    decreases |es|
  {
    if es != [] {
      assert es[0] == WriterMove(0);
      ReturnedStays(Apply(s, es[0]), es[1..]);
    }
  }

  predicate BothIdle(s: System) {
    && |s.readers| == 1 && s.readers[0].pc.ReadReturned?
    && |s.writers| == 1 && s.writers[0].pc.WriteReturned?
  }

  /** A read and a write begin, the read first. */
  function ReadAndWrite(s: System, g: Guard, d: nat, data: seq<byte>): (s': System)
    requires WellFormed(s) && BothIdle(s)
    ensures OneEach(s')
  {
    AudioApply(AudioApply(s, g, d, ReadAudio(0)), g, d, WriteAudio(0, data))
  }

  /** The read begun in `s` has delivered in `s'` exactly if its guard let it start and there was enough for it. */
  ghost predicate DeliveredIfDue(s: System, g: Guard, d: nat, data: seq<byte>, s': System)
    requires WellFormed(s) && |s'.readers| == 1
  {
    var t, q := s'.readers[0], s.shared.ring.Contents();
    && (t.pc.ReadReturned? && t.Result() == d <==> Admits(g, s.shared.ring, d) && d <= |q| + |data|)
    && (t.pc.ReadReturned? && t.Result() == d ==> t.got == (q + data)[..d])
  }

  lemma BothBegun(s: System, g: Guard, d: nat, data: seq<byte>)
    requires Healthy(s, d) && BothIdle(s)
    ensures var s2 := ReadAndWrite(s, g, d, data);
      && Healthy(s2, d) && s2.shared == s.shared
      && s2.readers[0] == (if Admits(g, s.shared.ring, d) then BeginRead(d, true) else REFUSED)
      && (Admits(g, s.shared.ring, d) ==> Pair.Stream(s2) == s.shared.ring.Contents() + data)
  {
    var s1 := AudioApply(s, g, d, ReadAudio(0));
    HealthyDespite(s, g, d, ReadAudio(0));
    HealthyDespite(s1, g, d, WriteAudio(0, data));
    assert [] + s.shared.ring.Contents() == s.shared.ring.Contents();
  }

  lemma ReadMeetsWriteFrom(s: System, g: Guard, d: nat, data: seq<byte>, es: seq<Event>)
    requires Healthy(s, d) && BothIdle(s) && 0 < d
    requires Runs(ReadAndWrite(s, g, d, data), es) && Pair.PairRun(es)
    ensures var begun := ReadAndWrite(s, g, d, data);
      && OneEach(After(begun, es)) && |es| <= Pair.Measure(begun)
      && (Pair.Settled(After(begun, es)) ==> DeliveredIfDue(s, g, d, data, After(begun, es)))
  {
    var begun := ReadAndWrite(s, g, d, data);
    BothBegun(s, g, d, data);
    if Admits(g, s.shared.ring, d) {
      StartedReadSettles(begun, d, es);
    } else {
      HealthyIsCalm(begun, d);
      Pair.EveryPairRunEnds(begun, es);
      ReturnedStays(begun, es);
    }
  }

  /**
   What a read comes to when a write follows it, from any state that the queue can get into with both tasks idle:
   in every interleaving of the two calls, which is finite, it delivers if and only if its guard lets it start and
   what is queued and written is enough.  With the program's guard it may find the ring empty, but not too full.
   */
  lemma ReadMeetsWrite(s0: System, g: Guard, d: nat, events: seq<AudioEvent>, data: seq<byte>, es: seq<Event>)
    requires Initial(s0) && |s0.readers| == 1 && |s0.writers| == 1 && 0 < d
    requires AudioRuns(s0, g, d, events) && BothIdle(AudioAfter(s0, g, d, events))
    ensures var s := AudioAfter(s0, g, d, events); var begun := ReadAndWrite(s, g, d, data);
      Runs(begun, es) && Pair.PairRun(es) ==>
        && OneEach(After(begun, es)) && |es| <= Pair.Measure(begun)
        && (Pair.Settled(After(begun, es)) ==> DeliveredIfDue(s, g, d, data, After(begun, es)))
  {
    var s := AudioAfter(s0, g, d, events);
    HealthyRun(s0, g, d, events);
    if Runs(ReadAndWrite(s, g, d, data), es) && Pair.PairRun(es) {
      ReadMeetsWriteFrom(s, g, d, data, es);
    }
  }

  /** A read that has all its bytes needs two more steps to return. */
  lemma ReadLeaves(s: System, g: Guard, d: nat)
    requires WellFormed(s) && |s.readers| == 1 && s.readers[0].pc.ReadFinish?
    ensures var r := Step(ReaderMove(0));
      && AudioRuns(s, g, d, [r, r])
      && var s' := AudioAfter(s, g, d, [r, r]);
      && s'.delivered == s.delivered && s'.shared.ring == s.shared.ring && s'.writers == s.writers
      && s'.readers == [s.readers[0].(pc := ReadReturned)]
  {
    var e := ReaderMove(0);
    assert s.readers[0].got[|s.readers[0].got|..] == [] && s.delivered + [] == s.delivered;
    var s1 := Apply(s, e);
    var s2 := Apply(s1, e);
    AudioPrepend(s1, g, d, Step(e), s2, [], [Step(e)]);
    AudioPrepend(s, g, d, Step(e), s1, [Step(e)], [Step(e), Step(e)]);
  }

  /** With enough bytes queued a read needs three steps of its own and gets the head of the queue. */
  lemma HeadIsTaken(s: System, g: Guard, d: nat)
    requires WellFormed(s) && |s.readers| == 1 && s.readers[0] == BeginRead(d, true) && 0 < d <= s.shared.ring.fill
    ensures var r := Step(ReaderMove(0));
      && AudioRuns(s, g, d, [r, r, r])
      && var s' := AudioAfter(s, g, d, [r, r, r]);
      && s'.delivered == s.delivered + s.shared.ring.Contents()[..d]
      && |s'.readers| == 1 && s'.readers[0].pc.ReadReturned? && s'.readers[0].Result() == d
  {
    var e := ReaderMove(0);
    TakenIsPrefix(s.shared.ring, d);
    var s1 := Apply(s, e);
    assert s1.readers[0].got[0..] == s1.readers[0].got == s.shared.ring.Contents()[..d];
    ReadLeaves(s1, g, d);
    AudioPrepend(s, g, d, Step(e), s1, [Step(e), Step(e)], [Step(e), Step(e), Step(e)]);
  }

  lemma PlacedThenTaken(s: System, d: nat, data: seq<byte>)
    requires OneEach(s) && s.shared.ring.Contents() == [] && 0 < d == |data| <= s.shared.ring.Size()
    requires s.readers[0] == BeginRead(d, true) && s.writers[0] == BeginWrite(data, true) && s.delivered == []
    ensures var r, w := Step(ReaderMove(0)), Step(WriterMove(0));
      && AudioRuns(s, ByFreeSpace, d, [w, r, r, r])
      && var s' := AudioAfter(s, ByFreeSpace, d, [w, r, r, r]);
      && s'.delivered == data
      && |s'.readers| == 1 && s'.readers[0].pc.ReadReturned? && s'.readers[0].Result() == d
  {
    var r, w := Step(ReaderMove(0)), Step(WriterMove(0));
    FilledIsAppended(s.shared.ring, data);
    assert data[..d] == data && [] + data == data;
    var s1 := Apply(s, WriterMove(0));
    assert s1.shared.ring.Contents() == data;
    HeadIsTaken(s1, ByFreeSpace, d);
    AudioPrepend(s, ByFreeSpace, d, w, s1, [r, r, r], [w, r, r, r]);
  }

  /** So a new ring of any size from `d` on delivers, below `2 * d` as well: the read starts, the write feeds it. */
  lemma NewRingDelivers(store: seq<byte>, data: seq<byte>)
    requires 0 < |data| <= |store|
    ensures var r, w := Step(ReaderMove(0)), Step(WriterMove(0));
      var s, events := Pair.NewPair(store), [ReadAudio(0), WriteAudio(0, data), w, r, r, r];
      && AudioRuns(s, ByFreeSpace, |data|, events)
      && var s' := AudioAfter(s, ByFreeSpace, |data|, events);
      && s'.delivered == data
      && |s'.readers| == 1 && s'.readers[0].pc.ReadReturned? && s'.readers[0].Result() == |data|
  {
    var r, w := Step(ReaderMove(0)), Step(WriterMove(0));
    var s, d, g := Pair.NewPair(store), |data|, ByFreeSpace;
    var s1 := AudioApply(s, g, d, ReadAudio(0));
    var s2 := AudioApply(s1, g, d, WriteAudio(0, data));
    PlacedThenTaken(s2, d, data);
    AudioPrepend(s1, g, d, WriteAudio(0, data), s2, [w, r, r, r], [WriteAudio(0, data), w, r, r, r]);
    AudioPrepend(s, g, d, ReadAudio(0), s1, [WriteAudio(0, data), w, r, r, r],
                 [ReadAudio(0), WriteAudio(0, data), w, r, r, r]);
  }
}
