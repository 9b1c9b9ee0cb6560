/**
 The two guards compared.  Guarded by free space the queue can be shut for good; guarded by filled bytes it
 cannot, and no read waits.
 */
module AudioGuards {
  import opened Bytes
  import opened Tasks
  import opened TaskSystem
  import opened Stability
  import opened AudioQueue
  import opened AudioTraffic

  /** What one packet carries at most. */
  const PACKET_BYTES: nat := 512

  // ---------- guarded by free space ----------

  predicate NoReadInProgress(s: System) {
    forall i :: 0 <= i < |s.readers| ==> s.readers[i].pc.ReadReturned?
  }

  /** No read is in progress and the free space is below the read size. */
  predicate Absorbed(s: System, d: nat)
    requires s.shared.ring.fill <= s.shared.ring.Size()
  {
    s.shared.ring.Free() < d && NoReadInProgress(s)
  }

  lemma StaysAbsorbed(s: System, d: nat, a: AudioEvent)
    requires WellFormed(s) && AudioEnabled(s, a) && Absorbed(s, d)
    ensures var s' := AudioApply(s, ByFreeSpace, d, a);
      && Absorbed(s', d)
      && s'.delivered == s.delivered
      && s'.shared.ring.Size() == s.shared.ring.Size()
      && s'.shared.ring.fill - s.shared.ring.fill == |s'.accepted| - |s.accepted| >= 0
      && (a.ReadAudio? ==> s'.shared == s.shared && s'.readers[a.i].Result() == 0)
  {
    match a
    case Step(e) => WriterStepConserves(s.shared, s.writers[e.i]);
    case _ =>
  }

  /** Every `read_audio` of the run returns 0 at once and touches nothing. */
  ghost predicate AllRefused(s: System, d: nat, events: seq<AudioEvent>)
    requires WellFormed(s) && AudioRuns(s, ByFreeSpace, d, events)
    decreases |events|
  {
    events == [] ||
    var a := events[0];
    var s' := AudioApply(s, ByFreeSpace, d, a);
    && (a.ReadAudio? ==>
          s'.shared == s.shared && s'.readers[a.i].pc.ReadReturned? && s'.readers[a.i].Result() == 0)
    && AllRefused(s', d, events[1..])
  }

  /**
   Once absorbed the queue is dead: over any further use every `read_audio` returns 0, nothing
   is ever delivered again, the ring never gets emptier, and at most the bytes that were free
   are still accepted.
   */
  lemma {:induction false} AbsorbedForever(s: System, d: nat, events: seq<AudioEvent>)
    requires WellFormed(s) && AudioRuns(s, ByFreeSpace, d, events) && Absorbed(s, d)
    ensures AllRefused(s, d, events)
    ensures var s' := AudioAfter(s, ByFreeSpace, d, events);
      && Absorbed(s', d)
      && s'.delivered == s.delivered
      && s'.shared.ring.Size() == s.shared.ring.Size()
      && s'.shared.ring.fill - s.shared.ring.fill == |s'.accepted| - |s.accepted|
      && |s.accepted| <= |s'.accepted| <= |s.accepted| + s.shared.ring.Free()
    decreases |events|
  {
    if events != [] {
      StaysAbsorbed(s, d, events[0]);
      AbsorbedForever(AudioApply(s, ByFreeSpace, d, events[0]), d, events[1..]);
    }
  }

  /**
   Over every use of the queue that ends with no read in progress: it is dead exactly if what was accepted exceeds
   what was delivered by more than `size - d` bytes, and then nothing more is delivered, in any further use.
   */
  lemma DeadByBacklog(s: System, d: nat, events: seq<AudioEvent>, further: seq<AudioEvent>)
    requires Initial(s) && AudioRuns(s, ByFreeSpace, d, events)
    requires NoReadInProgress(AudioAfter(s, ByFreeSpace, d, events))
    ensures var s' := AudioAfter(s, ByFreeSpace, d, events);
      && (Absorbed(s', d) <==> s.shared.ring.Size() + |s'.delivered| < |s'.accepted| + d)
      && (Absorbed(s', d) && AudioRuns(s', ByFreeSpace, d, further) ==>
            AllRefused(s', d, further) && AudioAfter(s', ByFreeSpace, d, further).delivered == s'.delivered)
  {
    assert s.shared.ring.Contents() == [];
    AudioConserves(s, ByFreeSpace, d, events);
    var s' := AudioAfter(s, ByFreeSpace, d, events);
    assert |s'.accepted| == |s'.delivered| + s'.shared.ring.fill;
    if Absorbed(s', d) && AudioRuns(s', ByFreeSpace, d, further) {
      AbsorbedForever(s', d, further);
    }
  }

  ghost predicate NoReads(events: seq<AudioEvent>) {
    forall k :: 0 <= k < |events| ==> !events[k].ReadAudio?
  }

  lemma {:induction false} NothingRead(s: System, g: Guard, d: nat, events: seq<AudioEvent>)
    requires WellFormed(s) && NoReadInProgress(s) && AudioRuns(s, g, d, events) && NoReads(events)
    ensures NoReadInProgress(AudioAfter(s, g, d, events))
    ensures AudioAfter(s, g, d, events).delivered == s.delivered
    decreases |events|
  {
    if events != [] {
      NothingRead(AudioApply(s, g, d, events[0]), g, d, events[1..]);
    }
  }

  /** In particular before the first read: more than `size - d` bytes accepted by then, by any number of writes. */
  lemma DeadBeforeFirstRead(s: System, d: nat, events: seq<AudioEvent>, further: seq<AudioEvent>)
    requires Initial(s) && AudioRuns(s, ByFreeSpace, d, events) && NoReads(events)
    ensures var s' := AudioAfter(s, ByFreeSpace, d, events);
      && (Absorbed(s', d) <==> s.shared.ring.Size() < |s'.accepted| + d)
      && (Absorbed(s', d) && AudioRuns(s', ByFreeSpace, d, further) ==>
            AllRefused(s', d, further) && AudioAfter(s', ByFreeSpace, d, further).delivered == [])
  {
    NothingRead(s, ByFreeSpace, d, events);
    DeadByBacklog(s, d, events, further);
  }

  lemma DeadByVolume(s: System, d: nat, events: seq<AudioEvent>, further: seq<AudioEvent>)
    requires Initial(s) && AudioRuns(s, ByFreeSpace, d, events) && NoReads(events)
    requires s.shared.ring.Size() < |AudioAfter(s, ByFreeSpace, d, events).accepted| + d
    ensures var s' := AudioAfter(s, ByFreeSpace, d, events);
      AudioRuns(s', ByFreeSpace, d, further) ==>
        AllRefused(s', d, further) && AudioAfter(s', ByFreeSpace, d, further).delivered == []
  {
    DeadBeforeFirstRead(s, d, events, further);
  }

  lemma SizesOfTheDevice()
    ensures POINTER_BYTES * RINGBUFFER_SIZE == 32768 && SEND_BYTES == 1920 && PACKET_BYTES == 512
  {
  }

  /** With the device's sizes, 32768 bytes of ring and reads of 1920: more than 30848 bytes before the first read. */
  lemma DeviceSizes(s: System, d: nat, events: seq<AudioEvent>, further: seq<AudioEvent>)
    requires Initial(s) && s.shared.ring.Size() == POINTER_BYTES * RINGBUFFER_SIZE && d == SEND_BYTES
    requires AudioRuns(s, ByFreeSpace, d, events) && NoReads(events)
    requires 30848 < |AudioAfter(s, ByFreeSpace, d, events).accepted|
    ensures var s' := AudioAfter(s, ByFreeSpace, d, events);
      AudioRuns(s', ByFreeSpace, d, further) ==>
        AllRefused(s', d, further) && AudioAfter(s', ByFreeSpace, d, further).delivered == []
  {
    SizesOfTheDevice();
    DeadByVolume(s, d, events, further);
  }

  /** One `write_audio` for each packet, each finished before the next. */
  function PacketEvents(packets: seq<seq<byte>>): (events: seq<AudioEvent>)
    ensures NoReads(events)
  {
    if packets == [] then []
    else
      [WriteAudio(0, packets[0]), Step(WriterMove(0)), Step(WriterMove(0))] + PacketEvents(packets[1..])
  }

  function Total(packets: seq<seq<byte>>): nat {
    if packets == [] then 0 else |packets[0]| + Total(packets[1..])
  }

  /** The writing task of slot 0 is idle. */
  predicate WriterIdle(s: System) {
    |s.writers| > 0 && s.writers[0].pc.WriteReturned?
  }

  /** A packet that fits is written in two steps. */
  lemma PacketIsPlaced(s: System, packet: seq<byte>)
    requires WellFormed(s) && WriterIdle(s) && 0 < |packet| <= s.shared.ring.Free()
    ensures var s1 := Apply(s, StartWrite(0, packet, true));
      && Enabled(s1, WriterMove(0))
      && var s2 := MoveWriter(s1, 0);
      && Enabled(s2, WriterMove(0))
      && var s3 := MoveWriter(s2, 0);
      && WriterIdle(s3)
      && s3.readers == s.readers && s3.delivered == s.delivered && s3.accepted == s.accepted + packet
      && s3.shared.ring.Size() == s.shared.ring.Size() && s3.shared.ring.fill == s.shared.ring.fill + |packet|
  {
    var s1 := Apply(s, StartWrite(0, packet, true));
    WriterStepConserves(s1.shared, s1.writers[0]);
    assert packet[..|packet|] == packet && ([] + packet)[0..] == packet;
    var s2 := MoveWriter(s1, 0);
    assert s2.accepted == s.accepted + packet;
    assert s2.writers[0].put[|s2.writers[0].put|..] == [];
    WriterStepConserves(s2.shared, s2.writers[0]);
  }

  lemma PrependThree(s: System, g: Guard, d: nat, a: seq<AudioEvent>, s1: System, s2: System, s3: System,
                     rest: seq<AudioEvent>)
    requires WellFormed(s) && |a| == 3 && AudioEnabled(s, a[0]) && s1 == AudioApply(s, g, d, a[0])
    requires AudioEnabled(s1, a[1]) && s2 == AudioApply(s1, g, d, a[1])
    requires AudioEnabled(s2, a[2]) && s3 == AudioApply(s2, g, d, a[2]) && AudioRuns(s3, g, d, rest)
    ensures AudioRuns(s, g, d, a + rest) && AudioAfter(s, g, d, a + rest) == AudioAfter(s3, g, d, rest)
  {
    var one, two, three := [a[2]] + rest, [a[1], a[2]] + rest, a + rest;
    AudioPrepend(s2, g, d, a[2], s3, rest, one);
    assert two[1..] == one && three[1..] == two;
    AudioPrepend(s1, g, d, a[1], s2, one, two);
    AudioPrepend(s, g, d, a[0], s1, two, three);
  }

  lemma OnePacket(s: System, g: Guard, d: nat, packet: seq<byte>, rest: seq<AudioEvent>) returns (s': System)
    requires WellFormed(s) && WriterIdle(s) && 0 < |packet| <= s.shared.ring.Free()
    ensures WellFormed(s') && WriterIdle(s')
    ensures s'.readers == s.readers && s'.delivered == s.delivered && s'.accepted == s.accepted + packet
    ensures s'.shared.ring.Size() == s.shared.ring.Size() && s'.shared.ring.fill == s.shared.ring.fill + |packet|
    ensures AudioRuns(s', g, d, rest) ==>
      var events := [WriteAudio(0, packet), Step(WriterMove(0)), Step(WriterMove(0))] + rest;
      AudioRuns(s, g, d, events) && AudioAfter(s, g, d, events) == AudioAfter(s', g, d, rest)
  {
    PacketIsPlaced(s, packet);
    var a, w := WriteAudio(0, packet), Step(WriterMove(0));
    var s1 := AudioApply(s, g, d, a);
    var s2 := AudioApply(s1, g, d, w);
    s' := AudioApply(s2, g, d, w);
    if AudioRuns(s', g, d, rest) {
      PrependThree(s, g, d, [a, w, w], s1, s2, s', rest);
    }
  }

  lemma {:induction false} PacketsRun(s: System, g: Guard, d: nat, packets: seq<seq<byte>>)
    requires WellFormed(s) && WriterIdle(s)
    requires (forall k :: 0 <= k < |packets| ==> packets[k] != []) && Total(packets) <= s.shared.ring.Free()
    ensures AudioRuns(s, g, d, PacketEvents(packets))
    ensures |AudioAfter(s, g, d, PacketEvents(packets)).accepted| == |s.accepted| + Total(packets)
    decreases |packets|
  {
    if packets != [] {
      var s' := OnePacket(s, g, d, packets[0], PacketEvents(packets[1..]));
      PacketsRun(s', g, d, packets[1..]);
    }
  }

  /** Packets of the size that the network task receives can bring that about: 61 full ones, for example. */
  lemma PacketsShutTheDevice(s: System, d: nat, packets: seq<seq<byte>>, further: seq<AudioEvent>)
    requires Initial(s) && s.shared.ring.Size() == POINTER_BYTES * RINGBUFFER_SIZE && d == SEND_BYTES
    requires |s.writers| > 0 && forall k :: 0 <= k < |packets| ==> 0 < |packets[k]| <= PACKET_BYTES
    requires 30848 < Total(packets) <= 32768
    ensures AudioRuns(s, ByFreeSpace, d, PacketEvents(packets))
    ensures var s' := AudioAfter(s, ByFreeSpace, d, PacketEvents(packets));
      AudioRuns(s', ByFreeSpace, d, further) ==>
        AllRefused(s', d, further) && AudioAfter(s', ByFreeSpace, d, further).delivered == []
  {
    PacketsRun(s, ByFreeSpace, d, packets);
    DeviceSizes(s, d, PacketEvents(packets), further);
  }

  // ---------- guarded by filled bytes ----------

  /** A lone read that will find its demand, or has it, or is over. */
  ghost predicate Fed(s: System)
    requires |s.readers| == 1
  {
    var t := s.readers[0];
    || t.pc.ReadFinish? || t.pc.ClearUnblock? || t.pc.ReadReturned?
    || (t.pc.ReadSection? && t.remaining <= s.shared.ring.fill)
  }

  lemma FedDespite(s: System, d: nat, a: AudioEvent)
    requires WellFormed(s) && |s.readers| == 1 && AudioEnabled(s, a) && Fed(s)
    ensures |AudioApply(s, ByFilledBytes, d, a).readers| == 1 && Fed(AudioApply(s, ByFilledBytes, d, a))
  {
    match a
    case Step(e) => if e.WriterMove? { WriterStepConserves(s.shared, s.writers[e.i]); }
    case _ =>
  }

  lemma {:induction false} FedRun(s: System, d: nat, events: seq<AudioEvent>)
    requires WellFormed(s) && AudioRuns(s, ByFilledBytes, d, events) && |s.readers| == 1 && Fed(s)
    ensures |AudioAfter(s, ByFilledBytes, d, events).readers| == 1 && Fed(AudioAfter(s, ByFilledBytes, d, events))
    decreases |events|
  {
    if events != [] {
      FedDespite(s, d, events[0]);
      FedRun(AudioApply(s, ByFilledBytes, d, events[0]), d, events[1..]);
    }
  }

  /** In every run the lone reader never waits: it is always idle or able to take its next step. */
  lemma FilledGuardNeverWaits(s: System, d: nat, events: seq<AudioEvent>)
    requires Initial(s) && |s.readers| == 1 && AudioRuns(s, ByFilledBytes, d, events)
    ensures var s' := AudioAfter(s, ByFilledBytes, d, events);
      && |s'.readers| == 1 && !s'.readers[0].Committed()
      && (s'.readers[0].pc.ReadReturned? || ReaderEnabled(s'.shared, s'.readers[0]))
  {
    FedRun(s, d, events);
  }

  lemma ServedDespiteAudio(s: System, d: nat, t: Reader, want: seq<byte>, a: AudioEvent)
    requires WellFormed(s) && |s.readers| == 1 && AudioEnabled(s, a) && !a.ReadAudio?
    requires t.pc.ReadSection? && |want| == t.remaining > 0 && Served(s, t, want)
    ensures var s' := AudioApply(s, ByFilledBytes, d, a); |s'.readers| == 1 && Served(s', t, want)
  {
    match a
    case Step(e) => ServedDespite(s, t, want, e);
    case WriteAudio(i, data) => ServedDespite(s, t, want, StartWrite(i, data, true));
  }

  lemma {:induction false} ServedRun(s: System, d: nat, events: seq<AudioEvent>, t: Reader, want: seq<byte>)
    requires WellFormed(s) && AudioRuns(s, ByFilledBytes, d, events) && NoReads(events) && |s.readers| == 1
    requires t.pc.ReadSection? && |want| == t.remaining > 0 && Served(s, t, want)
    ensures var s' := AudioAfter(s, ByFilledBytes, d, events); |s'.readers| == 1 && Served(s', t, want)
    decreases |events|
  {
    if events != [] {
      ServedDespiteAudio(s, d, t, want, events[0]);
      ServedRun(AudioApply(s, ByFilledBytes, d, events[0]), d, events[1..], t, want);
    }
  }

  /**
   From every state with an idle reader and `d` bytes queued the next read gets the head of the queue, all of it:
   in every interleaving with the writers if it returns, and it can return, in three steps of its own.
   */
  lemma NextReadDelivers(s: System, d: nat, further: seq<AudioEvent>)
    requires WellFormed(s) && |s.readers| == 1 && s.readers[0].pc.ReadReturned? && 0 < d <= s.shared.ring.fill
    ensures var head, s1 := s.shared.ring.Contents()[..d], AudioApply(s, ByFilledBytes, d, ReadAudio(0));
      && (AudioRuns(s1, ByFilledBytes, d, further) && NoReads(further) ==>
            var s' := AudioAfter(s1, ByFilledBytes, d, further);
            && |s'.readers| == 1 && !s'.readers[0].Committed()
            && (s'.readers[0].pc.ReadReturned? ==> s'.readers[0].Result() == d && s'.readers[0].got == head))
      && var r := Step(ReaderMove(0));
      && AudioRuns(s1, ByFilledBytes, d, [r, r, r])
      && AudioAfter(s1, ByFilledBytes, d, [r, r, r]).delivered == s.delivered + head
  {
    var s1 := AudioApply(s, ByFilledBytes, d, ReadAudio(0));
    var t, head := s1.readers[0], s.shared.ring.Contents()[..d];
    HeadIsTaken(s1, ByFilledBytes, d);
    if AudioRuns(s1, ByFilledBytes, d, further) && NoReads(further) {
      ServedRun(s1, d, further, t, head);
      assert t.got + head == head;
    }
  }

  lemma ReadsOnce(s: System, d: nat)
    requires WellFormed(s) && |s.readers| == 1 && s.readers[0].pc.ReadReturned? && 0 < d <= s.shared.ring.fill
    ensures var r := Step(ReaderMove(0)); var events := [ReadAudio(0), r, r, r];
      && AudioRuns(s, ByFilledBytes, d, events)
      && |AudioAfter(s, ByFilledBytes, d, events).delivered| == |s.delivered| + d
  {
    var r, s1 := Step(ReaderMove(0)), AudioApply(s, ByFilledBytes, d, ReadAudio(0));
    HeadIsTaken(s1, ByFilledBytes, d);
    AudioPrepend(s, ByFilledBytes, d, ReadAudio(0), s1, [r, r, r], [ReadAudio(0), r, r, r]);
  }

  /**
   The queue is never shut: whenever both tasks are idle, if the ring can hold `d` bytes at all, a write of what is
   missing and a read deliver `d` bytes.
   */
  lemma NeverShut(s: System, d: nat) returns (events: seq<AudioEvent>)
    requires WellFormed(s) && |s.readers| == 1 && s.readers[0].pc.ReadReturned? && WriterIdle(s)
    requires 0 < d <= s.shared.ring.Size()
    ensures AudioRuns(s, ByFilledBytes, d, events)
    ensures |AudioAfter(s, ByFilledBytes, d, events).delivered| == |s.delivered| + d
  {
    var r, g := Step(ReaderMove(0)), ByFilledBytes;
    if d <= s.shared.ring.fill {
      ReadsOnce(s, d);
      events := [ReadAudio(0), r, r, r];
    } else {
      var missing := seq(d - s.shared.ring.fill, _ => 0);
      var rest := [ReadAudio(0), r, r, r];
      var s' := OnePacket(s, g, d, missing, rest);
      ReadsOnce(s', d);
      events := [WriteAudio(0, missing), Step(WriterMove(0)), Step(WriterMove(0))] + rest;
    }
  }

  /** A use of the queue, with the program's guard, that delivers something. */
  ghost predicate Revives(s: System, d: nat, events: seq<AudioEvent>)
    requires WellFormed(s)
  {
    && AudioRuns(s, ByFreeSpace, d, events)
    && |AudioAfter(s, ByFreeSpace, d, events).delivered| > |s.delivered|
  }

  /** With the program's guard it is shut exactly when the free space is below the read size. */
  lemma ShutWhenTooFull(s: System, d: nat)
    requires WellFormed(s) && |s.readers| == 1 && s.readers[0].pc.ReadReturned? && WriterIdle(s)
    requires 0 < d
    ensures (exists events :: Revives(s, d, events)) <==> d <= s.shared.ring.Free()
  {
    if d <= s.shared.ring.Free() {
      var events := Revival(s, d);
    } else {
      forall events | Revives(s, d, events)
        ensures false
      {
        AbsorbedForever(s, d, events);
      }
    }
  }

  lemma Revival(s: System, d: nat) returns (events: seq<AudioEvent>)
    requires WellFormed(s) && |s.readers| == 1 && s.readers[0].pc.ReadReturned? && WriterIdle(s)
    requires 0 < d <= s.shared.ring.Free()
    ensures Revives(s, d, events)
  {
    var r, g := Step(ReaderMove(0)), ByFreeSpace;
    var s1 := AudioApply(s, g, d, ReadAudio(0));
    var data := seq(d, _ => 0);
    var s2 := OnePacket(s1, g, d, data, [r, r, r]);
    HeadIsTaken(s2, g, d);
    var rest := [WriteAudio(0, data), Step(WriterMove(0)), Step(WriterMove(0))] + [r, r, r];
    events := [ReadAudio(0)] + rest;
    AudioPrepend(s, g, d, ReadAudio(0), s1, rest, events);
  }

  /** So after any use that leaves both tasks idle, the queue can still deliver exactly while the backlog is small. */
  lemma ShutByBacklog(s0: System, d: nat, events: seq<AudioEvent>)
    requires Initial(s0) && AudioRuns(s0, ByFreeSpace, d, events) && 0 < d
    requires BothIdle(AudioAfter(s0, ByFreeSpace, d, events))
    ensures var s := AudioAfter(s0, ByFreeSpace, d, events);
      (exists further :: Revives(s, d, further)) <==> |s.accepted| + d <= s0.shared.ring.Size() + |s.delivered|
  {
    assert s0.shared.ring.Contents() == [];
    AudioConserves(s0, ByFreeSpace, d, events);
    var s := AudioAfter(s0, ByFreeSpace, d, events);
    assert |s.accepted| == |s.delivered| + s.shared.ring.fill;
    ShutWhenTooFull(s, d);
  }
}
