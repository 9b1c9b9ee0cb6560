/** What `RB_DONE` says about the ring: when it means that nothing is left, and when it does not. */
module Drained {
  import opened Bytes
  import opened Chunks
  import opened CircularStore
  import opened Tasks
  import opened TaskSystem
  import opened Stability

  /** No byte is placed during the run. */
  ghost predicate NoWrites(es: seq<Event>) {
    forall k :: 0 <= k < |es| ==> !es[k].WriterMove?
  }

  /** The call that the reader in slot 0 had in progress has returned `RB_DONE`. */
  predicate ReturnedDone(s: System) {
    |s.readers| == 1 && s.readers[0].pc.ReadReturned? && s.readers[0].Result() == RB_DONE
  }

  /** No new call begins in slot 0, and the one there returns `RB_DONE` over a ring that still holds bytes. */
  ghost predicate LeavesBytes(s: System, es: seq<Event>)
    requires WellFormed(s)
  {
    Runs(s, es) && NoNewRead(es, 0) && ReturnedDone(After(s, es)) && After(s, es).shared.ring.fill > 0
  }

  // ---------- calls that find something ----------

  /** The call has bytes already, or needs none, or will find some at its first look. */
  ghost predicate Found(s: System)
    requires |s.readers| == 1
  {
    var t := s.readers[0];
    || |t.got| > 0
    || t.remaining == 0
    || (t.pc.ReadSection? && ReadChunk(s.shared.ring.fill, t.remaining, s.shared.done) > 0)
  }

  lemma FoundByRead(s: System)
    requires WellFormed(s) && |s.readers| == 1 && ReaderEnabled(s.shared, s.readers[0]) && Found(s)
    ensures Found(MoveReader(s, 0))
  {
  }

  lemma FoundDespiteWrite(s: System, i: nat)
    requires WellFormed(s) && |s.readers| == 1 && Found(s)
    requires i < |s.writers| && WriterEnabled(s.shared, s.writers[i])
    ensures MoveWriter(s, i).readers == s.readers && Found(MoveWriter(s, i))
  {
    WriterStepConserves(s.shared, s.writers[i]);
    WriterKeepsFlags(s.shared, s.writers[i]);
    var sh', len := MoveWriter(s, i).shared, s.readers[0].remaining;
    ReadChunkWords(s.shared.ring.fill, len, s.shared.done);
    ReadChunkWords(sh'.ring.fill, len, sh'.done);
  }

  lemma FoundDespite(s: System, e: Event)
    requires WellFormed(s) && |s.readers| == 1 && Enabled(s, e) && !e.StartRead? && Found(s)
    ensures |Apply(s, e).readers| == 1 && Found(Apply(s, e))
  {
    if e.ReaderMove? {
      FoundByRead(s);
    } else if e.WriterMove? {
      FoundDespiteWrite(s, e.i);
    } else {
      ReaderSlot(s, e, 0);
    }
  }

  /** Such a call never returns `RB_DONE`, whatever writers and control calls do. */
  lemma {:induction false} FoundRun(s: System, es: seq<Event>)
    requires WellFormed(s) && Runs(s, es) && |s.readers| == 1 && NoNewRead(es, 0) && Found(s)
    ensures !ReturnedDone(After(s, es))
    decreases |es|
  {
    if es != [] {
      FoundDespite(s, es[0]);
      FoundRun(Apply(s, es[0]), es[1..]);
    }
  }

  // ---------- calls that find nothing ----------

  lemma LeavesFinish(s: System)
    requires WellFormed(s) && |s.readers| == 1
    requires s.readers[0].pc.ReadFinish? && s.readers[0].got == [] && s.readers[0].ret == RB_DONE
    ensures var es := [ReaderMove(0), ReaderMove(0)];
      && Runs(s, es)
      && ReturnedDone(After(s, es)) && After(s, es).shared.ring == s.shared.ring
  {
    var r := ReaderMove(0);
    var s1 := Apply(s, r);
    var s2 := Apply(s1, r);
    Prepend(s1, r, s2, [], [r]);
    Prepend(s, r, s1, [r], [r, r]);
  }

  /** A reader that has looked in vain leaves with `RB_DONE` if the flag is set, whatever the ring holds by then. */
  lemma LeavesDone(s: System)
    requires WellFormed(s) && |s.readers| == 1 && s.shared.done
    requires s.readers[0].pc.ReadDone? && s.readers[0].got == []
    ensures var es := [ReaderMove(0), ReaderMove(0), ReaderMove(0)];
      && Runs(s, es)
      && ReturnedDone(After(s, es)) && After(s, es).shared.ring == s.shared.ring
  {
    var r := ReaderMove(0);
    var s1 := Apply(s, r);
    LeavesFinish(s1);
    Prepend(s, r, s1, [r, r], [r, r, r]);
  }

  /** The same if the flag is set right after the look. */
  lemma LeavesOnceDone(s: System)
    requires WellFormed(s) && |s.readers| == 1
    requires s.readers[0].pc.ReadDone? && s.readers[0].got == []
    ensures var es := [SetDone, ReaderMove(0), ReaderMove(0), ReaderMove(0)];
      && Runs(s, es)
      && ReturnedDone(After(s, es))
      && After(s, es).shared.ring == s.shared.ring
  {
    var r := ReaderMove(0);
    var s1 := Apply(s, SetDone);
    LeavesDone(s1);
    Prepend(s, SetDone, s1, [r, r, r], [SetDone, r, r, r]);
  }

  /** The first look finds nothing, and the call is about to check the flag. */
  lemma LooksInVain(s: System, len: nat, forever: bool)
    requires WellFormed(s) && |s.readers| == 1 && s.readers[0] == BeginRead(len, forever)
    requires 0 < len && ReadChunk(s.shared.ring.fill, len, s.shared.done) == 0
    ensures MoveReader(s, 0) == s.(readers := [s.readers[0].(pc := ReadDone)])
  {
    assert s.readers[0].got[0..] == [];
    assert s.delivered + [] == s.delivered;
  }

  lemma TailRun(s: System, len: nat, forever: bool, es: seq<Event>)
    requires WellFormed(s) && |s.readers| == 1 && s.readers[0] == BeginRead(len, forever)
    requires !s.shared.done && 0 < s.shared.ring.fill < 4 && s.shared.ring.fill < len
    requires es == [ReaderMove(0), SetDone, ReaderMove(0), ReaderMove(0), ReaderMove(0)]
    ensures Runs(s, es)
    ensures ReturnedDone(After(s, es)) && After(s, es).shared.ring == s.shared.ring
  {
    var r := ReaderMove(0);
    LooksInVain(s, len, forever);
    var s1 := Apply(s, r);
    LeavesOnceDone(s1);
    Prepend(s, r, s1, [SetDone, r, r, r], es);
  }

  /** Without any write: one to three bytes are left, the reader looks, the flag is set, the reader checks it. */
  lemma DoneMayHideTail(s: System, len: nat, forever: bool) returns (es: seq<Event>)
    requires WellFormed(s) && |s.readers| == 1 && s.readers[0] == BeginRead(len, forever)
    requires !s.shared.done && 0 < s.shared.ring.fill < 4 && s.shared.ring.fill < len
    ensures |es| == 5 && NoWrites(es) && LeavesBytes(s, es) && After(s, es).shared.ring == s.shared.ring
  {
    var r := ReaderMove(0);
    es := [r, SetDone, r, r, r];
    TailRun(s, len, forever, es);
  }

  /** A write that fits goes into an empty ring in one step. */
  lemma PlacedAtOnce(s: System, data: seq<byte>)
    requires WellFormed(s) && |s.writers| > 0 && s.writers[0] == BeginWrite(data, true)
    requires 0 < |data| <= s.shared.ring.Size() && s.shared.ring.fill == 0
    ensures var s' := MoveWriter(s, 0);
      s'.readers == s.readers && s'.shared.done == s.shared.done && s'.shared.ring.Contents() == data
  {
    FilledIsAppended(s.shared.ring, data);
    assert data[..|data|] == data && s.shared.ring.Contents() + data == data;
  }

  lemma LeavesDespiteData(s: System, data: seq<byte>)
    requires WellFormed(s) && |s.readers| == 1 && s.readers[0].pc.ReadDone? && s.readers[0].got == []
    requires |s.writers| > 0 && s.writers[0] == BeginWrite(data, true)
    requires s.shared.ring.fill == 0 && 0 < |data| <= s.shared.ring.Size()
    ensures var r := ReaderMove(0);
      var es := [WriterMove(0)] + if s.shared.done then [r, r, r] else [SetDone, r, r, r];
      && Runs(s, es)
      && ReturnedDone(After(s, es)) && After(s, es).shared.ring.Contents() == data
  {
    var r, w := ReaderMove(0), WriterMove(0);
    PlacedAtOnce(s, data);
    var s1 := Apply(s, w);
    var last := if s.shared.done then [r, r, r] else [SetDone, r, r, r];
    if s.shared.done { LeavesDone(s1); } else { LeavesOnceDone(s1); }
    Prepend(s, w, s1, last, [w] + last);
  }

  lemma DataRun(s: System, len: nat, forever: bool, data: seq<byte>, es: seq<Event>)
    requires WellFormed(s) && |s.readers| == 1 && s.readers[0] == BeginRead(len, forever) && 0 < len
    requires |s.writers| > 0 && s.writers[0] == BeginWrite(data, true)
    requires s.shared.ring.fill == 0 && 0 < |data| <= s.shared.ring.Size()
    requires var r, w := ReaderMove(0), WriterMove(0);
      es == if s.shared.done then [r, w, r, r, r] else [r, w, SetDone, r, r, r]
    ensures Runs(s, es)
    ensures ReturnedDone(After(s, es)) && After(s, es).shared.ring.Contents() == data
  {
    var r, w := ReaderMove(0), WriterMove(0);
    LooksInVain(s, len, forever);
    var s1 := Apply(s, r);
    LeavesDespiteData(s1, data);
    var rest := [w] + if s.shared.done then [r, r, r] else [SetDone, r, r, r];
    Prepend(s, r, s1, rest, es);
  }

  /**
   With a write in between: the reader looks into the empty ring, the writer places its data, the
   reader checks the flag.  It does not matter whether the flag was set before the call or only after the write.
   */
  lemma DoneMayHideData(s: System, len: nat, forever: bool, data: seq<byte>) returns (es: seq<Event>)
    requires WellFormed(s) && |s.readers| == 1 && s.readers[0] == BeginRead(len, forever) && 0 < len
    requires |s.writers| > 0 && s.writers[0] == BeginWrite(data, true)
    requires s.shared.ring.fill == 0 && 0 < |data| <= s.shared.ring.Size()
    ensures SetDone in es <==> !s.shared.done
    ensures LeavesBytes(s, es) && After(s, es).shared.ring.Contents() == data
  {
    var r, w := ReaderMove(0), WriterMove(0);
    es := if s.shared.done then [r, w, r, r, r] else [r, w, SetDone, r, r, r];
    DataRun(s, len, forever, data, es);
  }

  // ---------- exact conditions ----------

  lemma {:induction false} QuietRun(s: System, es: seq<Event>)
    requires WellFormed(s) && Runs(s, es) && |s.readers| == 1 && NoNewRead(es, 0) && NoWrites(es)
    requires s.shared.ring.fill == 0 || Found(s)
    ensures !LeavesBytes(s, es)
    decreases |es|
  {
    if Found(s) {
      FoundRun(s, es);
    } else if es != [] {
      ReaderSlot(s, es[0], 0);
      EmptyStays(s, es[0]);
      QuietRun(Apply(s, es[0]), es[1..]);
    }
  }

  lemma EmptyStays(s: System, e: Event)
    requires WellFormed(s) && Enabled(s, e) && !e.WriterMove?
    ensures s.shared.ring.fill == 0 ==> Apply(s, e).shared.ring.fill == 0
  {
    if e.ReaderMove? {
      ReaderStepConserves(s.shared, s.readers[e.i]);
    }
  }

  /**
   A lone reader starts a call, and nothing is written until it returns: `RB_DONE` means that the ring
   is empty if and only if the flag is set already, or the ring is empty already, or the first look
   finds a word or the whole demand.  Otherwise one to three bytes can be left behind.
   */
  lemma DrainedWithoutWrites(s: System, len: nat, forever: bool)
    requires WellFormed(s) && |s.readers| == 1 && s.readers[0] == BeginRead(len, forever)
    ensures (forall es :: NoWrites(es) ==> !LeavesBytes(s, es))
      <==> s.shared.done || s.shared.ring.fill == 0 || 4 <= s.shared.ring.fill || len <= s.shared.ring.fill
  {
    var fill := s.shared.ring.fill;
    if s.shared.done || fill == 0 || 4 <= fill || len <= fill {
      ReadChunkWords(fill, len, s.shared.done);
      forall es | NoWrites(es) && LeavesBytes(s, es)
        ensures false
      {
        QuietRun(s, es);
      }
    } else {
      var es := DoneMayHideTail(s, len, forever);
    }
  }

  lemma DataIsLeft(s: System, len: nat, forever: bool, data: seq<byte>) returns (es: seq<Event>)
    requires WellFormed(s) && |s.readers| == 1 && s.readers[0] == BeginRead(len, forever) && 0 < len
    requires |s.writers| > 0 && s.writers[0].pc.WriteReturned?
    requires s.shared.ring.fill == 0 && 0 < |data| <= s.shared.ring.Size()
    ensures LeavesBytes(s, es)
  {
    var start := StartWrite(0, data, true);
    var s1 := Apply(s, start);
    var rest := DoneMayHideData(s1, len, forever, data);
    es := [start] + rest;
    Prepend(s, start, s1, rest, es);
  }

  lemma {:induction false} RunSize(s: System, es: seq<Event>)
    requires WellFormed(s) && Runs(s, es)
    ensures After(s, es).shared.ring.Size() == s.shared.ring.Size()
    decreases |es|
  {
    if es != [] {
      ApplySize(s, es[0]);
      RunSize(Apply(s, es[0]), es[1..]);
    }
  }

  /**
   With an idle writer that may start to write, the condition is that the first look finds something, or that
   the ring can hold nothing: a call that has looked in vain may return `RB_DONE` over what was written since.
   */
  lemma DrainedDespiteWrites(s: System, len: nat, forever: bool)
    requires WellFormed(s) && |s.readers| == 1 && s.readers[0] == BeginRead(len, forever)
    requires |s.writers| > 0 && s.writers[0].pc.WriteReturned?
    ensures (forall es :: !LeavesBytes(s, es))
      <==> len == 0 || ReadChunk(s.shared.ring.fill, len, s.shared.done) > 0 || s.shared.ring.Size() == 0
  {
    var chunk := ReadChunk(s.shared.ring.fill, len, s.shared.done);
    ReadChunkWords(s.shared.ring.fill, len, s.shared.done);
    if len == 0 || chunk > 0 || s.shared.ring.Size() == 0 {
      forall es | LeavesBytes(s, es)
        ensures false
      {
        if s.shared.ring.Size() == 0 { RunSize(s, es); } else { FoundRun(s, es); }
      }
    } else if s.shared.ring.fill == 0 {
      var es := DataIsLeft(s, len, forever, [0]);
    } else {
      var es := DoneMayHideTail(s, len, forever);
    }
  }

  // ---------- the flag set beforehand, any number of readers ----------

  /** The ring is empty, or the call is not on its way out with `RB_DONE`. */
  ghost predicate NotLeaving(s: System, i: nat)
    requires i < |s.readers|
  {
    || s.shared.ring.fill == 0
    || (s.shared.done && !s.readers[i].pc.ReadDone? && s.readers[i].ret != RB_DONE)
  }

  lemma NotLeavingDespiteRead(s: System, i: nat, j: nat)
    requires WellFormed(s) && i < |s.readers| && NotLeaving(s, i)
    requires j < |s.readers| && ReaderEnabled(s.shared, s.readers[j])
    ensures NotLeaving(MoveReader(s, j), i)
  {
    var t := s.readers[j];
    ReaderStepConserves(s.shared, t);
    ReaderKeepsFlags(s.shared, t);
    ReadChunkWords(s.shared.ring.fill, t.remaining, s.shared.done);
  }

  lemma NotLeavingDespite(s: System, e: Event, i: nat)
    requires WellFormed(s) && Enabled(s, e) && i < |s.readers| && NotLeaving(s, i) && !e.WriterMove?
    ensures |Apply(s, e).readers| == |s.readers| && NotLeaving(Apply(s, e), i)
  {
    ReaderSlot(s, e, i);
    if e.ReaderMove? { NotLeavingDespiteRead(s, i, e.i); }
  }

  lemma {:induction false} NotLeavingRun(s: System, es: seq<Event>, i: nat)
    requires WellFormed(s) && Runs(s, es) && NoWrites(es) && i < |s.readers| && NotLeaving(s, i)
    ensures i < |After(s, es).readers| && NotLeaving(After(s, es), i)
    decreases |es|
  {
    if es != [] {
      NotLeavingDespite(s, es[0], i);
      NotLeavingRun(Apply(s, es[0]), es[1..], i);
    }
  }

  /** The call in slot `i` has taken the `RB_DONE` exit, with or without bytes in hand, and bytes are left. */
  ghost predicate ExitsEarly(s: System, es: seq<Event>, i: nat)
    requires WellFormed(s)
  {
    && Runs(s, es) && i < |After(s, es).readers|
    && After(s, es).readers[i].ret == RB_DONE && After(s, es).shared.ring.fill > 0
  }

  /**
   The flag is set and nothing more is written; any number of readers are at any point of their calls.  Then
   the `RB_DONE` exit of a call means an empty ring, except for a call that has already looked in vain.
   */
  lemma DoneMeansDrained(s: System, i: nat)
    requires WellFormed(s) && i < |s.readers| && s.shared.done
    ensures (forall es :: NoWrites(es) ==> !ExitsEarly(s, es, i))
      <==> s.shared.ring.fill == 0 || (!s.readers[i].pc.ReadDone? && s.readers[i].ret != RB_DONE)
  {
    if NotLeaving(s, i) {
      forall es | NoWrites(es) && ExitsEarly(s, es, i)
        ensures false
      {
        NotLeavingRun(s, es, i);
      }
    } else if s.readers[i].ret == RB_DONE {
      assert ExitsEarly(s, [], i);
    } else {
      Prepend(s, ReaderMove(i), Apply(s, ReaderMove(i)), [], [ReaderMove(i)]);
      assert ExitsEarly(s, [ReaderMove(i)], i);
    }
  }
}
