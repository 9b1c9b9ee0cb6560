/** When `RB_ABORT` hides bytes that the call has already moved, over all runs. */
module Hidden {
  import opened Bytes
  import opened Chunks
  import opened Tasks
  import opened TaskSystem
  import opened Stability
  import opened Drained

  // ---------- reading ----------

  /** No new call begins in reader slot 0, and the one there returns an error although it has taken bytes. */
  ghost predicate HidesTaken(s: System, es: seq<Event>)
    requires WellFormed(s)
  {
    && Runs(s, es) && NoNewRead(es, 0)
    && var s' := After(s, es);
    && |s'.readers| == 1 && s'.readers[0].pc.ReadReturned?
    && s'.readers[0].Result() < 0 && |s'.readers[0].got| > 0
  }

  /**
   The call cannot be aborted with bytes in hand: it is on its way out without that, or the flag of the writer will
   end it first, or its demand is there, or it can take nothing but all of its demand.
   */
  ghost predicate TakesAllOrNone(s: System, mayWrite: bool)
    requires |s.readers| == 1
  {
    var t, ring := s.readers[0], s.shared.ring;
    || ((t.pc.ReadFinish? || t.pc.ClearUnblock? || t.pc.ReadReturned?) && (t.ret != RB_ABORT || t.got == []))
    || (s.shared.done && (t.pc.ReadSection? || t.pc.ReadDone?))
    || (t.pc.ReadSection? && t.remaining <= ring.fill)
    || (t.got == [] && (t.remaining <= 4 || (if mayWrite then ring.Size() else ring.fill) < 4))
  }

  lemma TakesAllOrNoneByRead(s: System, mayWrite: bool)
    requires WellFormed(s) && |s.readers| == 1 && ReaderEnabled(s.shared, s.readers[0]) && TakesAllOrNone(s, mayWrite)
    ensures TakesAllOrNone(MoveReader(s, 0), mayWrite)
  {
    var t := s.readers[0];
    ReaderStepConserves(s.shared, t);
    ReadChunkWords(s.shared.ring.fill, t.remaining, s.shared.done);
  }

  lemma TakesAllOrNoneDespiteWrite(s: System, i: nat)
    requires WellFormed(s) && |s.readers| == 1 && TakesAllOrNone(s, true)
    requires i < |s.writers| && WriterEnabled(s.shared, s.writers[i])
    ensures MoveWriter(s, i).readers == s.readers && TakesAllOrNone(MoveWriter(s, i), true)
  {
    WriterStepConserves(s.shared, s.writers[i]);
    WriterKeepsFlags(s.shared, s.writers[i]);
  }

  lemma TakesAllOrNoneDespiteControl(s: System, e: Event, mayWrite: bool)
    requires WellFormed(s) && |s.readers| == 1 && Enabled(s, e) && TakesAllOrNone(s, mayWrite)
    requires !e.ReaderMove? && !e.WriterMove? && !e.StartRead?
    ensures Apply(s, e).readers == s.readers && TakesAllOrNone(Apply(s, e), mayWrite)
  {
    if e == Reset {
      assert s.readers[0].pc.ReadReturned?;
    } else {
      assert Apply(s, e).shared.ring == s.shared.ring;
    }
  }

  lemma TakesAllOrNoneDespite(s: System, e: Event, mayWrite: bool)
    requires WellFormed(s) && |s.readers| == 1 && Enabled(s, e) && !e.StartRead? && TakesAllOrNone(s, mayWrite)
    requires e.WriterMove? ==> mayWrite
    ensures |Apply(s, e).readers| == 1 && TakesAllOrNone(Apply(s, e), mayWrite)
  {
    if e.ReaderMove? {
      TakesAllOrNoneByRead(s, mayWrite);
    } else if e.WriterMove? {
      TakesAllOrNoneDespiteWrite(s, e.i);
    } else {
      TakesAllOrNoneDespiteControl(s, e, mayWrite);
    }
  }

  lemma {:induction false} TakesAllOrNoneRun(s: System, es: seq<Event>, mayWrite: bool)
    requires WellFormed(s) && Runs(s, es) && |s.readers| == 1 && NoNewRead(es, 0)
    requires mayWrite || NoWrites(es)
    requires TakesAllOrNone(s, mayWrite)
    ensures !HidesTaken(s, es)
    decreases |es|
  {
    if es != [] {
      TakesAllOrNoneDespite(s, es[0], mayWrite);
      TakesAllOrNoneRun(Apply(s, es[0]), es[1..], mayWrite);
    }
  }

  /** A reader at its abort check with bytes in hand, and the flag set: it leaves, and the bytes are not counted. */
  lemma AbortedReadLeaves(s: System)
    requires WellFormed(s) && |s.readers| == 1 && s.readers[0].pc.ReadAbort? && s.shared.abortRead
    requires s.readers[0].got != []
    ensures HidesTaken(s, [ReaderMove(0), ReaderMove(0), ReaderMove(0)])
  {
    var r := ReaderMove(0);
    var s1 := Apply(s, r);
    var s2 := Apply(s1, r);
    var s3 := Apply(s2, r);
    Prepend(s2, r, s3, [], [r]);
    Prepend(s1, r, s2, [r], [r, r]);
    Prepend(s, r, s1, [r, r], [r, r, r]);
  }

  lemma HidesTakenAfter(s: System, e: Event, es: seq<Event>, all: seq<Event>)
    requires WellFormed(s) && Enabled(s, e) && HidesTaken(Apply(s, e), es)
    requires !e.StartRead? && |all| > 0 && all[0] == e && all[1..] == es
    ensures HidesTaken(s, all)
  {
    Prepend(s, e, Apply(s, e), es, all);
    forall k | 0 <= k < |all| && all[k].StartRead?
      ensures all[k].i != 0
    {
      assert all[k] == es[k - 1];
    }
  }

  lemma AbortedReadChecks(s: System) returns (es: seq<Event>)
    requires WellFormed(s) && |s.readers| == 1 && s.readers[0].pc.ReadDone? && !s.shared.done && s.shared.abortRead
    requires s.readers[0].got != []
    ensures HidesTaken(s, es) && NoWrites(es)
  {
    var r := ReaderMove(0);
    AbortedReadLeaves(Apply(s, r));
    es := [r, r, r, r];
    HidesTakenAfter(s, r, [r, r, r], es);
  }

  /** The reader has taken a chunk and found no other; only now the abort begins. */
  lemma AbortedAfterChunk(s: System) returns (es: seq<Event>)
    requires WellFormed(s) && |s.readers| == 1 && s.readers[0].pc.ReadDone? && !s.shared.done
    requires s.readers[0].got != []
    ensures HidesTaken(s, es) && NoWrites(es)
  {
    var rest := AbortedReadChecks(Apply(s, SetAbortRead));
    es := [SetAbortRead] + rest;
    HidesTakenAfter(s, SetAbortRead, rest, es);
  }

  /**
   A word or more is queued, but not the whole demand: the reader takes the words, looks in vain for more, and is
   aborted then.  The flag need not be set before the call.
   */
  lemma AbortMayHideTaken(s: System, len: nat, forever: bool) returns (es: seq<Event>)
    requires WellFormed(s) && |s.readers| == 1 && s.readers[0] == BeginRead(len, forever)
    requires !s.shared.done && 4 <= s.shared.ring.fill < len
    ensures HidesTaken(s, es) && NoWrites(es)
  {
    var r := ReaderMove(0);
    ReaderStepConserves(s.shared, s.readers[0]);
    ReadChunkWords(s.shared.ring.fill, len, false);
    var s1 := Apply(s, r);
    assert s1.shared.ring.fill < 4 && s1.shared.ring.fill < s1.readers[0].remaining;
    var s2 := Apply(s1, r);
    var rest := AbortedAfterChunk(s2);
    HidesTakenAfter(s1, r, rest, [r] + rest);
    es := [r] + ([r] + rest);
    HidesTakenAfter(s, r, [r] + rest, es);
  }

  /**
   A lone reader starts a call and nothing is written until it returns.  Some abort at some moment makes it return
   an error over bytes it has taken if and only if the flag of the writer is clear and a word, but not the whole
   demand, is queued.
   */
  lemma TakenHiddenWithoutWrites(s: System, len: nat, forever: bool)
    requires WellFormed(s) && |s.readers| == 1 && s.readers[0] == BeginRead(len, forever)
    ensures (exists es :: NoWrites(es) && HidesTaken(s, es))
      <==> !s.shared.done && 4 <= s.shared.ring.fill < len
  {
    if !s.shared.done && 4 <= s.shared.ring.fill < len {
      var es := AbortMayHideTaken(s, len, forever);
    } else {
      forall es | NoWrites(es) && HidesTaken(s, es)
        ensures false
      {
        TakesAllOrNoneRun(s, es, false);
      }
    }
  }

  /** An idle writer first brings the ring up to one word. */
  lemma AbortMayHideWritten(s: System, len: nat, forever: bool, data: seq<byte>) returns (es: seq<Event>)
    requires WellFormed(s) && |s.readers| == 1 && s.readers[0] == BeginRead(len, forever)
    requires |s.writers| > 0 && s.writers[0].pc.WriteReturned?
    requires !s.shared.done && s.shared.ring.fill < 4 < len && 4 <= s.shared.ring.Size()
    requires |data| == 4 - s.shared.ring.fill
    ensures HidesTaken(s, es)
  {
    var start, w := StartWrite(0, data, true), WriterMove(0);
    var s1 := Apply(s, start);
    WriterStepConserves(s1.shared, s1.writers[0]);
    var s2 := Apply(s1, w);
    assert s2.shared.ring.fill == 4;
    var rest := AbortMayHideTaken(s2, len, forever);
    HidesTakenAfter(s1, w, rest, [w] + rest);
    es := [start] + ([w] + rest);
    HidesTakenAfter(s, start, [w] + rest, es);
  }

  /** With an idle writer that may write, it is enough that the demand is not queued yet and is more than a word. */
  lemma TakenHiddenDespiteWrites(s: System, len: nat, forever: bool)
    requires WellFormed(s) && |s.readers| == 1 && s.readers[0] == BeginRead(len, forever)
    requires |s.writers| > 0 && s.writers[0].pc.WriteReturned?
    ensures (exists es :: HidesTaken(s, es))
      <==> !s.shared.done && s.shared.ring.fill < len && 4 < len && 4 <= s.shared.ring.Size()
  {
    var fill := s.shared.ring.fill;
    if !s.shared.done && fill < len && 4 < len && 4 <= s.shared.ring.Size() {
      if 4 <= fill {
        var es := AbortMayHideTaken(s, len, forever);
      } else {
        var es := AbortMayHideWritten(s, len, forever, seq(4 - fill, _ => 0));
      }
    } else {
      forall es | HidesTaken(s, es)
        ensures false
      {
        TakesAllOrNoneRun(s, es, true);
      }
    }
  }

  // ---------- writing ----------

  /** No byte is taken during the run. */
  ghost predicate NoTakes(es: seq<Event>) {
    forall k :: 0 <= k < |es| ==> !es[k].ReaderMove?
  }

  /** No new call begins in writer slot 0, and the one there returns an error although it has placed bytes. */
  ghost predicate HidesPlaced(s: System, es: seq<Event>)
    requires WellFormed(s)
  {
    && Runs(s, es) && NoNewWrite(es, 0)
    && var s' := After(s, es);
    && |s'.writers| == 1 && s'.writers[0].pc.WriteReturned?
    && s'.writers[0].Result() < 0 && |s'.writers[0].put| > 0
  }

  /** The call cannot be aborted with bytes placed. */
  ghost predicate PlacesAllOrNone(s: System, mayRead: bool)
    requires |s.writers| == 1 && s.shared.ring.fill <= s.shared.ring.Size()
  {
    var u, ring := s.writers[0], s.shared.ring;
    || ((u.pc.WriteFinish? || u.pc.WriteReturned?) && (u.ret != RB_ABORT || u.put == []))
    || (s.shared.done && (u.pc.WriteSection? || u.pc.WriteDone?))
    || (u.pc.WriteSection? && |u.rest| <= ring.Free())
    || (u.put == [] && (|u.rest| <= 1 || (if mayRead then ring.Size() else ring.Free()) == 0))
  }

  lemma PlacesAllOrNoneByWrite(s: System, mayRead: bool)
    requires WellFormed(s) && |s.writers| == 1 && WriterEnabled(s.shared, s.writers[0]) && PlacesAllOrNone(s, mayRead)
    ensures PlacesAllOrNone(MoveWriter(s, 0), mayRead)
  {
    WriterStepConserves(s.shared, s.writers[0]);
  }

  lemma PlacesAllOrNoneDespiteRead(s: System, i: nat)
    requires WellFormed(s) && |s.writers| == 1 && PlacesAllOrNone(s, true)
    requires i < |s.readers| && ReaderEnabled(s.shared, s.readers[i])
    ensures MoveReader(s, i).writers == s.writers && PlacesAllOrNone(MoveReader(s, i), true)
  {
    ReaderStepConserves(s.shared, s.readers[i]);
    ReaderKeepsFlags(s.shared, s.readers[i]);
    assert MoveReader(s, i).shared.ring.fill <= s.shared.ring.fill;
  }

  lemma PlacesAllOrNoneDespiteControl(s: System, e: Event, mayRead: bool)
    requires WellFormed(s) && |s.writers| == 1 && Enabled(s, e) && PlacesAllOrNone(s, mayRead)
    requires !e.ReaderMove? && !e.WriterMove? && !e.StartWrite?
    ensures Apply(s, e).writers == s.writers && PlacesAllOrNone(Apply(s, e), mayRead)
  {
    if e == Reset {
      assert s.writers[0].pc.WriteReturned?;
    } else {
      assert Apply(s, e).shared.ring == s.shared.ring;
    }
  }

  lemma PlacesAllOrNoneDespite(s: System, e: Event, mayRead: bool)
    requires WellFormed(s) && |s.writers| == 1 && Enabled(s, e) && !e.StartWrite? && PlacesAllOrNone(s, mayRead)
    requires e.ReaderMove? ==> mayRead
    ensures |Apply(s, e).writers| == 1 && PlacesAllOrNone(Apply(s, e), mayRead)
  {
    if e.WriterMove? {
      PlacesAllOrNoneByWrite(s, mayRead);
    } else if e.ReaderMove? {
      PlacesAllOrNoneDespiteRead(s, e.i);
    } else {
      PlacesAllOrNoneDespiteControl(s, e, mayRead);
    }
  }

  lemma {:induction false} PlacesAllOrNoneRun(s: System, es: seq<Event>, mayRead: bool)
    requires WellFormed(s) && Runs(s, es) && |s.writers| == 1 && NoNewWrite(es, 0)
    requires mayRead || NoTakes(es)
    requires PlacesAllOrNone(s, mayRead)
    ensures !HidesPlaced(s, es)
    decreases |es|
  {
    if es != [] {
      PlacesAllOrNoneDespite(s, es[0], mayRead);
      PlacesAllOrNoneRun(Apply(s, es[0]), es[1..], mayRead);
    }
  }

  lemma AbortedWriteLeaves(s: System)
    requires WellFormed(s) && |s.writers| == 1 && s.writers[0].pc.WriteAbort? && s.shared.abortWrite
    requires s.writers[0].put != []
    ensures HidesPlaced(s, [WriterMove(0), WriterMove(0)])
  {
    var w := WriterMove(0);
    var s1 := Apply(s, w);
    var s2 := Apply(s1, w);
    Prepend(s1, w, s2, [], [w]);
    Prepend(s, w, s1, [w], [w, w]);
  }

  lemma HidesPlacedAfter(s: System, e: Event, es: seq<Event>, all: seq<Event>)
    requires WellFormed(s) && Enabled(s, e) && HidesPlaced(Apply(s, e), es)
    requires !e.StartWrite? && |all| > 0 && all[0] == e && all[1..] == es
    ensures HidesPlaced(s, all)
  {
    Prepend(s, e, Apply(s, e), es, all);
    forall k | 0 <= k < |all| && all[k].StartWrite?
      ensures all[k].i != 0
    {
      assert all[k] == es[k - 1];
    }
  }

  lemma AbortedWriteChecks(s: System) returns (es: seq<Event>)
    requires WellFormed(s) && |s.writers| == 1 && s.writers[0].pc.WriteDone? && !s.shared.done && s.shared.abortWrite
    requires s.writers[0].put != []
    ensures HidesPlaced(s, es) && NoTakes(es)
  {
    var w := WriterMove(0);
    AbortedWriteLeaves(Apply(s, w));
    es := [w, w, w];
    HidesPlacedAfter(s, w, [w, w], es);
  }

  lemma AbortReachesWriter(s: System) returns (es: seq<Event>)
    requires WellFormed(s) && |s.writers| == 1 && s.writers[0].pc.WriteDone? && !s.shared.done
    requires s.writers[0].put != [] && AbortReadGive in s.pending
    ensures HidesPlaced(s, es) && NoTakes(es)
  {
    var give, flag := Resume(AbortReadGive), Resume(AbortWriteSet);
    var s1 := Apply(s, give);
    var s2 := Apply(s1, flag);
    var rest := AbortedWriteChecks(s2);
    HidesPlacedAfter(s1, flag, rest, [flag] + rest);
    es := [give] + ([flag] + rest);
    HidesPlacedAfter(s, give, [flag] + rest, es);
  }

  /** The writer has placed a chunk and found no more space; only now the abort begins. */
  lemma AbortedAfterPlacing(s: System) returns (es: seq<Event>)
    requires WellFormed(s) && |s.writers| == 1 && s.writers[0].pc.WriteDone? && !s.shared.done
    requires s.writers[0].put != []
    ensures HidesPlaced(s, es) && NoTakes(es)
  {
    var rest := AbortReachesWriter(Apply(s, SetAbortRead));
    es := [SetAbortRead] + rest;
    HidesPlacedAfter(s, SetAbortRead, rest, es);
  }

  /** There is space, but not for all: the writer fills the ring, looks in vain for more, and is aborted then. */
  lemma AbortMayHidePlaced(s: System, data: seq<byte>, forever: bool) returns (es: seq<Event>)
    requires WellFormed(s) && |s.writers| == 1 && s.writers[0] == BeginWrite(data, forever)
    requires !s.shared.done && 0 < s.shared.ring.Free() < |data|
    ensures HidesPlaced(s, es) && NoTakes(es)
  {
    var w := WriterMove(0);
    WriterStepConserves(s.shared, s.writers[0]);
    var s1 := Apply(s, w);
    assert s1.shared.ring.Free() == 0 && s1.writers[0].put != [];
    var s2 := Apply(s1, w);
    var rest := AbortedAfterPlacing(s2);
    HidesPlacedAfter(s1, w, rest, [w] + rest);
    es := [w] + ([w] + rest);
    HidesPlacedAfter(s, w, [w] + rest, es);
  }

  /** A lone writer and no reads: bytes can be hidden if and only if the flag is clear and some fit, but not all. */
  lemma PlacedHiddenWithoutReads(s: System, data: seq<byte>, forever: bool)
    requires WellFormed(s) && |s.writers| == 1 && s.writers[0] == BeginWrite(data, forever)
    ensures (exists es :: NoTakes(es) && HidesPlaced(s, es))
      <==> !s.shared.done && 0 < s.shared.ring.Free() < |data|
  {
    if !s.shared.done && 0 < s.shared.ring.Free() < |data| {
      var es := AbortMayHidePlaced(s, data, forever);
    } else {
      forall es | NoTakes(es) && HidesPlaced(s, es)
        ensures false
      {
        PlacesAllOrNoneRun(s, es, false);
      }
    }
  }

  /** An idle reader first takes one byte from the full ring. */
  lemma AbortMayHideReplaced(s: System, data: seq<byte>, forever: bool) returns (es: seq<Event>)
    requires WellFormed(s) && |s.writers| == 1 && s.writers[0] == BeginWrite(data, forever)
    requires |s.readers| > 0 && s.readers[0].pc.ReadReturned?
    requires !s.shared.done && s.shared.ring.Free() == 0 < s.shared.ring.Size() && 1 < |data|
    ensures HidesPlaced(s, es)
  {
    var start, r := StartRead(0, 1, true), ReaderMove(0);
    var s1 := Apply(s, start);
    ReaderStepConserves(s1.shared, s1.readers[0]);
    var s2 := Apply(s1, r);
    assert s2.shared.ring.Free() == 1;
    var rest := AbortMayHidePlaced(s2, data, forever);
    HidesPlacedAfter(s1, r, rest, [r] + rest);
    es := [start] + ([r] + rest);
    HidesPlacedAfter(s, start, [r] + rest, es);
  }

  /** With an idle reader that may read, it is enough that the data does not fit yet and is more than one byte. */
  lemma PlacedHiddenDespiteReads(s: System, data: seq<byte>, forever: bool)
    requires WellFormed(s) && |s.writers| == 1 && s.writers[0] == BeginWrite(data, forever)
    requires |s.readers| > 0 && s.readers[0].pc.ReadReturned?
    ensures (exists es :: HidesPlaced(s, es))
      <==> !s.shared.done && s.shared.ring.Free() < |data| && 1 < |data| && 0 < s.shared.ring.Size()
  {
    var free := s.shared.ring.Free();
    if !s.shared.done && free < |data| && 1 < |data| && 0 < s.shared.ring.Size() {
      if 0 < free {
        var es := AbortMayHidePlaced(s, data, forever);
      } else {
        var es := AbortMayHideReplaced(s, data, forever);
      }
    } else {
      forall es | HidesPlaced(s, es)
        ensures false
      {
        PlacesAllOrNoneRun(s, es, true);
      }
    }
  }
}
