/** What `rb_abort`, `rb_done_write` and `rb_unblock_reader` do to the calls that are in progress. */
module Closing {
  import opened Bytes
  import opened Tasks
  import opened TaskSystem
  import opened Stability
  import opened Wakeup
  import Solo
  import SoloRuns
  import Pair

  /** The run does not reset the ring, so flags that are set stay set. */
  ghost predicate NoReset(es: seq<Event>) {
    Reset !in es
  }

  function OwnReads(es: seq<Event>, i: nat): nat {
    if es == [] then 0 else (if es[0] == ReaderMove(i) then 1 else 0) + OwnReads(es[1..], i)
  }

  function OwnWrites(es: seq<Event>, i: nat): nat {
    if es == [] then 0 else (if es[0] == WriterMove(i) then 1 else 0) + OwnWrites(es[1..], i)
  }

  /** What is counted: all steps of the one call, and no others. */
  lemma {:induction false} OwnStepsAdd(es: seq<Event>, e: Event, i: nat)
    ensures OwnReads(es + [e], i) == OwnReads(es, i) + if e == ReaderMove(i) then 1 else 0
    ensures OwnWrites(es + [e], i) == OwnWrites(es, i) + if e == WriterMove(i) then 1 else 0
    decreases |es|
  {
    if es == [] {
      assert [] + [e] == [e];
    } else {
      assert (es + [e])[1..] == es[1..] + [e];
      OwnStepsAdd(es[1..], e, i);
    }
  }

  /** A bound on the steps a reading call has left once a closing flag is set; zero exactly when it has returned. */
  function ReadFuel(t: Reader, aborted: bool): nat {
    10 * t.remaining + match t.pc
      case ReadAbort => if aborted then 4 else 10
      case ReadUnblock => 9
      case GiveWrite => 8
      case AwaitRead => 7
      case ReadSection => 6
      case ReadDone => 5
      case ReadFinish => 2
      case ClearUnblock => 1
      case ReadReturned => 0
  }

  lemma ReadStepBurnsFuel(sh: Shared, t: Reader)
    requires sh.ring.Valid() && t.Coherent() && ReaderEnabled(sh, t)
    requires sh.done || sh.abortRead
    ensures var (sh', t') := ReaderStep(sh, t);
      && ReadFuel(t', sh.abortRead) < ReadFuel(t, sh.abortRead)
      && sh'.done == sh.done && sh'.abortRead == sh.abortRead
  {
  }

  lemma ReadFuelDespite(s: System, e: Event, i: nat)
    requires WellFormed(s) && Enabled(s, e) && i < |s.readers|
    requires s.shared.done || s.shared.abortRead
    requires e != Reset && !(e.StartRead? && e.i == i)
    ensures var s' := Apply(s, e);
      && |s'.readers| == |s.readers|
      && (s'.shared.done || s'.shared.abortRead)
      && ReadFuel(s'.readers[i], s'.shared.abortRead) + (if e == ReaderMove(i) then 1 else 0)
           <= ReadFuel(s.readers[i], s.shared.abortRead)
  {
    ReaderSlot(s, e, i);
    FlagsStay(s, e);
    if e == ReaderMove(i) {
      ReadStepBurnsFuel(s.shared, s.readers[i]);
    } else {
      AbortLowersFuel(s.readers[i], s.shared.abortRead, Apply(s, e).shared.abortRead);
    }
  }

  lemma AbortLowersFuel(t: Reader, before: bool, after: bool)
    requires before ==> after
    ensures ReadFuel(t, after) <= ReadFuel(t, before)
  {
  }

  /**
   Once aborted or done, a reading call in progress takes boundedly many further steps of its
   own, whatever any other task does in between.
   */
  lemma {:induction false} ClosedReadIsBounded(s: System, es: seq<Event>, i: nat)
    requires WellFormed(s) && Runs(s, es) && i < |s.readers|
    requires s.shared.done || s.shared.abortRead
    requires NoReset(es) && NoNewRead(es, i)
    ensures |After(s, es).readers| == |s.readers|
    ensures OwnReads(es, i) + ReadFuel(After(s, es).readers[i], After(s, es).shared.abortRead)
      <= ReadFuel(s.readers[i], s.shared.abortRead)
    decreases |es|
  {
    if es != [] {
      ReadFuelDespite(s, es[0], i);
      ClosedReadIsBounded(Apply(s, es[0]), es[1..], i);
    }
  }

  /** The same for a writing call. */
  function WriteFuel(u: Writer, aborted: bool): nat {
    10 * |u.rest| + match u.pc
      case WriteAbort => if aborted then 4 else 9
      case GiveRead => 8
      case AwaitWrite => 7
      case WriteSection => 6
      case WriteDone => 5
      case WriteFinish => 1
      case WriteReturned => 0
  }

  lemma WriteStepBurnsFuel(sh: Shared, u: Writer)
    requires sh.ring.Valid() && u.Coherent() && WriterEnabled(sh, u)
    requires sh.done || sh.abortWrite
    ensures var (sh', u') := WriterStep(sh, u);
      && WriteFuel(u', sh.abortWrite) < WriteFuel(u, sh.abortWrite)
      && sh'.done == sh.done && sh'.abortWrite == sh.abortWrite
  {
  }

  lemma AbortLowersWriteFuel(u: Writer, before: bool, after: bool)
    requires before ==> after
    ensures WriteFuel(u, after) <= WriteFuel(u, before)
  {
  }

  lemma WriteFuelDespite(s: System, e: Event, i: nat)
    requires WellFormed(s) && Enabled(s, e) && i < |s.writers|
    requires s.shared.done || s.shared.abortWrite
    requires e != Reset && !(e.StartWrite? && e.i == i)
    ensures var s' := Apply(s, e);
      && |s'.writers| == |s.writers|
      && (s'.shared.done || s'.shared.abortWrite)
      && WriteFuel(s'.writers[i], s'.shared.abortWrite) + (if e == WriterMove(i) then 1 else 0)
           <= WriteFuel(s.writers[i], s.shared.abortWrite)
  {
    WriterSlot(s, e, i);
    FlagsStay(s, e);
    if e == WriterMove(i) {
      WriteStepBurnsFuel(s.shared, s.writers[i]);
    } else {
      AbortLowersWriteFuel(s.writers[i], s.shared.abortWrite, Apply(s, e).shared.abortWrite);
    }
  }

  /** Once aborted or done, a writing call in progress takes boundedly many further steps of its own. */
  lemma {:induction false} ClosedWriteIsBounded(s: System, es: seq<Event>, i: nat)
    requires WellFormed(s) && Runs(s, es) && i < |s.writers|
    requires s.shared.done || s.shared.abortWrite
    requires NoReset(es) && NoNewWrite(es, i)
    ensures |After(s, es).writers| == |s.writers|
    ensures OwnWrites(es, i) + WriteFuel(After(s, es).writers[i], After(s, es).shared.abortWrite)
      <= WriteFuel(s.writers[i], s.shared.abortWrite)
    decreases |es|
  {
    if es != [] {
      WriteFuelDespite(s, es[0], i);
      ClosedWriteIsBounded(Apply(s, es[0]), es[1..], i);
    }
  }

  /** A bound on the steps an unblocked reading call has left; it can first go round by way of its wait. */
  function UnblockFuel(t: Reader): nat {
    10 * t.remaining + match t.pc
      case GiveWrite => 9
      case AwaitRead => 8
      case ReadSection => 7
      case ReadDone => 6
      case ReadAbort => 5
      case ReadUnblock => 4
      case ReadFinish => 2
      case ClearUnblock => 1
      case ReadReturned => 0
  }

  /** The flag stands until the call it was set for returns. */
  predicate UnblockStands(s: System)
    requires |s.readers| == 1
  {
    s.shared.unblock || s.readers[0].pc.ReadReturned?
  }

  lemma UnblockBurnsFuel(s: System)
    requires WellFormed(s) && |s.readers| == 1 && ReaderEnabled(s.shared, s.readers[0]) && UnblockStands(s)
    ensures var s' := MoveReader(s, 0);
      UnblockStands(s') && UnblockFuel(s'.readers[0]) < UnblockFuel(s.readers[0])
  {
  }

  lemma UnblockStandsDespite(s: System, e: Event)
    requires WellFormed(s) && |s.readers| == 1 && Enabled(s, e) && UnblockStands(s)
    requires !e.StartRead? && !e.ReaderMove?
    ensures Apply(s, e).readers == s.readers && UnblockStands(Apply(s, e))
  {
    if e.WriterMove? { WriterKeepsFlags(s.shared, s.writers[e.i]); }
  }

  /**
   Once `rb_unblock_reader` has set its flag, a lone reading call in progress takes boundedly many further steps
   of its own, whatever any other task does in between.
   */
  lemma {:induction false} UnblockedReadIsBounded(s: System, es: seq<Event>)
    requires WellFormed(s) && Runs(s, es) && |s.readers| == 1 && NoNewRead(es, 0)
    requires UnblockStands(s)
    ensures |After(s, es).readers| == 1 && UnblockStands(After(s, es))
    ensures OwnReads(es, 0) + UnblockFuel(After(s, es).readers[0]) <= UnblockFuel(s.readers[0])
    decreases |es|
  {
    if es != [] {
      if es[0] == ReaderMove(0) { UnblockBurnsFuel(s); } else { UnblockStandsDespite(s, es[0]); }
      UnblockedReadIsBounded(Apply(s, es[0]), es[1..]);
    }
  }

  /** Past the abort check: from here a call can still fall asleep once. */
  predicate PastReadAbort(t: Reader) {
    t.pc.ReadUnblock? || t.pc.GiveWrite? || t.pc.AwaitRead?
  }

  predicate PastWriteAbort(u: Writer) {
    u.pc.GiveRead? || u.pc.AwaitWrite?
  }

  lemma NoFreshReadWait(s: System, e: Event, i: nat)
    requires WellFormed(s) && Enabled(s, e) && e != Reset && i < |s.readers|
    requires s.shared.abortRead && !PastReadAbort(s.readers[i])
    ensures var s' := Apply(s, e);
      |s'.readers| == |s.readers| && s'.shared.abortRead && !PastReadAbort(s'.readers[i])
  {
    ReaderSlot(s, e, i);
    FlagsStay(s, e);
  }

  /** After an abort no reading call goes to wait: not one that still has its abort check ahead, and no later one. */
  lemma {:induction false} NoReadWaitAfterAbort(s: System, es: seq<Event>, i: nat)
    requires WellFormed(s) && Runs(s, es) && NoReset(es) && i < |s.readers|
    requires s.shared.abortRead && !PastReadAbort(s.readers[i])
    ensures var s' := After(s, es);
      i < |s'.readers| && !s'.readers[i].pc.AwaitRead?
    decreases |es|
  {
    if es != [] {
      NoFreshReadWait(s, es[0], i);
      NoReadWaitAfterAbort(Apply(s, es[0]), es[1..], i);
    }
  }

  lemma NoFreshWriteWait(s: System, e: Event, i: nat)
    requires WellFormed(s) && Enabled(s, e) && e != Reset && i < |s.writers|
    requires s.shared.abortWrite && !PastWriteAbort(s.writers[i])
    ensures var s' := Apply(s, e);
      |s'.writers| == |s.writers| && s'.shared.abortWrite && !PastWriteAbort(s'.writers[i])
  {
    WriterSlot(s, e, i);
    FlagsStay(s, e);
  }

  /** After an abort no writing call goes to wait: not one that still has its abort check ahead, and no later one. */
  lemma {:induction false} NoWriteWaitAfterAbort(s: System, es: seq<Event>, i: nat)
    requires WellFormed(s) && Runs(s, es) && NoReset(es) && i < |s.writers|
    requires s.shared.abortWrite && !PastWriteAbort(s.writers[i])
    ensures var s' := After(s, es);
      i < |s'.writers| && !s'.writers[i].pc.AwaitWrite?
    decreases |es|
  {
    if es != [] {
      NoFreshWriteWait(s, es[0], i);
      NoWriteWaitAfterAbort(Apply(s, es[0]), es[1..], i);
    }
  }

  /**
   In every reachable state with one reader and one writer: once `rb_abort` has completed neither task is
   asleep, and once `rb_done_write` or `rb_unblock_reader` has completed the reader is not.
   */
  lemma ClosedCallsCanMove(s: System, es: seq<Event>)
    requires Initial(s) && |s.readers| == 1 && |s.writers| == 1 && Runs(s, es)
    ensures OneEach(After(s, es))
    ensures var s' := After(s, es); var sh := s'.shared;
      && ((sh.abortRead && AbortReadGive !in s'.pending) || (sh.done && DoneGive !in s'.pending)
          || (sh.unblock && UnblockGive !in s'.pending) ==>
            s'.readers[0].pc.ReadReturned? || ReaderEnabled(sh, s'.readers[0]))
      && (sh.abortWrite && AbortWriteGive !in s'.pending ==>
            s'.writers[0].pc.WriteReturned? || WriterEnabled(sh, s'.writers[0]))
  {
    EveryRunIsWakeful(s, es);
  }

  // ---------- writers and rb_done_write ----------

  /** The call in writer slot `i` waits without limit and has no token. */
  predicate AsleepForGood(s: System, i: nat) {
    i < |s.writers| && s.writers[i].pc.AwaitWrite? && s.writers[i].forever && !s.shared.canWrite
  }

  /** Readers and control calls may do anything; no other writer moves, and no new call begins in slot `i`. */
  ghost predicate EndsAsleep(s: System, es: seq<Event>, i: nat)
    requires WellFormed(s)
  {
    && Runs(s, es) && NoNewWrite(es, i)
    && (forall k :: 0 <= k < |es| && es[k].WriterMove? ==> es[k].i == i)
    && AsleepForGood(After(s, es), i)
  }

  /** The writer is past its check of `is_done_write`, with nothing to stop it before it sleeps. */
  predicate MissedDone(s: System, i: nat)
    requires i < |s.writers|
  {
    var pc := s.writers[i].pc;
    && s.writers[i].forever && !s.shared.canWrite
    && (pc.AwaitWrite? || pc.GiveRead? || (pc.WriteAbort? && !s.shared.abortWrite))
  }

  /** The flag will stop the call, or it is over, or a token or an abort will reach it. */
  ghost predicate StaysAwake(s: System, i: nat)
    requires i < |s.writers|
  {
    var u, sh := s.writers[i], s.shared;
    || !u.forever || u.pc.WriteFinish? || u.pc.WriteReturned?
    || (sh.done && (u.pc.WriteSection? || u.pc.WriteDone?))
    || (sh.done && sh.canWrite)
    || (u.pc.WriteAbort? && sh.abortWrite)
  }

  lemma StaysAwakeByWrite(s: System, i: nat)
    requires WellFormed(s) && i < |s.writers| && WriterEnabled(s.shared, s.writers[i]) && StaysAwake(s, i)
    ensures StaysAwake(MoveWriter(s, i), i)
  {
  }

  lemma StaysAwakeDespite(s: System, e: Event, i: nat)
    requires WellFormed(s) && Enabled(s, e) && i < |s.writers| && StaysAwake(s, i)
    requires !e.WriterMove? && !(e.StartWrite? && e.i == i)
    ensures |Apply(s, e).writers| == |s.writers| && StaysAwake(Apply(s, e), i)
  {
    WriterSlot(s, e, i);
    if e == Reset {
      assert s.writers[i].pc.WriteReturned?;
    } else {
      FlagsStay(s, e);
    }
  }

  lemma {:induction false} StaysAwakeRun(s: System, es: seq<Event>, i: nat)
    requires WellFormed(s) && i < |s.writers| && StaysAwake(s, i)
    requires EndsAsleep(s, es, i)
    ensures false
    decreases |es|
  {
    if es != [] {
      if es[0] == WriterMove(i) { StaysAwakeByWrite(s, i); } else { StaysAwakeDespite(s, es[0], i); }
      StaysAwakeRun(Apply(s, es[0]), es[1..], i);
    }
  }

  lemma FallsAsleep(s: System, i: nat) returns (es: seq<Event>)
    requires WellFormed(s) && i < |s.writers| && MissedDone(s, i)
    ensures EndsAsleep(s, es, i)
    decreases if s.writers[i].pc.WriteAbort? then 2 else if s.writers[i].pc.GiveRead? then 1 else 0
  {
    es := [];
    if !s.writers[i].pc.AwaitWrite? {
      var s' := Apply(s, WriterMove(i));
      var rest := FallsAsleep(s', i);
      es := [WriterMove(i)] + rest;
      Prepend(s, WriterMove(i), s', rest, es);
    }
  }

  /**
   Once `is_done_write` is set a writing call can still end asleep for good, in some run of readers, control calls
   and itself, if and only if it is past its check of the flag, or asleep already, and neither a token nor an abort
   that it still checks awaits it.
   */
  lemma DoneLeavesWriterAsleep(s: System, i: nat)
    requires WellFormed(s) && i < |s.writers| && s.shared.done
    ensures (exists es :: EndsAsleep(s, es, i)) <==>
      && s.writers[i].forever && !s.shared.canWrite
      && (s.writers[i].pc.AwaitWrite? || s.writers[i].pc.GiveRead?
          || (s.writers[i].pc.WriteAbort? && !s.shared.abortWrite))
  {
    if MissedDone(s, i) {
      var es := FallsAsleep(s, i);
    } else {
      forall es | EndsAsleep(s, es, i)
        ensures false
      {
        StaysAwakeRun(s, es, i);
      }
    }
  }

  /** `rb_done_write` gives only `can_read`: a writer asleep on a full ring stays asleep, whatever else is set. */
  lemma DoneDoesNotWakeWriters(s: System, i: nat)
    requires WellFormed(s) && i < |s.writers| && s.writers[i].forever
    requires s.writers[i].pc.AwaitWrite? && !s.shared.canWrite
    ensures var s' := Apply(Apply(s, SetDone), Resume(DoneGive));
      s'.shared.done && s'.shared.canRead && !WriterEnabled(s'.shared, s'.writers[i])
  {
  }

  /** `rb_done_write` begun and finished. */
  lemma DoneWriteRuns(s: System, es: seq<Event>)
    requires WellFormed(s) && es == [SetDone, Resume(DoneGive)]
    ensures Runs(s, es) && After(s, es) == s.(shared := s.shared.(done := true, canRead := true))
  {
    var s1 := Apply(s, SetDone);
    SoloRuns.DoneWriteIsARun(s);
    var s2 := Apply(s1, Resume(DoneGive));
    Prepend(s1, Resume(DoneGive), s2, [], [Resume(DoneGive)]);
    Prepend(s, SetDone, s1, [Resume(DoneGive)], es);
  }

  /**
   A run from creation: one write of more than the ring holds, then a completed `rb_done_write`.  The flag is set,
   no control call is under way, and the writer sleeps with nobody to wake it.
   */
  lemma WriterSleepsThroughDone(store: seq<byte>, data: seq<byte>) returns (es: seq<Event>)
    requires |store| < |data|
    ensures Runs(Pair.NewPair(store), es)
    ensures var s' := After(Pair.NewPair(store), es);
      && s'.shared.done && s'.pending == multiset{} && AsleepForGood(s', 0)
      && |s'.readers| == 1 && s'.readers[0].pc.ReadReturned?
  {
    var s, start := Pair.NewPair(store), StartWrite(0, data, true);
    var s1 := Apply(s, start);
    var own := SoloRuns.SoloWriteIsARun(s1, 0);
    Solo.WriteResult(s1.shared, data, true);
    var s2 := After(s1, own);
    Prepend(s, start, s1, own, [start] + own);
    var done := [SetDone, Resume(DoneGive)];
    DoneWriteRuns(s2, done);
    es := [start] + own + done;
    Concatenate(s, [start] + own, done, es);
  }
}
