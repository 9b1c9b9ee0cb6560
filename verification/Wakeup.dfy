/**
 The wake-up protocol of one reading task, one writing task and any number of control
 calls: a task that sleeps is either right to sleep or about to be woken.
 */
module Wakeup {
  import opened Chunks
  import opened Tasks
  import opened TaskSystem

  ghost predicate OneEach(s: System) {
    WellFormed(s) && |s.readers| == 1 && |s.writers| == 1
  }

  /** The writer has placed bytes in this call and will give `can_read` before it sleeps or returns. */
  predicate OwesRead(u: Writer) {
    |u.put| > 0 && !u.pc.AwaitWrite? && !u.pc.WriteReturned?
  }

  /** The reader has taken bytes in this call and will give `can_write` before it sleeps or returns. */
  predicate OwesWrite(t: Reader) {
    |t.got| > 0 && !t.pc.AwaitRead? && !t.pc.ClearUnblock? && !t.pc.ReadReturned?
  }

  /** A reader on its way to sleep although there is something to read has a wake-up coming. */
  ghost predicate NoLostData(s: System)
    requires OneEach(s)
  {
    var t := s.readers[0];
    t.Committed() && ReadChunk(s.shared.ring.fill, t.remaining, s.shared.done) > 0 ==>
      s.shared.canRead || OwesRead(s.writers[0]) || DoneGive in s.pending
  }

  /** A writer on its way to sleep although there is space has a wake-up coming. */
  ghost predicate NoLostSpace(s: System)
    requires OneEach(s)
  {
    var u := s.writers[0];
    u.Committed() && WriteChunk(s.shared.ring.Free(), |u.rest|) > 0 ==>
      s.shared.canWrite || OwesWrite(s.readers[0])
  }

  /** The two tasks are never both asleep. */
  ghost predicate NotBothAsleep(s: System)
    requires OneEach(s)
  {
    s.readers[0].pc.AwaitRead? && s.writers[0].pc.AwaitWrite? ==> s.shared.canRead || s.shared.canWrite
  }

  /**
   A task that passed a flag check before the flag was set has its token, unless the control call
   is still to give it.
   */
  ghost predicate ControlsRelease(s: System)
    requires OneEach(s)
  {
    var sh, pc, wpc := s.shared, s.readers[0].pc, s.writers[0].pc;
    && (sh.done && (pc.ReadAbort? || pc.ReadUnblock? || pc.GiveWrite? || pc.AwaitRead?) ==>
          sh.canRead || DoneGive in s.pending)
    && (sh.abortRead && (pc.ReadUnblock? || pc.GiveWrite? || pc.AwaitRead?) ==>
          sh.canRead || AbortReadGive in s.pending)
    && (sh.unblock && (pc.GiveWrite? || pc.AwaitRead?) ==>
          sh.canRead || UnblockGive in s.pending)
    && (sh.abortWrite && (wpc.GiveRead? || wpc.AwaitWrite?) ==>
          sh.canWrite || AbortWriteGive in s.pending)
  }

  ghost predicate Wakeful(s: System)
    requires OneEach(s)
  {
    NoLostData(s) && NoLostSpace(s) && NotBothAsleep(s) && ControlsRelease(s)
  }

  lemma ReadStepIsWakeful(s: System)
    requires OneEach(s) && ReaderEnabled(s.shared, s.readers[0]) && Wakeful(s)
    ensures Wakeful(MoveReader(s, 0))
  {
    ReaderStepConserves(s.shared, s.readers[0]);
  }

  lemma WriteStepIsWakeful(s: System)
    requires OneEach(s) && WriterEnabled(s.shared, s.writers[0]) && Wakeful(s)
    ensures Wakeful(MoveWriter(s, 0))
  {
    WriterStepConserves(s.shared, s.writers[0]);
  }

  lemma ControlStepIsWakeful(s: System, p: Pending)
    requires OneEach(s) && p in s.pending && Wakeful(s)
    ensures Wakeful(ResumeControl(s, p))
  {
  }

  lemma NewCallIsWakeful(s: System, e: Event)
    requires OneEach(s) && Enabled(s, e) && Wakeful(s)
    requires e.StartRead? || e.StartWrite? || e.Reset?
    ensures OneEach(Apply(s, e)) && Wakeful(Apply(s, e))
  {
  }

  lemma FlagIsWakeful(s: System, e: Event)
    requires OneEach(s) && Enabled(s, e) && Wakeful(s)
    requires e.SetDone? || e.SetUnblock? || e.SetAbortRead?
    ensures OneEach(Apply(s, e)) && Wakeful(Apply(s, e))
  {
  }

  lemma StepIsWakeful(s: System, e: Event)
    requires OneEach(s) && Enabled(s, e) && Wakeful(s)
    ensures OneEach(Apply(s, e)) && Wakeful(Apply(s, e))
  {
    match e
    case ReaderMove(_) => ReadStepIsWakeful(s);
    case WriterMove(_) => WriteStepIsWakeful(s);
    case Resume(p) => ControlStepIsWakeful(s, p);
    case SetDone => FlagIsWakeful(s, e);
    case SetUnblock => FlagIsWakeful(s, e);
    case SetAbortRead => FlagIsWakeful(s, e);
    case _ => NewCallIsWakeful(s, e);
  }

  lemma {:induction false} RunIsWakeful(s: System, es: seq<Event>)
    requires OneEach(s) && Runs(s, es) && Wakeful(s)
    ensures OneEach(After(s, es)) && Wakeful(After(s, es))
    decreases |es|
  {
    if es != [] {
      StepIsWakeful(s, es[0]);
      RunIsWakeful(Apply(s, es[0]), es[1..]);
    }
  }

  /** From creation on, in every interleaving of one reader, one writer and any control calls. */
  lemma EveryRunIsWakeful(s: System, es: seq<Event>)
    requires Initial(s) && |s.readers| == 1 && |s.writers| == 1 && Runs(s, es)
    ensures OneEach(After(s, es))
    ensures NoLostData(After(s, es)) && NoLostSpace(After(s, es))
    ensures NotBothAsleep(After(s, es)) && ControlsRelease(After(s, es))
  {
    RunIsWakeful(s, es);
  }

  predicate ReaderAsleep(s: System)
    requires |s.readers| == 1
  {
    s.readers[0].pc.AwaitRead? && !s.shared.canRead
  }

  predicate WriterAsleep(s: System)
    requires |s.writers| == 1
  {
    s.writers[0].pc.AwaitWrite? && !s.shared.canWrite
  }

  /**
   A reader that sleeps while nobody is about to wake it is right to: the writer is not
   asleep, there is not a chunk for it to read, and no flag tells it to leave.
   */
  lemma ReaderSleepIsJustified(s: System, es: seq<Event>)
    requires Initial(s) && |s.readers| == 1 && |s.writers| == 1 && Runs(s, es)
    requires var s' := After(s, es);
      && |s'.readers| == 1 && |s'.writers| == 1 && ReaderAsleep(s') && s'.pending == multiset{}
      && (s'.writers[0].pc.WriteReturned? || WriterAsleep(s'))
    ensures var s' := After(s, es); var sh, t := s'.shared, s'.readers[0];
      && s'.writers[0].pc.WriteReturned?
      && ReadChunk(sh.ring.fill, t.remaining, sh.done) == 0
      && !sh.done && !sh.abortRead && !sh.unblock
  {
    EveryRunIsWakeful(s, es);
  }

  /** A writer that sleeps while nobody is about to wake it faces a full ring and an idle reader, and no abort. */
  lemma WriterSleepIsJustified(s: System, es: seq<Event>)
    requires Initial(s) && |s.readers| == 1 && |s.writers| == 1 && Runs(s, es)
    requires var s' := After(s, es);
      && |s'.readers| == 1 && |s'.writers| == 1 && WriterAsleep(s') && s'.pending == multiset{}
      && (s'.readers[0].pc.ReadReturned? || ReaderAsleep(s'))
    ensures var s' := After(s, es);
      && s'.readers[0].pc.ReadReturned?
      && s'.shared.ring.fill == s'.shared.ring.Size()
      && !s'.shared.abortWrite
  {
    EveryRunIsWakeful(s, es);
  }
}
