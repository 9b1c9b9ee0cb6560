/** A call that runs alone is one particular run of the system: exact solo results are results about runs. */
module SoloRuns {
  import opened Tasks
  import opened TaskSystem
  import opened Solo

  /** In any system, letting one reader move alone for as long as it can ends where `RunReader` says. */
  lemma {:induction false} SoloReadIsARun(s: System, i: nat) returns (es: seq<Event>)
    requires WellFormed(s) && i < |s.readers|
    ensures forall k :: 0 <= k < |es| ==> es[k] == ReaderMove(i)
    ensures Runs(s, es) && |After(s, es).readers| == |s.readers|
    ensures (After(s, es).shared, After(s, es).readers[i]) == RunReader(s.shared, s.readers[i])
    ensures After(s, es).writers == s.writers && After(s, es).pending == s.pending
    decreases s.readers[i].remaining, if s.shared.canRead then 1 else 0, ReadRank(s.readers[i].pc)
  {
    es := [];
    if ReaderEnabled(s.shared, s.readers[i]) {
      ReaderStepConserves(s.shared, s.readers[i]);
      ReaderKeepsFlags(s.shared, s.readers[i]);
      var s' := Apply(s, ReaderMove(i));
      es := SoloReadIsARun(s', i);
      Prepend(s, ReaderMove(i), s', es, [ReaderMove(i)] + es);
      es := [ReaderMove(i)] + es;
    }
  }

  lemma {:induction false} SoloWriteIsARun(s: System, i: nat) returns (es: seq<Event>)
    requires WellFormed(s) && i < |s.writers|
    ensures forall k :: 0 <= k < |es| ==> es[k] == WriterMove(i)
    ensures Runs(s, es) && |After(s, es).writers| == |s.writers|
    ensures (After(s, es).shared, After(s, es).writers[i]) == RunWriter(s.shared, s.writers[i])
    ensures After(s, es).readers == s.readers && After(s, es).pending == s.pending
    decreases |s.writers[i].rest|, if s.shared.canWrite then 1 else 0, WriteRank(s.writers[i].pc)
  {
    es := [];
    if WriterEnabled(s.shared, s.writers[i]) {
      WriterStepConserves(s.shared, s.writers[i]);
      WriterKeepsFlags(s.shared, s.writers[i]);
      var s' := Apply(s, WriterMove(i));
      es := SoloWriteIsARun(s', i);
      Prepend(s, WriterMove(i), s', es, [WriterMove(i)] + es);
      es := [WriterMove(i)] + es;
    }
  }

  /** `rb_done_write`, uninterrupted. */
  lemma DoneWriteIsARun(s: System)
    requires WellFormed(s)
    ensures var s1 := Apply(s, SetDone);
      && Enabled(s1, Resume(DoneGive))
      && Apply(s1, Resume(DoneGive)) == s.(shared := s.shared.(done := true, canRead := true))
  {
    assert s.pending + multiset{DoneGive} - multiset{DoneGive} == s.pending;
  }

  /** `rb_unblock_reader`, uninterrupted. */
  lemma UnblockReaderIsARun(s: System)
    requires WellFormed(s)
    ensures var s1 := Apply(s, SetUnblock);
      && Enabled(s1, Resume(UnblockGive))
      && Apply(s1, Resume(UnblockGive)) == s.(shared := s.shared.(unblock := true, canRead := true))
  {
    assert s.pending + multiset{UnblockGive} - multiset{UnblockGive} == s.pending;
  }

  /** `rb_abort`, uninterrupted: the reading half, then the writing half. */
  lemma AbortIsARun(s: System)
    requires WellFormed(s)
    ensures var s1 := Apply(s, SetAbortRead);
      && Enabled(s1, Resume(AbortReadGive))
      && var s2 := Apply(s1, Resume(AbortReadGive));
      && Enabled(s2, Resume(AbortWriteSet))
      && var s3 := Apply(s2, Resume(AbortWriteSet));
      && Enabled(s3, Resume(AbortWriteGive))
      && Apply(s3, Resume(AbortWriteGive)) ==
         s.(shared := s.shared.(abortRead := true, canRead := true, abortWrite := true, canWrite := true))
  {
    var sh1 := s.shared.(abortRead := true);
    AbortReadGives(s.(shared := sh1));
    var sh2 := sh1.(canRead := true);
    AbortWriteSets(s.(shared := sh2));
    AbortWriteGives(s.(shared := sh2.(abortWrite := true)));
  }

  lemma AbortReadGives(s: System)
    requires WellFormed(s)
    ensures ResumeControl(s.(pending := s.pending + multiset{AbortReadGive}), AbortReadGive)
      == s.(shared := s.shared.(canRead := true), pending := s.pending + multiset{AbortWriteSet})
  {
    assert s.pending + multiset{AbortReadGive} - multiset{AbortReadGive} == s.pending;
  }

  lemma AbortWriteSets(s: System)
    requires WellFormed(s)
    ensures ResumeControl(s.(pending := s.pending + multiset{AbortWriteSet}), AbortWriteSet)
      == s.(shared := s.shared.(abortWrite := true), pending := s.pending + multiset{AbortWriteGive})
  {
    assert s.pending + multiset{AbortWriteSet} - multiset{AbortWriteSet} == s.pending;
  }

  lemma AbortWriteGives(s: System)
    requires WellFormed(s)
    ensures ResumeControl(s.(pending := s.pending + multiset{AbortWriteGive}), AbortWriteGive)
      == s.(shared := s.shared.(canWrite := true))
  {
    assert s.pending + multiset{AbortWriteGive} - multiset{AbortWriteGive} == s.pending;
  }
}
