/** Partial reads stay on word boundaries, so that the audio output is fed whole samples. */
module Alignment {
  import opened Chunks
  import opened CircularStore
  import opened Tasks
  import opened TaskSystem

  /** What a call has consumed is whole words, unless it has everything it asked for. */
  ghost predicate WordsOrAll(t: Reader) {
    |t.got| % 4 == 0 || t.remaining == 0
  }

  /** `is_done_write` is false throughout the run. */
  ghost predicate NeverDone(s: System, es: seq<Event>) {
    !s.shared.done && SetDone !in es
  }

  lemma MoveKeepsWords(sh: Shared, t: Reader)
    requires sh.ring.Valid() && t.Coherent() && ReaderEnabled(sh, t)
    requires !sh.done && WordsOrAll(t)
    ensures WordsOrAll(ReaderStep(sh, t).1) && !ReaderStep(sh, t).0.done
  {
    ReadChunkWords(sh.ring.fill, t.remaining, false);
  }

  lemma WordsDespite(s: System, e: Event, i: nat)
    requires WellFormed(s) && Enabled(s, e) && !s.shared.done && e != SetDone
    requires i < |s.readers| && WordsOrAll(s.readers[i])
    ensures !Apply(s, e).shared.done && |Apply(s, e).readers| == |s.readers|
    ensures WordsOrAll(Apply(s, e).readers[i])
  {
    ReaderSlot(s, e, i);
    NotDoneStays(s, e);
    if e == ReaderMove(i) {
      MoveKeepsWords(s.shared, s.readers[i]);
    }
  }

  lemma NotDoneStays(s: System, e: Event)
    requires WellFormed(s) && Enabled(s, e) && !s.shared.done && e != SetDone
    ensures !Apply(s, e).shared.done
  {
    match e
    case ReaderMove(i) => ReaderKeepsFlags(s.shared, s.readers[i]);
    case WriterMove(i) => WriterKeepsFlags(s.shared, s.writers[i]);
    case _ =>
  }

  /**
   While the writer is not done, every reading call consumes a multiple of four bytes or
   exactly its demand, whatever the other tasks do between its chunks.
   */
  lemma {:induction false} PartialReadsAreWords(s: System, es: seq<Event>, i: nat)
    requires WellFormed(s) && Runs(s, es) && NeverDone(s, es)
    requires i < |s.readers| && WordsOrAll(s.readers[i])
    ensures |After(s, es).readers| == |s.readers|
    ensures WordsOrAll(After(s, es).readers[i])
    ensures |After(s, es).readers[i].got| % 4 == 0 || After(s, es).readers[i].remaining == 0
    decreases |es|
  {
    if es != [] {
      WordsDespite(s, es[0], i);
      PartialReadsAreWords(Apply(s, es[0]), es[1..], i);
    }
  }

  /** The ring holds whole words, the read offset is on a word, every open demand is whole words. */
  ghost predicate OnWords(s: System) {
    && s.shared.ring.Size() % 4 == 0
    && s.shared.ring.r % 4 == 0
    && forall i :: 0 <= i < |s.readers| ==> s.readers[i].remaining % 4 == 0
  }

  ghost predicate WordRequests(es: seq<Event>) {
    forall k :: 0 <= k < |es| && es[k].StartRead? ==> es[k].len % 4 == 0
  }

  lemma MoveStaysOnWords(sh: Shared, t: Reader)
    requires sh.ring.Valid() && t.Coherent() && ReaderEnabled(sh, t) && !sh.done
    requires sh.ring.Size() % 4 == 0 && sh.ring.r % 4 == 0 && t.remaining % 4 == 0
    ensures var (sh', t') := ReaderStep(sh, t);
      sh'.ring.Size() % 4 == 0 && sh'.ring.r % 4 == 0 && t'.remaining % 4 == 0
  {
    if t.pc.ReadSection? {
      var n := ReadChunk(sh.ring.fill, t.remaining, false);
      ReadChunkWords(sh.ring.fill, t.remaining, false);
      assert n % 4 == 0;
      AdvanceByWords(sh.ring.r, n, sh.ring.Size());
      WordsLeft(t.remaining, n);
    }
  }

  lemma WordsLeft(remaining: nat, n: nat)
    requires n <= remaining && remaining % 4 == 0 && n % 4 == 0
    ensures (remaining - n) % 4 == 0
  {
    assert remaining - n == 4 * (remaining / 4 - n / 4);
  }

  lemma AdvanceByWords(offset: nat, n: nat, size: nat)
    requires offset <= size && n <= size
    requires offset % 4 == 0 && n % 4 == 0 && size % 4 == 0
    ensures Advance(offset, n, size) % 4 == 0
  {
    var words := offset / 4 + n / 4 - if offset + n > size then size / 4 else 0;
    assert Advance(offset, n, size) == 4 * words;
  }

  lemma OnWordsByRead(s: System, i: nat)
    requires WellFormed(s) && i < |s.readers| && ReaderEnabled(s.shared, s.readers[i])
    requires OnWords(s) && !s.shared.done
    ensures OnWords(MoveReader(s, i)) && !MoveReader(s, i).shared.done
  {
    MoveStaysOnWords(s.shared, s.readers[i]);
  }

  lemma OnWordsByWrite(s: System, i: nat)
    requires WellFormed(s) && i < |s.writers| && WriterEnabled(s.shared, s.writers[i])
    requires OnWords(s) && !s.shared.done
    ensures OnWords(MoveWriter(s, i)) && !MoveWriter(s, i).shared.done
  {
    WriterStepConserves(s.shared, s.writers[i]);
    assert WriterStep(s.shared, s.writers[i]).0.ring.r == s.shared.ring.r;
  }

  lemma OnWordsDespite(s: System, e: Event)
    requires WellFormed(s) && Enabled(s, e) && !s.shared.done && e != SetDone
    requires OnWords(s) && (e.StartRead? ==> e.len % 4 == 0)
    ensures OnWords(Apply(s, e)) && !Apply(s, e).shared.done
  {
    match e
    case ReaderMove(i) => OnWordsByRead(s, i);
    case WriterMove(i) => OnWordsByWrite(s, i);
    case _ =>
  }

  /**
   If all read requests are whole words, the read offset never leaves a word boundary;
   writes may be of any length.
   */
  lemma {:induction false} ReadOffsetStaysOnWords(s: System, es: seq<Event>)
    requires WellFormed(s) && Runs(s, es) && NeverDone(s, es)
    requires OnWords(s) && WordRequests(es)
    ensures OnWords(After(s, es)) && After(s, es).shared.ring.r % 4 == 0
    decreases |es|
  {
    if es != [] {
      OnWordsDespite(s, es[0]);
      ReadOffsetStaysOnWords(Apply(s, es[0]), es[1..]);
    }
  }
}
