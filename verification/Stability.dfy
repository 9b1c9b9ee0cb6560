/** A lone reader that finds enough bytes, or a lone writer that finds enough space, is never disturbed. */
module Stability {
  import opened Bytes
  import opened Chunks
  import opened CircularStore
  import opened Tasks
  import opened TaskSystem

  /** No new call begins in the given reader slot. */
  ghost predicate NoNewRead(es: seq<Event>, i: nat) {
    forall k :: 0 <= k < |es| && es[k].StartRead? ==> es[k].i != i
  }

  ghost predicate NoNewWrite(es: seq<Event>, i: nat) {
    forall k :: 0 <= k < |es| && es[k].StartWrite? ==> es[k].i != i
  }

  /** Call `t` is still about to read `want`, or has read exactly `want` and is leaving with success. */
  ghost predicate Served(s: System, t: Reader, want: seq<byte>)
    requires s.shared.ring.Valid() && |s.readers| == 1
  {
    var now := s.readers[0];
    || (now == t && want <= s.shared.ring.Contents())
    || ((now.pc.ReadFinish? || now.pc.ClearUnblock? || now.pc.ReadReturned?)
        && now.remaining == 0 && now.ret == 0 && now.got == t.got + want)
  }

  lemma ServedByRead(s: System, t: Reader, want: seq<byte>)
    requires WellFormed(s) && |s.readers| == 1 && ReaderEnabled(s.shared, s.readers[0])
    requires t.pc.ReadSection? && |want| == t.remaining > 0 && Served(s, t, want)
    ensures Served(MoveReader(s, 0), t, want)
  {
    var ring := s.shared.ring;
    if s.readers[0] == t {
      TakenIsPrefix(ring, |want|);
      assert ReadChunk(ring.fill, t.remaining, s.shared.done) == |want|;
    }
  }

  lemma ServedDespite(s: System, t: Reader, want: seq<byte>, e: Event)
    requires WellFormed(s) && |s.readers| == 1 && Enabled(s, e)
    requires t.pc.ReadSection? && |want| == t.remaining > 0 && Served(s, t, want)
    requires !e.StartRead?
    ensures Served(Apply(s, e), t, want)
  {
    if e.ReaderMove? {
      ServedByRead(s, t, want);
    } else if e.WriterMove? {
      WriterStepConserves(s.shared, s.writers[e.i]);
    } else if !e.Reset? {
      assert Apply(s, e).readers == s.readers && Apply(s, e).shared.ring == s.shared.ring;
    }
  }

  /**
   A lone reader whose demand is filled when it calls gets exactly the bytes that headed the
   queue at that moment: whatever writers and control calls do, it never waits and never
   comes back short.
   */
  lemma {:induction false} FilledReadIsServed(s: System, es: seq<Event>, t: Reader, want: seq<byte>)
    requires WellFormed(s) && Runs(s, es) && |s.readers| == 1 && NoNewRead(es, 0)
    requires t.pc.ReadSection? && |want| == t.remaining > 0 && Served(s, t, want)
    ensures |After(s, es).readers| == 1
    ensures Served(After(s, es), t, want) && !After(s, es).readers[0].Committed()
    decreases |es|
  {
    if es != [] {
      ServedDespite(s, t, want, es[0]);
      FilledReadIsServed(Apply(s, es[0]), es[1..], t, want);
    }
  }

  /** In particular the call never sleeps and returns its whole length. */
  lemma FilledReadReturnsItsLength(s: System, es: seq<Event>, len: nat, forever: bool)
    requires WellFormed(s) && Runs(s, es) && |s.readers| == 1 && NoNewRead(es, 0)
    requires s.readers[0] == BeginRead(len, forever) && 0 < len <= s.shared.ring.fill
    ensures |After(s, es).readers| == 1
    ensures var t := After(s, es).readers[0];
      && !t.Committed()
      && (t.pc.ReadReturned? ==> t.Result() == len && t.got == s.shared.ring.Contents()[..len])
  {
    var t := s.readers[0];
    var want := s.shared.ring.Contents()[..len];
    assert Served(s, t, want);
    FilledReadIsServed(s, es, t, want);
    assert t.got + want == want;
  }

  /** Call `t` is still about to place its bytes, or has placed them all and is leaving with success. */
  ghost predicate Placed(s: System, t: Writer)
    requires s.shared.ring.Valid() && |s.writers| == 1
  {
    var now := s.writers[0];
    || (now == t && |t.rest| <= s.shared.ring.Free())
    || ((now.pc.WriteFinish? || now.pc.WriteReturned?)
        && now.rest == [] && now.ret == 0 && now.put == t.put + t.rest)
  }

  lemma PlacedDespite(s: System, t: Writer, e: Event)
    requires WellFormed(s) && |s.writers| == 1 && Enabled(s, e)
    requires t.pc.WriteSection? && Placed(s, t)
    requires !e.StartWrite?
    ensures Placed(Apply(s, e), t)
  {
    match e
    case ReaderMove(i) =>
      ReaderStepConserves(s.shared, s.readers[i]);
      assert ReaderStep(s.shared, s.readers[i]).0.ring.fill <= s.shared.ring.fill;
    case WriterMove(i) =>
      if s.writers[0] == t {
        assert WriteChunk(s.shared.ring.Free(), |t.rest|) == |t.rest|;
        assert t.rest[..|t.rest|] == t.rest;
      }
    case _ =>
  }

  /** A lone writer that finds space for its data places all of it at once, whatever readers and control calls do. */
  lemma {:induction false} RoomyWriteIsPlaced(s: System, es: seq<Event>, t: Writer)
    requires WellFormed(s) && Runs(s, es) && |s.writers| == 1 && NoNewWrite(es, 0)
    requires t.pc.WriteSection? && Placed(s, t)
    ensures |After(s, es).writers| == 1
    ensures Placed(After(s, es), t) && !After(s, es).writers[0].Committed()
    ensures var u := After(s, es).writers[0];
      u != t ==> u.rest == [] && u.put == t.put + t.rest && u.ret == 0
    decreases |es|
  {
    if es != [] {
      PlacedDespite(s, t, es[0]);
      RoomyWriteIsPlaced(Apply(s, es[0]), es[1..], t);
    }
  }
}
