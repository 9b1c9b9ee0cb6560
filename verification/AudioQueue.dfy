/**
 The audio queue between the network task and the output task, and what one call of it comes to.

 `read_audio` asks the ring for its free space, not for its filled bytes, before it reads.
 */
module AudioQueue {
  import opened Bytes
  import opened CircularStore
  import opened Tasks
  import opened TaskSystem
  import opened Solo
  import opened RingBuffers

  // On this target a pointer is four bytes.
  const POINTER_BYTES: nat := 4
  const RINGBUFFER_SIZE: nat := 8192
  const SEND_BYTES: nat := ((16 + 8) / 16) * (48000 / 100) * 4

  class AudioNetworkBuffer {
    const ring: RingBuffer

    constructor ()
      ensures fresh(ring) && fresh(ring.data) && ring.Valid()
      ensures ring.data.Length == 32768 && ring.AsShared() == Created(ring.data[..])
    {
      var rb := RingBuffer.Create(POINTER_BYTES, RINGBUFFER_SIZE, true);
      ring := rb;
    }

    /** Refused without touching anything when the free space is below the demand; otherwise an unlimited read. */
    method ReadAudio(buffer: array<byte>, dataSize: nat) returns (o: Outcome)
      requires ring.Valid() && buffer != ring.data && dataSize <= buffer.Length
      modifies ring, buffer
      ensures ring.Valid()
      ensures old(ring.AsShared()).ring.Free() < dataSize ==>
        o == Returned(0) && ring.AsShared() == old(ring.AsShared()) && buffer[..] == old(buffer[..])
      ensures dataSize <= old(ring.AsShared()).ring.Free() ==>
        var (sh, t) := RunReader(old(ring.AsShared()), BeginRead(dataSize, true));
        && ring.AsShared() == sh && o == ReadOutcome(t)
        && |t.got| <= dataSize && buffer[..] == t.got + old(buffer[..])[|t.got|..]
      ensures var fill, free := old(ring.fillCnt), ring.data.Length - old(ring.fillCnt);
        o == if free < dataSize then Returned(0)
             else if dataSize <= fill then Returned(dataSize)
             else if old(ring.doneWrite) then Returned(if fill > 0 then fill else -2)
             else if old(ring.abortRead) then Returned(-3)
             else if old(ring.unblockReader) then Returned(if fill - fill % 4 > 0 then fill - fill % 4 else -4)
             else Asleep
    {
      var available := ring.BytesAvailable();
      if available >= dataSize {
        o := ring.Read(buffer, dataSize, true);
      } else {
        o := Returned(0);
      }
    }

    method WriteAudio(buffer: array<byte>, dataSize: nat) returns (o: Outcome)
      requires ring.Valid() && buffer != ring.data && dataSize <= buffer.Length
      modifies ring, ring.data
      ensures ring.Valid()
      ensures var (sh, u) := RunWriter(old(ring.AsShared()), BeginWrite(buffer[..][..dataSize], true));
        ring.AsShared() == sh && o == WriteOutcome(u)
      ensures var free := ring.data.Length - old(ring.fillCnt);
        && ring.Contents() == old(ring.Contents()) + buffer[..if dataSize <= free then dataSize else free]
        && o == if dataSize <= free then Returned(dataSize)
                else if old(ring.doneWrite) then Returned(if free > 0 then free else -2)
                else if old(ring.abortWrite) then Returned(-3)
                else Asleep
    {
      o := ring.Write(buffer, dataSize, true);
    }
  }

  /** What `read_audio(d)` comes to with no other task at work. */
  function ReadAudioAlone(sh: Shared, d: nat): Outcome
    requires sh.ring.Valid()
  {
    if sh.ring.Free() < d then Returned(0) else ReadOutcome(RunReader(sh, BeginRead(d, true)).1)
  }

  /**
   With no flag set and no other task at work, `read_audio(d)` delivers exactly when the free space and the
   filled bytes both cover `d`: a ring that is too full refuses, one that is not full enough puts the output
   task to sleep until somebody writes.
   */
  lemma WhenAudioIsDelivered(sh: Shared, d: nat)
    requires sh.ring.Valid() && 0 < d && !sh.done && !sh.abortRead && !sh.unblock
    ensures ReadAudioAlone(sh, d) == Returned(d) <==> d <= sh.ring.Free() && d <= sh.ring.fill
    ensures ReadAudioAlone(sh, d) == Returned(0) <==> sh.ring.Free() < d
    ensures ReadAudioAlone(sh, d) == Asleep <==> d <= sh.ring.Free() && sh.ring.fill < d
  {
    ReadResult(sh, d, true);
  }

  /** Some ring of this size hands out `d` bytes to a reader alone. */
  ghost predicate CanServeAlone(sh: Shared, size: nat, d: nat) {
    && sh.ring.Valid() && sh.ring.Size() == size && !sh.done && !sh.abortRead && !sh.unblock
    && ReadAudioAlone(sh, d) == Returned(d)
  }

  /** Alone, a reader of `d` bytes can be served at some fill exactly if the ring has twice that size. */
  lemma ServedAloneFromTwice(size: nat, d: nat)
    requires 0 < d
    ensures (exists sh :: CanServeAlone(sh, size, d)) <==> 2 * d <= size
  {
    if 2 * d <= size {
      var store := seq(size, _ => 0);
      var sh := Created(store).(ring := Ring(store, 0, d, d));
      WhenAudioIsDelivered(sh, d);
      assert CanServeAlone(sh, size, d);
    } else {
      forall sh | CanServeAlone(sh, size, d)
        ensures false
      {
        WhenAudioIsDelivered(sh, d);
      }
    }
  }
}
