/**
 The circular byte store under the ring buffer, as a value.

 Offsets are kept relative to the original pointer and live in `[0, size]`: an
 offset only wraps when a copy runs strictly past the end, so it may rest on
 `size` itself.  The fill counter tells an empty ring from a full one.
 */
module CircularStore {
  import opened Bytes

  datatype Ring = Ring(store: seq<byte>, r: nat, w: nat, fill: nat) {

    function Size(): nat {
      |store|
    }

    ghost predicate Valid() {
      && r <= |store|
      && fill <= |store|
      && w == if r + fill <= |store| then r + fill else r + fill - |store|
    }

    function Free(): nat
      requires fill <= |store|
    {
      |store| - fill
    }

    /** The queued bytes, oldest first: slot by slot, independent of how copies are split. */
    ghost function Contents(): (q: seq<byte>)
      requires Valid()
      ensures |q| == fill
    {
      seq(fill, i requires 0 <= i < fill => store[Slot(r + i, |store|)])
    }

    lemma ContentsAt(i: nat)
      requires Valid() && i < fill
      ensures Contents()[i] == store[Slot(r + i, |store|)]
    {
    }

    /** The bytes a read of `n` copies out. */
    function Window(n: nat): (bytes: seq<byte>)
      requires r <= |store| && n <= fill <= |store|
      ensures |bytes| == n
    {
      Cut(store, r, n)
    }

    /** The ring after a read of `n`. */
    function Taken(n: nat): Ring
      requires r <= |store| && n <= fill <= |store|
    {
      this.(r := Advance(r, n, |store|), fill := fill - n)
    }

    /** The ring after a write of `bytes`. */
    function Filled(bytes: seq<byte>): Ring
      requires w <= |store| && fill + |bytes| <= |store|
    {
      Ring(Paste(store, w, bytes), r, Advance(w, |bytes|, |store|), fill + |bytes|)
    }
  }

  function Slot(position: nat, size: nat): (i: nat)
    requires position < 2 * size
    ensures i < size
  {
    if position < size then position else position - size
  }

  function Advance(offset: nat, n: nat, size: nat): nat
    requires offset <= size && n <= size
  {
    if offset + n > size then offset + n - size else offset + n
  }

  function Overwrite(store: seq<byte>, at: nat, bytes: seq<byte>): (s: seq<byte>)
    requires at + |bytes| <= |store|
    ensures |s| == |store|
  {
    store[..at] + bytes + store[at + |bytes|..]
  }

  /** `n` bytes from an offset on, in one piece or two. */
  function Cut(store: seq<byte>, from: nat, n: nat): (bytes: seq<byte>)
    requires from <= |store| && n <= |store|
    ensures |bytes| == n
  {
    if from + n > |store| then
      var n1 := |store| - from;
      store[from..from + n1] + store[0..n - n1]
    else
      store[from..from + n]
  }

  /** The store with `bytes` written from an offset on, in one piece or two. */
  function Paste(store: seq<byte>, to: nat, bytes: seq<byte>): (s: seq<byte>)
    requires to <= |store| && |bytes| <= |store|
    ensures |s| == |store|
  {
    if to + |bytes| > |store| then
      var n1 := |store| - to;
      Overwrite(Overwrite(store, to, bytes[..n1]), 0, bytes[n1..])
    else
      Overwrite(store, to, bytes)
  }

  /** Byte `i` of a cut, wherever it stands in the store. */
  lemma CutAt(store: seq<byte>, from: nat, n: nat, i: nat)
    requires from <= |store| && n <= |store| && i < n
    ensures Cut(store, from, n)[i] == store[Slot(from + i, |store|)]
  {
  }

  /** What slot `j` holds after `bytes` were written from an offset on. */
  function PastedByte(store: seq<byte>, to: nat, bytes: seq<byte>, j: nat): byte
    requires to <= |store| && |bytes| <= |store| && j < |store|
  {
    if to <= j < to + |bytes| then bytes[j - to]
    else if j + |store| < to + |bytes| then bytes[j + |store| - to]
    else store[j]
  }

  lemma OverwriteAt(store: seq<byte>, at: nat, bytes: seq<byte>, i: nat)
    requires at + |bytes| <= |store| && i < |store|
    ensures Overwrite(store, at, bytes)[i] == if at <= i < at + |bytes| then bytes[i - at] else store[i]
  {
  }

  lemma PasteAt(store: seq<byte>, to: nat, bytes: seq<byte>, j: nat)
    requires to <= |store| && |bytes| <= |store| && j < |store|
    ensures Paste(store, to, bytes)[j] == PastedByte(store, to, bytes, j)
  {
    if to + |bytes| > |store| {
      var n1 := |store| - to;
      OverwriteAt(Overwrite(store, to, bytes[..n1]), 0, bytes[n1..], j);
      OverwriteAt(store, to, bytes[..n1], j);
    } else {
      OverwriteAt(store, to, bytes, j);
    }
  }

  /** A store that took the bytes slot by slot is the pasted one. */
  lemma PastedSlotwise(before: seq<byte>, after: seq<byte>, to: nat, bytes: seq<byte>)
    requires to <= |before| == |after| && |bytes| <= |before|
    requires forall j :: 0 <= j < |before| ==> after[j] == PastedByte(before, to, bytes, j)
    ensures after == Paste(before, to, bytes)
  {
    forall j | 0 <= j < |before|
      ensures after[j] == Paste(before, to, bytes)[j]
    {
      PasteAt(before, to, bytes, j);
    }
  }

  /** Moving the next bytes from what is open to what is placed keeps the two a split of the same block. */
  lemma PutAndRest(put: seq<byte>, rest: seq<byte>, block: seq<byte>, len: nat, n: nat)
    requires len <= |block| && put + rest == block[..len] && n <= |rest|
    ensures |put| + |rest| == len
    ensures rest[..n] == block[|put|..|put| + n]
    ensures (put + rest[..n]) + rest[n..] == put + rest
  {
    assert |put + rest| == len;
    forall i | 0 <= i < n
      ensures rest[i] == block[|put| + i]
    {
      assert (put + rest)[|put| + i] == block[..len][|put| + i];
    }
  }

  /** The empty ring over a store of any content. */
  function Empty(store: seq<byte>): (ring: Ring)
    ensures ring.Valid() && ring.Contents() == []
  {
    Ring(store, 0, 0, 0)
  }

  /** A read hands out the oldest bytes and leaves the rest, wherever the offsets rest. */
  lemma TakenIsPrefix(ring: Ring, n: nat)
    requires ring.Valid() && n <= ring.fill
    ensures ring.Window(n) == ring.Contents()[..n]
    ensures ring.Taken(n).Valid()
    ensures ring.Taken(n).Contents() == ring.Contents()[n..]
  {
    var after := ring.Taken(n);
    forall i | 0 <= i < n
      ensures ring.Window(n)[i] == ring.Contents()[i]
    {
      ring.ContentsAt(i);
    }
    forall i | 0 <= i < after.fill
      ensures after.Contents()[i] == ring.Contents()[n + i]
    {
      after.ContentsAt(i);
      ring.ContentsAt(n + i);
    }
  }

  /** After a write every slot of the queue holds the byte it should. */
  lemma FilledAt(ring: Ring, bytes: seq<byte>, i: nat)
    requires ring.Valid() && |bytes| <= ring.Free() && i < ring.fill + |bytes|
    ensures ring.Filled(bytes).store[Slot(ring.r + i, |ring.store|)] == (ring.Contents() + bytes)[i]
  {
    var k := Slot(ring.r + i, |ring.store|);
    PasteAt(ring.store, ring.w, bytes, k);
    if i < ring.fill {
      ring.ContentsAt(i);
      assert PastedByte(ring.store, ring.w, bytes, k) == ring.store[k];
    } else {
      assert PastedByte(ring.store, ring.w, bytes, k) == bytes[i - ring.fill];
    }
  }

  /** A write appends, and overwrites no byte that is still queued. */
  lemma FilledIsAppended(ring: Ring, bytes: seq<byte>)
    requires ring.Valid() && |bytes| <= ring.Free()
    ensures ring.Filled(bytes).Valid()
    ensures ring.Filled(bytes).Size() == ring.Size()
    ensures ring.Filled(bytes).Contents() == ring.Contents() + bytes
  {
    var after := ring.Filled(bytes);
    forall i | 0 <= i < after.fill
      ensures after.Contents()[i] == (ring.Contents() + bytes)[i]
    {
      after.ContentsAt(i);
      FilledAt(ring, bytes, i);
    }
  }

  /** Both offsets may rest one past the last slot; only the counter separates empty from full there. */
  lemma RestingAtTheEnd(store: seq<byte>)
    ensures Ring(store, |store|, |store|, 0).Valid()
    ensures Ring(store, |store|, |store|, 0).Contents() == []
    ensures Ring(store, |store|, |store|, |store|).Valid()
    ensures Ring(store, |store|, |store|, |store|).Contents() == store
  {
    var full := Ring(store, |store|, |store|, |store|);
    forall i | 0 <= i < |store|
      ensures full.Contents()[i] == store[i]
    {
      full.ContentsAt(i);
    }
  }
}
