/** How many bytes one pass through the lock moves. */
module Chunks {

  /** The size a read picks: whole words only, unless the demand can be met or the writer is done. */
  function ReadChunk(fill: nat, len: nat, done: bool): (n: nat)
    ensures n <= fill && n <= len
  {
    if fill < len then
      var words := fill - fill % 4;
      if words == 0 && done then fill else words
    else
      len
  }

  /** The size a write picks. */
  function WriteChunk(free: nat, len: nat): (n: nat)
    ensures n <= free && n <= len
  {
    if len < free then len else free
  }

  /** A chunk is a multiple of the word size, or the whole demand, or the tail after the last write. */
  lemma ReadChunkWords(fill: nat, len: nat, done: bool)
    ensures ReadChunk(fill, len, done) % 4 == 0 || ReadChunk(fill, len, done) == len || (done && fill < 4)
    ensures ReadChunk(fill, len, done) == 0 <==> len == 0 || fill == 0 || (!done && fill < len && fill < 4)
  {
  }

  predicate SomeSideCanMove(size: nat, fill: nat, demand: nat, offer: nat)
    requires fill <= size
  {
    ReadChunk(fill, demand, false) > 0 || WriteChunk(size - fill, offer) > 0
  }

  /** For all open demands one side can move at every fill, exactly when the ring holds a word. */
  lemma ProgressDichotomy(size: nat)
    ensures 4 <= size <==>
      forall fill: nat, demand: nat, offer: nat ::
        fill <= size && 0 < demand && 0 < offer ==> SomeSideCanMove(size, fill, demand, offer)
  {
    if size < 4 {
      assert !SomeSideCanMove(size, size, size + 1, 1);
    }
  }
}
