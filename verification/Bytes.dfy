/** Moving bytes. */
module Bytes {
  /** memmove of a chunk to offset o0 of a block. */
  function Splice(blk: seq<int>, o0: nat, chunk: seq<int>): (r: seq<int>)
    requires o0 + |chunk| <= |blk|
    ensures |r| == |blk|
    ensures forall o :: 0 <= o < |blk| ==> r[o] == if o0 <= o < o0 + |chunk| then chunk[o - o0] else blk[o]
  {
    blk[..o0] + chunk + blk[o0 + |chunk|..]
  }
}
