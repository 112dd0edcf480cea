/** Batched removal (`pkg/repository/utils.go`). */
module Batches {
  function Concat<T>(blocks: seq<seq<T>>): seq<T> {
    if blocks == [] then [] else Concat(blocks[..|blocks| - 1]) + blocks[|blocks| - 1]
  }

  /** `SplitSliceByBlockSize`: non-empty blocks of at most this size, which together are the slice. */
  method SplitSliceByBlockSize<T>(slice: seq<T>, blockSize: nat) returns (blocks: seq<seq<T>>)
    requires blockSize >= 1
    ensures Concat(blocks) == slice
    ensures forall b :: b in blocks ==> 0 < |b| <= blockSize
    ensures forall i :: 0 <= i < |blocks| - 1 ==> |blocks[i]| == blockSize
  {
    blocks := [];
    var low, high := 0, 0;
    while low < |slice|
      invariant 0 <= high <= |slice| && (low == high || (low > high && high == |slice|))
      invariant Concat(blocks) == slice[..high]
      invariant forall b :: b in blocks ==> 0 < |b| <= blockSize
      invariant low <= |slice| ==> forall i :: 0 <= i < |blocks| ==> |blocks[i]| == blockSize
      invariant forall i :: 0 <= i < |blocks| - 1 ==> |blocks[i]| == blockSize
      decreases |slice| - low
    {
      high := high + blockSize;
      if high > |slice| {
        high := |slice|;
      }
      ghost var before := blocks;
      blocks := blocks + [slice[low..high]];
      assert blocks[..|before|] == before;
      assert slice[..low] + slice[low..high] == slice[..high];
      low := low + blockSize;
    }
    assert slice[..|slice|] == slice;
  }
}
