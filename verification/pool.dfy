/** The allocator for small objects of one size (pool.c): chunks of 128 objects and a list of the free ones. */
module Pools {
  const CHUNK := 128

  ghost predicate Distinct(s: seq<nat>) {
    forall i, j :: 0 <= i < j < |s| ==> s[i] != s[j]
  }

  /** Objects are numbered: chunk c holds the objects from c * CHUNK on. */
  class Pool {
    var used: nat
    var chunks: nat
    var free: seq<nat>

    // The objects that were handed out and not given back.
    ghost var live: set<nat>

    /** Every item of every chunk is either live or on the free list, once; `used` counts the live ones. */
    ghost predicate Valid()
      reads this
    {
      && Distinct(free)
      && (forall i: nat :: i in free <==> i < chunks * CHUNK && i !in live)
      && (forall i :: i in live ==> i < chunks * CHUNK)
      && |live| == used
    }

    constructor ()
      ensures Valid() && live == {}
    {
      used, chunks, free, live := 0, 0, [], {};
    }

    function Size(): nat
      reads this
    {
      used
    }

    method AddChunk()
      requires Valid() && free == []
      modifies this`chunks, this`free
      ensures Valid() && free != [] && chunks == old(chunks) + 1
    {
      var first := chunks * CHUNK;
      chunks := chunks + 1;
      var i := 0;
      while i < CHUNK
        invariant 0 <= i <= CHUNK && |free| == i && chunks == old(chunks) + 1
        invariant forall k :: 0 <= k < i ==> free[k] == first + k
      {
        free := free + [first + i];
        i := i + 1;
      }
      forall i: nat ensures i in free <==> i < chunks * CHUNK && i !in live {
        if first <= i < chunks * CHUNK {
          assert free[i - first] == i;
        }
      }
    }

    /** The object handed out is not in use: neither live before, nor handed out twice. */
    method Malloc() returns (item: nat)
      requires Valid()
      modifies this
      ensures Valid() && item !in old(live) && live == old(live) + {item}
      ensures Size() == old(Size()) + 1
      ensures old(free) != [] ==> item == old(free)[|old(free)| - 1] && chunks == old(chunks)
    {
      if |free| == 0 {
        AddChunk();
      }
      ghost var was := free;
      item := free[|free| - 1];
      assert item in free;
      free := free[..|free| - 1];
      assert was == free + [item];
      assert forall i :: i in was <==> i in free || i == item;
      assert item !in free;
      used := used + 1;
      live := live + {item};
    }

    method Free(item: nat)
      requires Valid() && item in live
      modifies this
      ensures Valid() && live == old(live) - {item}
      ensures Size() == old(Size()) - 1 && chunks == old(chunks)
    {
      assert item !in free;
      free := free + [item];
      used := used - 1;
      live := live - {item};
    }
  }
}
