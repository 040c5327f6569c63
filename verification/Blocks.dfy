/**
 The count of memory blocks: every allocation and every release goes through it.
 */
module Blocks {

  class MStat {
    var alloc_count: nat
    var freed_count: nat

    constructor ()
      ensures alloc_count == freed_count == 0
    {
      alloc_count, freed_count := 0, 0;
    }

    method Alloc()
      modifies this
      ensures alloc_count == old(alloc_count) + 1 && freed_count == old(freed_count)
    {
      alloc_count := alloc_count + 1;
    }

    method Free()
      modifies this
      ensures freed_count == old(freed_count) + 1 && alloc_count == old(alloc_count)
    {
      freed_count := freed_count + 1;
    }

    /** Whether everything has been given back. */
    method MemoryCleaned() returns (r: bool)
      ensures r <==> alloc_count == freed_count
    {
      r := alloc_count == freed_count;
    }
  }
}
