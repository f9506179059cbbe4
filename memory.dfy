/**
 * An abstract account of heap blocks: malloc adds one live block, free of a
 * non-NULL pointer removes one, free(NULL) does nothing. The decoder's
 * ownership promises are stated as changes of `live`.
 */
module Memory {

  class Heap {
    /** Blocks obtained from malloc and not yet passed to free. */
    ghost var live: int

    constructor ()
      ensures live == 0
    {
      live := 0;
    }

    ghost method Malloc()
      modifies this
      ensures live == old(live) + 1
    {
      live := live + 1;
    }

    /** free(p), where `nonNull` says whether p is a block or NULL. */
    ghost method Free(nonNull: bool)
      modifies this
      ensures live == old(live) - (if nonNull then 1 else 0)
    {
      if nonNull {
        live := live - 1;
      }
    }
  }
}
