/** The block store at the bottom of the stack: a chunk of memory holding the blocks.
    A device that is not reliable may fail any access; a failed access changes nothing. */
module BlockDevice {
  import opened Blocks

  class Device {
    const blocks: array<Block>
    const reliable: bool
    var nblocks: nat

    ghost predicate Valid()
      reads this
    {
      nblocks <= blocks.Length
    }

    ghost function Store(): (s: seq<Block>)
      requires Valid()
      reads this, blocks
      ensures |s| == nblocks
    {
      blocks[..nblocks]
    }

    constructor (chunk: array<Block>, reliable: bool)
      ensures Valid() && blocks == chunk && this.reliable == reliable
      ensures Store() == chunk[..]
    {
      this.blocks := chunk;
      this.reliable := reliable;
      this.nblocks := chunk.Length;
    }

    method Read(offset: nat) returns (ok: bool, block: Block)
      requires Valid()
      ensures ok ==> offset < nblocks && block == Store()[offset]
      ensures reliable ==> ok == (offset < nblocks)
    {
      var fault: bool := *;
      if offset >= nblocks || (!reliable && fault) {
        return false, NullBlock();
      }
      return true, blocks[offset];
    }

    method Write(offset: nat, block: Block) returns (ok: bool)
      requires Valid()
      modifies blocks
      ensures Valid()
      ensures ok ==> offset < nblocks && Store() == old(Store())[offset := block]
      ensures !ok ==> Store() == old(Store())
      ensures reliable ==> ok == (offset < nblocks)
    {
      var fault: bool := *;
      if offset >= nblocks || (!reliable && fault) {
        return false;
      }
      blocks[offset] := block;
      return true;
    }

    /** The chunk of memory bounds the size the caller may ask for. */
    method SetSize(n: nat) returns (ok: bool, before: nat)
      requires Valid() && n <= blocks.Length
      modifies this`nblocks
      ensures Valid()
      ensures ok ==> before == old(nblocks) && nblocks == n
      ensures !ok ==> nblocks == old(nblocks)
      ensures reliable ==> ok
    {
      var fault: bool := *;
      if !reliable && fault {
        return false, 0;
      }
      before := nblocks;
      nblocks := n;
      ok := true;
    }
  }
}
