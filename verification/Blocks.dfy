/** The units of storage shared by every layer of the block store stack. */
module Blocks {
  function Pow2(n: nat): (p: nat)
    ensures p >= 1
  {
    if n == 0 then 1 else 2 * Pow2(n - 1)
  }

  /** A block_no: a 32-bit unsigned integer. */
  const WORD_LIMIT: nat := 0x1_0000_0000
  type Word = x: nat | x < 0x1_0000_0000

  /** log2 of the number of block references that fit in a block.  The constant has no
      value here, so everything below holds for every block size that has room for two inodes. */
  type LogRefs = n: nat | 2 <= n <= 29 witness 7
  const LOG_RPB: LogRefs

  /** REFS_PER_BLOCK */
  const R: nat := Pow2(LOG_RPB)

  /** INODES_PER_BLOCK: an inode takes two words */
  const IPB: nat := R / 2

  /** A block, seen as R words. */
  type Block = b: seq<Word> | |b| == R witness seq(R, i => 0)
  function NullBlock(): (b: Block)
    ensures forall i :: 0 <= i < R ==> b[i] == 0
  {
    seq(R, i => 0)
  }

  lemma RefsBounds()
    ensures R >= 4 && IPB >= 2 && R == 2 * IPB
  {
    assert R == 2 * Pow2(LOG_RPB - 1) && Pow2(LOG_RPB - 1) == 2 * Pow2(LOG_RPB - 2);
  }
}
