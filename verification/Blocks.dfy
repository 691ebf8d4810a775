/** Disk blocks, as sequences of machine words (BSIZE = 512 bytes = 128 four-byte words). */
module Blocks {
  const BWORDS: nat := 128

  type Block = b: seq<int> | |b| == BWORDS witness seq(BWORDS, _ => 0)

  const ZeroBlock: Block := seq(BWORDS, _ => 0)
}
