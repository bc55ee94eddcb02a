/** The contents of one disk block, and of the disk. */
module Blocks {
  import opened Params

  // A block is read and written as 128 little-endian 32-bit words, the view that
  // the log header and the indirect blocks take of it.
  const WORDS := BSIZE / 4

  type Block = b: seq<Word> | |b| == WORDS witness seq(WORDS, _ => 0)

  // Block numbers index the disk; one element is read or written atomically.
  type Disk = seq<Block>
}
