/** Constants of the kernel, and its unsigned 32-bit numbers. */
module Params {
  const NPROC := 64
  const MAXOPBLOCKS := 10
  const LOGSIZE := MAXOPBLOCKS * 3
  const NBUF := MAXOPBLOCKS * 3
  const BSIZE := 512

  const UINT := 0x1_0000_0000

  type Word = w: int | 0 <= w < UINT
}
