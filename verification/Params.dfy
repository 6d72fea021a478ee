/** The kernel's compile-time limits, from kernel/include/param.h, kernel/include/riscv.h and kernel/fs/fs.h. */
module Params {
  const NPROC: nat := 16
  const MAXOPBLOCKS: nat := 10
  const LOGBLOCKS: nat := MAXOPBLOCKS * 3
  const NBUF: nat := MAXOPBLOCKS * 3

  const BSIZE: nat := 1024
  const NDIRECT: nat := 12
  const NINDIRECT: nat := BSIZE / 4
  const MAXFILE: nat := NDIRECT + NINDIRECT
  const BPB: nat := BSIZE * 8
  const IPB: nat := 16

  const PAGESIZE: nat := 4096

  const ROOTDEV: nat := 1
  const WORD: nat := 0x1_0000_0000  // 2^32, one past the largest C `uint`
}
