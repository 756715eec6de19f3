/** Sizes shared by the modules (kernel/param.h, kernel/fs.h). */
module Params {
  const BSIZE: nat := 1024          // bytes in a disk block
  const MAXOPBLOCKS: nat := 10      // blocks one file system operation may log
  const LOGSIZE: nat := 30          // blocks in a transaction
  const NBUF: nat := 30             // buffers in the cache
  const FSSIZE: nat := 30000        // blocks on the disk
  const SWAPBASE: nat := 2000       // first block of the swap area
}
