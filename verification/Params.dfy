/** The kernel's constants (kernel/param.h, kernel/fs.h). */
module Params {
  const MAXOPBLOCKS: nat := 10
  const LOGSIZE: nat := 30
  const NBUF: nat := 30
  const ROOTDEV: nat := 1
  const BSIZE: nat := 1024
}
