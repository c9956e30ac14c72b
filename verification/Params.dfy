/** Kernel-wide constants. */
module Params {
  /** Number of process ids; also the null index of the index-linked lists. */
  const NUM_IDS: nat := 8192

  /** Inode types, and the inode of the root directory. */
  const T_DIR: nat := 1
  const T_FILE: nat := 2
  const ROOTINO: nat := 1
}
