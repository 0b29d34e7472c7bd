/** Compile-time constants shared by the kernel's storage stack and mkfs. */
module Params {

  // Most blocks one file-system call may log.
  const MAXOPBLOCKS := 10
  // Most data blocks the on-disk log can describe.
  const LOGSIZE := 3 * MAXOPBLOCKS

  // Most characters of a name, and bytes of a directory record.
  const DIRSIZ := 14
  const RECORD := 16
  // The names every directory has.
  const DOT := "."
  const DOTDOT := ".."
}
