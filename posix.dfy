/**
 * The parts of the C library that the file-descriptor layer talks to:
 * the errno values it reports, the open(2) flag bits it decodes, the
 * st_mode bits it synthesises, the caller's `struct stat` buffer and the
 * process-wide `errno` variable.
 *
 * The numeric values are those of newlib's <sys/errno.h>,
 * <sys/_default_fcntl.h> and <sys/stat.h>; the properties proved about
 * the layer only rely on the errno values being distinct and positive.
 */
module Posix {

  const ENOENT: int := 2
  const ENXIO: int := 6
  const EBADF: int := 9
  const EACCES: int := 13
  const ENOTDIR: int := 20
  const ENOSPC: int := 28
  const ESPIPE: int := 29
  const ENOTSUP: int := 134

  /** The access mode lives in the two low bits of the open flags. */
  const O_ACCMODE: bv32 := 0x0003
  const O_RDONLY: bv32 := 0x0000
  const O_WRONLY: bv32 := 0x0001
  const O_RDWR: bv32 := 0x0002
  const O_APPEND: bv32 := 0x0008
  const O_CREAT: bv32 := 0x0200
  const O_TRUNC: bv32 := 0x0400
  const O_EXCL: bv32 := 0x0800

  const S_IFCHR: bv32 := 0x2000
  const S_IFDIR: bv32 := 0x4000
  const S_IFREG: bv32 := 0x8000
  /** Permission bits 0777 and 0666. */
  const PERM_RWX_ALL: bv32 := 0x01FF
  const PERM_RW_ALL: bv32 := 0x01B6

  /** The fields of `struct stat` this layer writes; every other field stays zero. */
  datatype Stat = Stat(ino: int, mode: bv32, nlink: int, size: int)

  /** A `struct stat` after memset(0). */
  const ZERO_STAT: Stat := Stat(0, 0, 0, 0)

  /** The caller's `struct stat`, filled in place. */
  class StatBuf {
    var ino: int
    var mode: bv32
    var nlink: int
    var size: int

    constructor ()
      ensures Value() == ZERO_STAT
    {
      ino, mode, nlink, size := 0, 0, 0, 0;
    }

    function Value(): Stat
      reads this
    {
      Stat(ino, mode, nlink, size)
    }

    /** memset(st, 0, sizeof(*st)) */
    method Clear()
      modifies this
      ensures Value() == ZERO_STAT
    {
      ino, mode, nlink, size := 0, 0, 0, 0;
    }

    /** Copies a whole record into the buffer. */
    method Fill(s: Stat)
      modifies this
      ensures Value() == s
    {
      ino, mode, nlink, size := s.ino, s.mode, s.nlink, s.size;
    }
  }

  /** The process-wide `errno` variable. */
  class Errno {
    var value: int

    constructor ()
      ensures value == 0
    {
      value := 0;
    }

    /** set_errno: records `e` and hands back the negative result callers return. */
    method Set(e: int) returns (r: int)
      modifies this
      ensures value == e
      ensures r == -e
    {
      value := e;
      r := -e;
    }
  }
}
