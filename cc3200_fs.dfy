/**
 * The CC3200 descriptor dispatcher (cc3200_fs.c): one integer descriptor
 * space over the console, SPIFFS and SLFS, one path namespace over SPIFFS
 * and SLFS. Console descriptors are answered here; every other operation
 * is forwarded to exactly one store with the descriptor shifted back to
 * that store's numbering. Which store received which call is stated with
 * the stores' ghost call logs; what that call did to the store, to errno
 * and to the result is stated with the store's own effect predicates
 * (`SpiffsAdapter.Mount.CloseEffect` and the like, `Slfs.Adapter.Applied`).
 */
module Cc3200Fs {
  import opened Wrappers
  import opened Posix
  import opened FsNames
  import Backend
  import SpiffsAdapter
  import Slfs

  /** What stat reports for the root directory. */
  const ROOT_STAT: Posix.Stat := Posix.Stat(0, S_IFDIR | PERM_RWX_ALL, 1, 0)

  /** What fstat reports for a console descriptor. */
  function ConsoleStat(fd: int): Posix.Stat
  {
    Posix.Stat(fd, S_IFCHR | PERM_RW_ALL, 0, 0)
  }

  class Vfs {
    /** MAX_OPEN_SPIFFS_FILES and MAX_OPEN_SLFS_FILES. */
    const maxSpiffs: nat
    const maxSlfs: nat
    const errno: Errno
    const spiffs: SpiffsAdapter.Mount
    const slfs: Slfs.Adapter
    /** Everything sent to the console UART so far. */
    var uart: seq<bv8>

    ghost predicate Valid()
    {
      Disjoint(maxSpiffs)
    }

    constructor (maxSpiffs: nat, maxSlfs: nat, errno: Errno, spiffs: SpiffsAdapter.Mount, slfs: Slfs.Adapter)
      requires Disjoint(maxSpiffs)
      ensures Valid()
      ensures this.maxSpiffs == maxSpiffs && this.maxSlfs == maxSlfs
      ensures this.errno == errno && this.spiffs == spiffs && this.slfs == slfs && uart == []
    {
      this.maxSpiffs := maxSpiffs;
      this.maxSlfs := maxSlfs;
      this.errno := errno;
      this.spiffs := spiffs;
      this.slfs := slfs;
      uart := [];
    }

    function Kind(fd: int): FdKind
    {
      FdType(fd, maxSpiffs, maxSlfs)
    }

    /**
     * _open: routed by PathRoute. A non-negative native descriptor comes
     * back shifted by its store's base, so that fd_type names that store;
     * a negative result comes back unchanged.
     */
    method Open(path: string, flags: bv32, mode: int) returns (r: int)
      requires Valid()
      modifies errno, spiffs, slfs
      ensures PathRoute(path).ToSlfs? ==>
        && unchanged(spiffs)
        && Backend.Answered(old(slfs.log), slfs.log, Backend.Open(PathRoute(path).name, flags, mode))
        && slfs.Applied(slfs.ops.open(old(slfs.store), PathRoute(path).name, flags, mode), errno, Backend.LastRes(slfs.log))
        && r == Global(Backend.LastRes(slfs.log), SLFS_FD_BASE)
        && (0 <= Backend.LastRes(slfs.log) < maxSlfs ==> Kind(r) == FdSlfs)
      ensures PathRoute(path).ToSpiffs? ==>
        && unchanged(slfs)
        && Backend.Answered(old(spiffs.log), spiffs.log, Backend.Open(PathRoute(path).name, flags, mode))
        && spiffs.OpenEffect(PathRoute(path).name, flags, errno, Backend.LastRes(spiffs.log))
        && r == Global(Backend.LastRes(spiffs.log), SPIFFS_FD_BASE)
        && (0 <= Backend.LastRes(spiffs.log) < maxSpiffs ==> Kind(r) == FdSpiffs)
    {
      var p := DropDir(path);
      if IsSlName(p) {
        var fd := slfs.Open(p[3..], flags, mode, errno);
        r := if fd >= 0 then fd + SLFS_FD_BASE else fd;
        GlobalRoundTrip(fd, maxSpiffs, maxSlfs);
      } else {
        var fd := spiffs.Open(p, flags, mode, errno);
        r := if fd >= 0 then fd + SPIFFS_FD_BASE else fd;
        GlobalRoundTrip(fd, maxSpiffs, maxSlfs);
      }
    }

    /**
     * _stat: zeroes `st`; the root (see StatRoute) is answered here with a
     * directory entry and no store is consulted; otherwise one store is.
     */
    method Stat(path: string, st: StatBuf) returns (r: int)
      modifies errno, spiffs, slfs, st
      ensures StatRoute(path).Root? ==> r == 0 && st.Value() == ROOT_STAT && unchanged(errno, spiffs, slfs)
      ensures StatRoute(path).StatSlfs? ==>
        && unchanged(spiffs)
        && Backend.Answered(old(slfs.log), slfs.log, Backend.Stat(StatRoute(path).name))
        && var o := slfs.ops.stat(old(slfs.store), StatRoute(path).name);
           slfs.Applied(o, errno, r) && st.Value() == o.st
      ensures StatRoute(path).StatSpiffs? ==>
        && unchanged(slfs)
        && Backend.Answered(old(spiffs.log), spiffs.log, Backend.Stat(StatRoute(path).name))
        && spiffs.StatEffect(StatRoute(path).name, st, errno, r)
    {
      var isSl := IsSlName(path);
      var fname := if isSl then path[3..] else path;
      fname := DropDir(fname);
      st.Clear();
      if fname == [] {
        st.ino := 0;
        st.mode := S_IFDIR | PERM_RWX_ALL;
        st.nlink := 1;
        st.size := 0;
        return 0;
      }
      if isSl {
        r := slfs.Stat(fname, st, errno);
      } else {
        r := spiffs.Stat(fname, st, errno);
      }
    }

    /** _close: EBADF outside every range, EACCES on the console, otherwise the store's answer. */
    method Close(fd: int) returns (r: int)
      modifies errno, spiffs, slfs
      ensures Kind(fd) == FdInvalid ==> r == -EBADF && errno.value == EBADF && unchanged(spiffs, slfs)
      ensures Kind(fd) == FdSys ==> r == -EACCES && errno.value == EACCES && unchanged(spiffs, slfs)
      ensures Kind(fd) == FdSpiffs ==>
        && unchanged(slfs)
        && Backend.Answered(old(spiffs.log), spiffs.log, Backend.Close(fd - SPIFFS_FD_BASE))
        && spiffs.CloseEffect(fd - SPIFFS_FD_BASE, errno, r)
      ensures Kind(fd) == FdSlfs ==>
        && unchanged(spiffs)
        && Backend.Answered(old(slfs.log), slfs.log, Backend.Close(fd - SLFS_FD_BASE))
        && slfs.Applied(slfs.ops.close(old(slfs.store), fd - SLFS_FD_BASE), errno, r)
    {
      match Kind(fd)
      case FdInvalid => r := errno.Set(EBADF);
      case FdSys => r := errno.Set(EACCES);
      case FdSpiffs => r := spiffs.Close(fd - SPIFFS_FD_BASE, errno);
      case FdSlfs => r := slfs.Close(fd - SLFS_FD_BASE, errno);
    }

    /** _lseek: EBADF outside every range, ESPIPE on the console, otherwise the store's answer. */
    method Lseek(fd: int, offset: int, whence: int) returns (r: int)
      modifies errno, spiffs, slfs
      ensures Kind(fd) == FdInvalid ==> r == -EBADF && errno.value == EBADF && unchanged(spiffs, slfs)
      ensures Kind(fd) == FdSys ==> r == -ESPIPE && errno.value == ESPIPE && unchanged(spiffs, slfs)
      ensures Kind(fd) == FdSpiffs ==>
        && unchanged(slfs)
        && Backend.Answered(old(spiffs.log), spiffs.log, Backend.Lseek(fd - SPIFFS_FD_BASE, offset, whence))
        && spiffs.LseekEffect(fd - SPIFFS_FD_BASE, offset, whence, errno, r)
      ensures Kind(fd) == FdSlfs ==>
        && unchanged(spiffs)
        && Backend.Answered(old(slfs.log), slfs.log, Backend.Lseek(fd - SLFS_FD_BASE, offset, whence))
        && slfs.Applied(slfs.ops.lseek(old(slfs.store), fd - SLFS_FD_BASE, offset, whence), errno, r)
    {
      match Kind(fd)
      case FdInvalid => r := errno.Set(EBADF);
      case FdSys => r := errno.Set(ESPIPE);
      case FdSpiffs => r := spiffs.Lseek(fd - SPIFFS_FD_BASE, offset, whence, errno);
      case FdSlfs => r := slfs.Lseek(fd - SLFS_FD_BASE, offset, whence, errno);
    }

    /**
     * _fstat: zeroes `st`; a console descriptor always succeeds as a
     * character device whose inode number is the descriptor itself.
     */
    method Fstat(fd: int, st: StatBuf) returns (r: int)
      modifies errno, spiffs, slfs, st
      ensures Kind(fd) == FdInvalid ==>
        r == -EBADF && errno.value == EBADF && st.Value() == ZERO_STAT && unchanged(spiffs, slfs)
      ensures Kind(fd) == FdSys ==>
        r == 0 && st.Value() == ConsoleStat(fd) && unchanged(errno, spiffs, slfs)
      ensures Kind(fd) == FdSpiffs ==>
        && unchanged(slfs)
        && Backend.Answered(old(spiffs.log), spiffs.log, Backend.Fstat(fd - SPIFFS_FD_BASE))
        && spiffs.FstatEffect(fd - SPIFFS_FD_BASE, st, errno, r)
      ensures Kind(fd) == FdSlfs ==>
        && unchanged(spiffs)
        && Backend.Answered(old(slfs.log), slfs.log, Backend.Fstat(fd - SLFS_FD_BASE))
        && slfs.Applied(slfs.ops.fstat(old(slfs.store), fd - SLFS_FD_BASE), errno, r)
        && st.Value() == slfs.ops.fstat(old(slfs.store), fd - SLFS_FD_BASE).st
    {
      st.Clear();
      match Kind(fd)
      case FdInvalid => r := errno.Set(EBADF);
      case FdSys =>
        st.ino := fd;
        st.mode := S_IFCHR | PERM_RW_ALL;
        r := 0;
      case FdSpiffs => r := spiffs.Fstat(fd - SPIFFS_FD_BASE, st, errno);
      case FdSlfs => r := slfs.Fstat(fd - SLFS_FD_BASE, st, errno);
    }

    /** _read: EBADF outside every range; ENOTSUP on stdin, EACCES on stdout and stderr. */
    method Read(fd: int, count: nat) returns (r: int, data: seq<bv8>)
      modifies errno, spiffs, slfs
      ensures Kind(fd) == FdInvalid ==>
        r == -EBADF && errno.value == EBADF && data == [] && unchanged(spiffs, slfs)
      ensures Kind(fd) == FdSys && fd == 0 ==>
        r == -ENOTSUP && errno.value == ENOTSUP && data == [] && unchanged(spiffs, slfs)
      ensures Kind(fd) == FdSys && fd != 0 ==>
        r == -EACCES && errno.value == EACCES && data == [] && unchanged(spiffs, slfs)
      ensures Kind(fd) == FdSpiffs ==>
        && unchanged(slfs)
        && Backend.Answered(old(spiffs.log), spiffs.log, Backend.Read(fd - SPIFFS_FD_BASE, count))
        && spiffs.ReadEffect(fd - SPIFFS_FD_BASE, count, errno, r, data)
      ensures Kind(fd) == FdSlfs ==>
        && unchanged(spiffs)
        && Backend.Answered(old(slfs.log), slfs.log, Backend.Read(fd - SLFS_FD_BASE, count))
        && var o := slfs.ops.read(old(slfs.store), fd - SLFS_FD_BASE, count);
           slfs.Applied(o, errno, r) && data == o.data
    {
      data := [];
      match Kind(fd)
      case FdInvalid => r := errno.Set(EBADF);
      case FdSys =>
        if fd != 0 {
          r := errno.Set(EACCES);
        } else {
          r := errno.Set(ENOTSUP);
        }
      case FdSpiffs => r, data := spiffs.Read(fd - SPIFFS_FD_BASE, count, errno);
      case FdSlfs => r, data := slfs.Read(fd - SLFS_FD_BASE, count, errno);
    }

    /**
     * _write: EBADF outside every range, EACCES on stdin. On stdout and
     * stderr the buffer goes to the UART with each LF preceded by CR, and
     * the result is the buffer's length, not the number of bytes sent.
     */
    method Write(fd: int, buf: seq<bv8>) returns (r: int)
      modifies this, errno, spiffs, slfs
      ensures Kind(fd) == FdInvalid ==>
        r == -EBADF && errno.value == EBADF && uart == old(uart) && unchanged(spiffs, slfs)
      ensures Kind(fd) == FdSys && fd == 0 ==>
        r == -EACCES && errno.value == EACCES && uart == old(uart) && unchanged(spiffs, slfs)
      ensures Kind(fd) == FdSys && fd != 0 ==>
        r == |buf| && uart == old(uart) + Crlf(buf) && unchanged(errno, spiffs, slfs)
      ensures Kind(fd) == FdSpiffs ==>
        && uart == old(uart) && unchanged(slfs)
        && Backend.Answered(old(spiffs.log), spiffs.log, Backend.Write(fd - SPIFFS_FD_BASE, buf))
        && spiffs.WriteEffect(fd - SPIFFS_FD_BASE, buf, errno, r)
      ensures Kind(fd) == FdSlfs ==>
        && uart == old(uart) && unchanged(spiffs)
        && Backend.Answered(old(slfs.log), slfs.log, Backend.Write(fd - SLFS_FD_BASE, buf))
        && slfs.Applied(slfs.ops.write(old(slfs.store), fd - SLFS_FD_BASE, buf), errno, r)
    {
      match Kind(fd)
      case FdInvalid => r := errno.Set(EBADF);
      case FdSys =>
        if fd == 0 {
          r := errno.Set(EACCES);
          return;
        }
        var i := 0;
        while i < |buf|
          modifies this
          invariant 0 <= i <= |buf|
          invariant uart == old(uart) + Crlf(buf[..i])
        {
          var c := buf[i];
          assert buf[..i + 1][..i] == buf[..i];
          if c == LF {
            uart := uart + [CR];
          }
          uart := uart + [c];
          i := i + 1;
        }
        assert buf[..i] == buf;
        r := |buf|;
      case FdSpiffs => r := spiffs.Write(fd - SPIFFS_FD_BASE, buf, errno);
      case FdSlfs => r := slfs.Write(fd - SLFS_FD_BASE, buf, errno);
    }

    /** _rename: routed by RenameRoute; SLFS when either name carries the "SL:" prefix. */
    method Rename(from: string, to: string) returns (r: int)
      modifies errno, spiffs, slfs
      ensures RenameRoute(from, to).RenameSlfs? ==>
        && unchanged(spiffs)
        && Backend.Answered(old(slfs.log), slfs.log,
             Backend.Rename(RenameRoute(from, to).from, RenameRoute(from, to).to))
        && slfs.Applied(slfs.ops.rename(old(slfs.store), RenameRoute(from, to).from, RenameRoute(from, to).to), errno, r)
      ensures RenameRoute(from, to).RenameSpiffs? ==>
        && unchanged(slfs)
        && Backend.Answered(old(spiffs.log), spiffs.log,
             Backend.Rename(RenameRoute(from, to).from, RenameRoute(from, to).to))
        && spiffs.RenameEffect(RenameRoute(from, to).from, RenameRoute(from, to).to, errno, r)
    {
      var f := DropDir(from);
      var t := DropDir(to);
      if IsSlName(f) || IsSlName(t) {
        r := slfs.Rename(StripSl(f), StripSl(t), errno);
      } else {
        r := spiffs.Rename(f, t, errno);
      }
    }

    /** _link: hard links are not supported. */
    method Link(from: string, to: string) returns (r: int)
      modifies errno
      ensures r == -ENOTSUP && errno.value == ENOTSUP
    {
      r := errno.Set(ENOTSUP);
    }

    /** _unlink: routed by PathRoute, like _open. */
    method Unlink(path: string) returns (r: int)
      modifies errno, spiffs, slfs
      ensures PathRoute(path).ToSlfs? ==>
        && unchanged(spiffs)
        && Backend.Answered(old(slfs.log), slfs.log, Backend.Unlink(PathRoute(path).name))
        && slfs.Applied(slfs.ops.unlink(old(slfs.store), PathRoute(path).name), errno, r)
      ensures PathRoute(path).ToSpiffs? ==>
        && unchanged(slfs)
        && Backend.Answered(old(spiffs.log), spiffs.log, Backend.Unlink(PathRoute(path).name))
        && spiffs.UnlinkEffect(PathRoute(path).name, errno, r)
    {
      var p := DropDir(path);
      if IsSlName(p) {
        r := slfs.Unlink(p[3..], errno);
      } else {
        r := spiffs.Unlink(p, errno);
      }
    }

    /**
     * opendir: an "SL:" name (tested on the raw name, without drop_dir) is
     * refused with ENOTSUP; any other name goes to the SPIFFS adapter.
     */
    method Opendir(name: string) returns (d: SpiffsAdapter.Dir?)
      modifies errno, spiffs
      ensures IsSlName(name) ==> d == null && errno.value == ENOTSUP && unchanged(spiffs)
      ensures !IsSlName(name) ==>
        && Backend.Answered(old(spiffs.log), spiffs.log, Backend.Opendir(Some(name)))
        && spiffs.OpendirEffect(Some(name), errno, d)
    {
      if IsSlName(name) {
        d := null;
        var _ := errno.Set(ENOTSUP);
      } else {
        d := spiffs.Opendir(Some(name), errno);
      }
    }
  }
}
