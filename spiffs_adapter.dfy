/**
 * The libc interface to SPIFFS inside its container file
 * (cc3200_fs_spiffs.c). The mount record `s_fsm` is the object `Mount`:
 * whether the mount is valid, the engine state, and how many times the
 * container has been committed (fs_close_container). Every operation
 * first checks that the mount is valid; errors are reported through
 * errno, translated from the engine's last error code.
 */
module SpiffsAdapter {
  import opened Wrappers
  import opened Posix
  import opened Spiffs
  import Backend

  /** spiffs_err_to_errno: the translation table, total on every code. */
  function SpiffsErrToErrno(e: int): (r: int)
    ensures r == 0 <==> e == SPIFFS_OK
    ensures r == ENOSPC <==> e == SPIFFS_ERR_FULL
    ensures r == ENOENT <==> e == SPIFFS_ERR_NOT_FOUND
    ensures r == EACCES <==> e == SPIFFS_ERR_NOT_WRITABLE || e == SPIFFS_ERR_NOT_READABLE
    ensures r == ENXIO <==> e !in {SPIFFS_OK, SPIFFS_ERR_FULL, SPIFFS_ERR_NOT_FOUND,
                                   SPIFFS_ERR_NOT_WRITABLE, SPIFFS_ERR_NOT_READABLE}
  {
    if e == SPIFFS_OK then 0
    else if e == SPIFFS_ERR_FULL then ENOSPC
    else if e == SPIFFS_ERR_NOT_FOUND then ENOENT
    else if e == SPIFFS_ERR_NOT_WRITABLE || e == SPIFFS_ERR_NOT_READABLE then EACCES
    else ENXIO
  }

  /** Every SPIFFS mode bit that fs_spiffs_open may set. */
  const MODE_BITS: bv8 := SPIFFS_RDONLY | SPIFFS_WRONLY | SPIFFS_CREAT | SPIFFS_TRUNC | SPIFFS_APPEND | SPIFFS_EXCL

  /**
   * The SPIFFS mode for a set of open(2) flags. Each SPIFFS bit is decided
   * on its own: read access for O_RDONLY and O_RDWR, write access for
   * O_WRONLY and O_RDWR, and the four modifiers one for one.
   */
  function Mode(flags: bv32): (sm: bv8)
    ensures (sm & SPIFFS_RDONLY != 0) <==> (flags & O_ACCMODE == O_RDONLY || flags & O_ACCMODE == O_RDWR)
    ensures (sm & SPIFFS_WRONLY != 0) <==> (flags & O_ACCMODE == O_WRONLY || flags & O_ACCMODE == O_RDWR)
    ensures (sm & SPIFFS_CREAT != 0) <==> (flags & O_CREAT != 0)
    ensures (sm & SPIFFS_TRUNC != 0) <==> (flags & O_TRUNC != 0)
    ensures (sm & SPIFFS_APPEND != 0) <==> (flags & O_APPEND != 0)
    ensures (sm & SPIFFS_EXCL != 0) <==> (flags & O_EXCL != 0)
    ensures sm & !MODE_BITS == 0
  {
    var rw := flags & O_ACCMODE;
    (if rw == O_RDONLY || rw == O_RDWR then SPIFFS_RDONLY else 0)
    | (if rw == O_WRONLY || rw == O_RDWR then SPIFFS_WRONLY else 0)
    | (if flags & O_CREAT != 0 then SPIFFS_CREAT else 0)
    | (if flags & O_TRUNC != 0 then SPIFFS_TRUNC else 0)
    | (if flags & O_APPEND != 0 then SPIFFS_APPEND else 0)
    | (if flags & O_EXCL != 0 then SPIFFS_EXCL else 0)
  }

  /** The flag decoding of fs_spiffs_open, accumulating bits into `sm` one test at a time. */
  method ModeFromFlags(flags: bv32) returns (sm: bv8)
    ensures sm == Mode(flags)
  {
    sm := 0;
    var rw := flags & O_ACCMODE;
    if rw == O_RDONLY || rw == O_RDWR { sm := sm | SPIFFS_RDONLY; }
    if rw == O_WRONLY || rw == O_RDWR { sm := sm | SPIFFS_WRONLY; }
    if flags & O_CREAT != 0 { sm := sm | SPIFFS_CREAT; }
    if flags & O_TRUNC != 0 { sm := sm | SPIFFS_TRUNC; }
    if flags & O_APPEND != 0 { sm := sm | SPIFFS_APPEND; }
    if flags & O_EXCL != 0 { sm := sm | SPIFFS_EXCL; }
  }

  /**
   * What set_spiffs_errno does with an engine result `res`, given the
   * engine's last error code: a non-negative result passes through with
   * errno untouched; a negative one is replaced by minus the errno
   * translated from the last error code.
   */
  ghost predicate Reported(res: int, lastErr: int, errnoBefore: int, errnoAfter: int, r: int)
  {
    if res >= 0 then r == res && errnoAfter == errnoBefore
    else errnoAfter == SpiffsErrToErrno(lastErr) && r == -errnoAfter
  }

  /** The `struct stat` reported for a SPIFFS object. */
  function FileStat(objId: int, size: int): Stat
  {
    Stat(objId, S_IFREG | PERM_RW_ALL, 1, size)
  }

  /** The descriptor is open and was opened with write access. */
  predicate WriteOpen(fs: Fs, fd: int)
  {
    FdGet(fs, fd).Some? && FdGet(fs, fd).value.flags & SPIFFS_WRONLY != 0
  }

  /** A directory handle (DIR): the file system it was opened on and the listing position. */
  class Dir {
    const fsId: nat
    var cursor: nat

    constructor (fsId: nat)
      ensures this.fsId == fsId && cursor == 0
    {
      this.fsId := fsId;
      cursor := 0;
    }
  }

  /** fs_spiffs_rmdir: SPIFFS has no directories; the positive ENOTDIR comes back for every path. */
  function Rmdir(path: string): (r: int)
    ensures r == ENOTDIR
  {
    ENOTDIR
  }

  /** fs_spiffs_mkdir: only the root, spelled ".", exists; anything else is the positive ENOTDIR. */
  function Mkdir(path: string): (r: int)
    ensures r == 0 <==> path == "."
    ensures r != 0 ==> r == ENOTDIR
  {
    if |path| == 1 && path[0] == '.' then 0 else ENOTDIR
  }

  /** The mount record `s_fsm`. */
  class Mount {
    var valid: bool
    var fs: Fs
    /** How many times fs_close_container has run. */
    var commits: nat
    const engine: Engine
    /** Stands for the address of this mount's engine state (`&m->fs`). */
    const id: nat
    ghost var log: seq<Backend.Entry>

    constructor (engine: Engine, fs: Fs, valid: bool, id: nat)
      ensures this.engine == engine && this.fs == fs && this.valid == valid && this.id == id
      ensures commits == 0 && log == []
    {
      this.engine := engine;
      this.fs := fs;
      this.valid := valid;
      this.id := id;
      commits := 0;
      log := [];
    }

    /** set_spiffs_errno: consults the engine's last error code, never `res` itself. */
    method SetSpiffsErrno(res: int, errno: Errno) returns (r: int)
      modifies errno
      ensures Reported(res, fs.errCode, old(errno.value), errno.value, r)
    {
      var e := fs.errCode;
      if res >= 0 {
        return res;
      }
      r := errno.Set(SpiffsErrToErrno(e));
    }

    /**
     * What fs_spiffs_open does: -1 with nothing touched on an invalid mount;
     * otherwise the raw engine result, opened with Mode(flags), with errno
     * set from the last error only when that result is negative.
     */
    twostate predicate OpenEffect(name: string, flags: bv32, errno: Errno, r: int)
      reads this, errno
    {
      && valid == old(valid) && commits == old(commits)
      && (!old(valid) ==> r == -1 && fs == old(fs) && errno.value == old(errno.value))
      && (old(valid) ==>
            var o := engine.open(old(fs), name, Mode(flags));
            && fs == o.fs && r == o.res
            && errno.value == (if o.res < 0 then SpiffsErrToErrno(o.fs.errCode) else old(errno.value)))
    }

    /** fs_spiffs_open: returns the raw engine result; errno is only a side effect. */
    method Open(name: string, flags: bv32, mode: int, errno: Errno) returns (r: int)
      modifies this, errno
      ensures OpenEffect(name, flags, errno, r)
      ensures log == old(log) + [Backend.Entry(Backend.Open(name, flags, mode), r, [])]
    {
      if !valid {
        r := -1;
      } else {
        var sm := ModeFromFlags(flags);
        var o := engine.open(fs, name, sm);
        fs := o.fs;
        if o.res < 0 {
          var _ := SetSpiffsErrno(o.res, errno);
        }
        r := o.res;
      }
      log := log + [Backend.Entry(Backend.Open(name, flags, mode), r, [])];
    }

    /**
     * What fs_spiffs_close does: EBADF on an invalid mount; otherwise the
     * descriptor is closed, 0 comes back whether or not it was open, and the
     * container is committed once exactly when it was open for writing.
     */
    twostate predicate CloseEffect(fd: int, errno: Errno, r: int)
      reads this, errno
    {
      && valid == old(valid)
      && (!old(valid) ==> r == -EBADF && errno.value == EBADF && fs == old(fs) && commits == old(commits))
      && (old(valid) ==>
            && r == 0 && errno.value == old(errno.value)
            && fs == engine.close(old(fs), fd)
            && commits == old(commits) + (if WriteOpen(old(fs), fd) then 1 else 0))
    }

    /**
     * fs_spiffs_close: on a valid mount always closes and returns 0; the
     * container is committed exactly when the descriptor was open for writing.
     */
    method Close(fd: int, errno: Errno) returns (r: int)
      modifies this, errno
      ensures CloseEffect(fd, errno, r)
      ensures log == old(log) + [Backend.Entry(Backend.Close(fd), r, [])]
    {
      if !valid {
        r := errno.Set(EBADF);
      } else {
        var sfd := FdGet(fs, fd);
        if sfd.Some? && sfd.value.flags & SPIFFS_WRONLY != 0 {
          fs := engine.close(fs, fd);
          commits := commits + 1;
        } else {
          fs := engine.close(fs, fd);
        }
        r := 0;
      }
      log := log + [Backend.Entry(Backend.Close(fd), r, [])];
    }

    /** What fs_spiffs_read does: EBADF on an invalid mount, otherwise the engine's bytes and its reported result. */
    twostate predicate ReadEffect(fd: int, count: nat, errno: Errno, r: int, data: seq<bv8>)
      reads this, errno
    {
      && valid == old(valid) && commits == old(commits)
      && (!old(valid) ==> r == -EBADF && errno.value == EBADF && fs == old(fs) && data == [])
      && (old(valid) ==>
            var o := engine.read(old(fs), fd, count);
            && fs == o.fs && data == o.data
            && Reported(o.res, o.fs.errCode, old(errno.value), errno.value, r))
    }

    method Read(fd: int, count: nat, errno: Errno) returns (r: int, data: seq<bv8>)
      modifies this, errno
      ensures ReadEffect(fd, count, errno, r, data)
      ensures log == old(log) + [Backend.Entry(Backend.Read(fd, count), r, data)]
    {
      if !valid {
        r := errno.Set(EBADF);
        data := [];
      } else {
        var o := engine.read(fs, fd, count);
        fs := o.fs;
        data := o.data;
        r := SetSpiffsErrno(o.res, errno);
      }
      log := log + [Backend.Entry(Backend.Read(fd, count), r, data)];
    }

    /** What fs_spiffs_write does: EBADF on an invalid mount, otherwise the engine's reported result. */
    twostate predicate WriteEffect(fd: int, buf: seq<bv8>, errno: Errno, r: int)
      reads this, errno
    {
      && valid == old(valid) && commits == old(commits)
      && (!old(valid) ==> r == -EBADF && errno.value == EBADF && fs == old(fs))
      && (old(valid) ==>
            var o := engine.write(old(fs), fd, buf);
            fs == o.fs && Reported(o.res, o.fs.errCode, old(errno.value), errno.value, r))
    }

    method Write(fd: int, buf: seq<bv8>, errno: Errno) returns (r: int)
      modifies this, errno
      ensures WriteEffect(fd, buf, errno, r)
      ensures log == old(log) + [Backend.Entry(Backend.Write(fd, buf), r, [])]
    {
      if !valid {
        r := errno.Set(EBADF);
      } else {
        var o := engine.write(fs, fd, buf);
        fs := o.fs;
        r := SetSpiffsErrno(o.res, errno);
      }
      log := log + [Backend.Entry(Backend.Write(fd, buf), r, [])];
    }

    /**
     * What fs_spiffs_stat does: `st` is zeroed; EBADF on an invalid mount;
     * on an engine error the error is reported and `st` stays zero; on
     * success 0 and a regular file with the object's id and size.
     */
    twostate predicate StatEffect(name: string, st: StatBuf, errno: Errno, r: int)
      reads this, errno, st
    {
      && valid == old(valid) && commits == old(commits)
      && (!old(valid) ==> r == -EBADF && errno.value == EBADF && fs == old(fs) && st.Value() == ZERO_STAT)
      && (old(valid) ==>
            var o := engine.stat(old(fs), name);
            && fs == o.fs
            && (o.res < 0 ==> st.Value() == ZERO_STAT && Reported(o.res, o.fs.errCode, old(errno.value), errno.value, r))
            && (o.res >= 0 ==> st.Value() == FileStat(o.objId, o.size) && r == 0 && errno.value == old(errno.value)))
    }

    /** fs_spiffs_stat: zeroes `st`; on success reports a regular file with the object's id and size. */
    method Stat(name: string, st: StatBuf, errno: Errno) returns (r: int)
      modifies this, errno, st
      ensures StatEffect(name, st, errno, r)
      ensures log == old(log) + [Backend.Entry(Backend.Stat(name), r, [])]
    {
      st.Clear();
      if !valid {
        r := errno.Set(EBADF);
      } else {
        var o := engine.stat(fs, name);
        fs := o.fs;
        if o.res < 0 {
          r := SetSpiffsErrno(o.res, errno);
        } else {
          st.ino := o.objId;
          st.mode := S_IFREG | PERM_RW_ALL;
          st.nlink := 1;
          st.size := o.size;
          r := 0;
        }
      }
      log := log + [Backend.Entry(Backend.Stat(name), r, [])];
    }

    /** What fs_spiffs_fstat does: as StatEffect, for an open descriptor. */
    twostate predicate FstatEffect(fd: int, st: StatBuf, errno: Errno, r: int)
      reads this, errno, st
    {
      && valid == old(valid) && commits == old(commits)
      && (!old(valid) ==> r == -EBADF && errno.value == EBADF && fs == old(fs) && st.Value() == ZERO_STAT)
      && (old(valid) ==>
            var o := engine.fstat(old(fs), fd);
            && fs == o.fs
            && (o.res < 0 ==> st.Value() == ZERO_STAT && Reported(o.res, o.fs.errCode, old(errno.value), errno.value, r))
            && (o.res >= 0 ==> st.Value() == FileStat(o.objId, o.size) && r == 0 && errno.value == old(errno.value)))
    }

    /** fs_spiffs_fstat: as Stat, for an open descriptor. */
    method Fstat(fd: int, st: StatBuf, errno: Errno) returns (r: int)
      modifies this, errno, st
      ensures FstatEffect(fd, st, errno, r)
      ensures log == old(log) + [Backend.Entry(Backend.Fstat(fd), r, [])]
    {
      st.Clear();
      if !valid {
        r := errno.Set(EBADF);
      } else {
        var o := engine.fstat(fs, fd);
        fs := o.fs;
        if o.res < 0 {
          r := SetSpiffsErrno(o.res, errno);
        } else {
          st.ino := o.objId;
          st.mode := S_IFREG | PERM_RW_ALL;
          st.nlink := 1;
          st.size := o.size;
          r := 0;
        }
      }
      log := log + [Backend.Entry(Backend.Fstat(fd), r, [])];
    }

    /** What fs_spiffs_lseek does: EBADF on an invalid mount, otherwise the engine's reported result. */
    twostate predicate LseekEffect(fd: int, offset: int, whence: int, errno: Errno, r: int)
      reads this, errno
    {
      && valid == old(valid) && commits == old(commits)
      && (!old(valid) ==> r == -EBADF && errno.value == EBADF && fs == old(fs))
      && (old(valid) ==>
            var o := engine.lseek(old(fs), fd, offset, whence);
            fs == o.fs && Reported(o.res, o.fs.errCode, old(errno.value), errno.value, r))
    }

    method Lseek(fd: int, offset: int, whence: int, errno: Errno) returns (r: int)
      modifies this, errno
      ensures LseekEffect(fd, offset, whence, errno, r)
      ensures log == old(log) + [Backend.Entry(Backend.Lseek(fd, offset, whence), r, [])]
    {
      if !valid {
        r := errno.Set(EBADF);
      } else {
        var o := engine.lseek(fs, fd, offset, whence);
        fs := o.fs;
        r := SetSpiffsErrno(o.res, errno);
      }
      log := log + [Backend.Entry(Backend.Lseek(fd, offset, whence), r, [])];
    }

    /**
     * What fs_spiffs_rename does: EBADF on an invalid mount; otherwise one
     * commit exactly when the engine reports SPIFFS_OK, and the engine's
     * result reported either way.
     */
    twostate predicate RenameEffect(from: string, to: string, errno: Errno, r: int)
      reads this, errno
    {
      && valid == old(valid)
      && (!old(valid) ==> r == -EBADF && errno.value == EBADF && fs == old(fs) && commits == old(commits))
      && (old(valid) ==>
            var o := engine.rename(old(fs), from, to);
            && fs == o.fs
            && commits == old(commits) + (if o.res == SPIFFS_OK then 1 else 0)
            && Reported(o.res, o.fs.errCode, old(errno.value), errno.value, r))
    }

    /**
     * fs_spiffs_rename: commits the container exactly once when the engine
     * reports SPIFFS_OK; the engine result is reported either way.
     */
    method Rename(from: string, to: string, errno: Errno) returns (r: int)
      modifies this, errno
      ensures RenameEffect(from, to, errno, r)
      ensures log == old(log) + [Backend.Entry(Backend.Rename(from, to), r, [])]
    {
      if !valid {
        r := errno.Set(EBADF);
      } else {
        var o := engine.rename(fs, from, to);
        fs := o.fs;
        if o.res == SPIFFS_OK {
          commits := commits + 1;
        }
        r := SetSpiffsErrno(o.res, errno);
      }
      log := log + [Backend.Entry(Backend.Rename(from, to), r, [])];
    }

    /** What fs_spiffs_unlink does: the same commit rule as RenameEffect, around SPIFFS_remove. */
    twostate predicate UnlinkEffect(name: string, errno: Errno, r: int)
      reads this, errno
    {
      && valid == old(valid)
      && (!old(valid) ==> r == -EBADF && errno.value == EBADF && fs == old(fs) && commits == old(commits))
      && (old(valid) ==>
            var o := engine.remove(old(fs), name);
            && fs == o.fs
            && commits == old(commits) + (if o.res == SPIFFS_OK then 1 else 0)
            && Reported(o.res, o.fs.errCode, old(errno.value), errno.value, r))
    }

    /** fs_spiffs_unlink: the same commit rule as Rename, around SPIFFS_remove. */
    method Unlink(name: string, errno: Errno) returns (r: int)
      modifies this, errno
      ensures UnlinkEffect(name, errno, r)
      ensures log == old(log) + [Backend.Entry(Backend.Unlink(name), r, [])]
    {
      if !valid {
        r := errno.Set(EBADF);
      } else {
        var o := engine.remove(fs, name);
        fs := o.fs;
        if o.res == SPIFFS_OK {
          commits := commits + 1;
        }
        r := SetSpiffsErrno(o.res, errno);
      }
      log := log + [Backend.Entry(Backend.Unlink(name), r, [])];
    }

    /**
     * What fs_spiffs_opendir does: NULL with EBADF on an invalid mount,
     * NULL with ENOTDIR for a NULL name, NULL with errno untouched when the
     * engine refuses, otherwise a fresh handle at the start of a listing on
     * this file system.
     */
    twostate predicate OpendirEffect(name: Option<string>, errno: Errno, new d: Dir?)
      reads this, errno, d
    {
      && valid == old(valid) && commits == old(commits)
      && (!old(valid) ==> d == null && errno.value == EBADF && fs == old(fs))
      && (old(valid) && name.None? ==> d == null && errno.value == ENOTDIR && fs == old(fs))
      && (old(valid) && name.Some? ==>
            var o := engine.opendir(old(fs), name.value);
            && fs == o.fs && errno.value == old(errno.value)
            && (d == null <==> o.res < 0)
            && (d != null ==> fresh(d) && d.fsId == id && d.cursor == 0))
    }

    /**
     * fs_spiffs_opendir: NULL with EBADF on an invalid mount, NULL with
     * ENOTDIR for a NULL name, NULL (errno untouched) when the engine
     * refuses, otherwise a fresh handle on this file system.
     */
    method Opendir(name: Option<string>, errno: Errno) returns (d: Dir?)
      modifies this, errno
      ensures OpendirEffect(name, errno, d)
      ensures log == old(log) + [Backend.Entry(Backend.Opendir(name), if d == null then -1 else 0, [])]
    {
      d := null;
      if !valid {
        var _ := errno.Set(EBADF);
      } else if name.None? {
        var _ := errno.Set(ENOTDIR);
      } else {
        var o := engine.opendir(fs, name.value);
        fs := o.fs;
        if o.res >= 0 {
          d := new Dir(id);
        }
      }
      log := log + [Backend.Entry(Backend.Opendir(name), if d == null then -1 else 0, [])];
    }

    /**
     * fs_spiffs_readdir: refuses with EBADF when the mount is invalid or the
     * handle belongs to another file system; otherwise advances the handle
     * and, at the end or on error, sets errno from the engine's last error.
     */
    method Readdir(dir: Dir, errno: Errno) returns (e: Option<Dirent>)
      modifies this, errno, dir
      ensures valid == old(valid) && commits == old(commits)
      ensures !old(valid) || dir.fsId != id ==>
        e == None && errno.value == EBADF && fs == old(fs) && dir.cursor == old(dir.cursor)
      ensures old(valid) && dir.fsId == id ==>
        var o := engine.readdir(old(fs), old(dir.cursor));
        && fs == o.fs && dir.cursor == o.cursor && e == o.entry
        && errno.value == (if o.entry.None? then SpiffsErrToErrno(o.fs.errCode) else old(errno.value))
      ensures log == old(log) + [Backend.Entry(Backend.Readdir(old(dir.cursor)), if e.None? then -1 else 0, [])]
    {
      var at := dir.cursor;
      if !valid || dir.fsId != id {
        var _ := errno.Set(EBADF);
        e := None;
      } else {
        var o := engine.readdir(fs, dir.cursor);
        fs := o.fs;
        dir.cursor := o.cursor;
        e := o.entry;
        if e.None? {
          var _ := SetSpiffsErrno(-1, errno);
        }
      }
      log := log + [Backend.Entry(Backend.Readdir(at), if e.None? then -1 else 0, [])];
    }
  }
}
