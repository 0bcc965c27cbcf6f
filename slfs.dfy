/**
 * The SimpleLink file-system adapter (fs_slfs_*) is not part of this
 * model. It stands here as an object whose state is a record of files
 * and open descriptors and whose calls are function-valued fields of
 * `Ops`, so the dispatcher's routing is proved whatever those calls do.
 * Every call is recorded in the ghost `log`.
 */
module Slfs {
  import opened Wrappers
  import Posix
  import opened Backend

  datatype Store = Store(files: map<string, seq<bv8>>, fds: map<int, string>)

  /**
   * The outcome of an SLFS call: new state, return value, bytes read, stat
   * filled, and the errno the call sets (None: errno is left alone).
   */
  datatype Reply = Reply(store: Store, res: int, data: seq<bv8>, st: Posix.Stat, err: Option<int>)

  datatype Ops = Ops(
    open: (Store, string, bv32, int) -> Reply,
    close: (Store, int) -> Reply,
    read: (Store, int, nat) -> Reply,
    write: (Store, int, seq<bv8>) -> Reply,
    lseek: (Store, int, int, int) -> Reply,
    stat: (Store, string) -> Reply,
    fstat: (Store, int) -> Reply,
    rename: (Store, string, string) -> Reply,
    unlink: (Store, string) -> Reply)

  class Adapter {
    const ops: Ops
    var store: Store
    ghost var log: seq<Entry>

    constructor (ops: Ops, store: Store)
      ensures this.ops == ops && this.store == store && log == []
    {
      this.ops := ops;
      this.store := store;
      log := [];
    }

    /** The adapter's store, the result `r` and errno after a call whose outcome is `o`. */
    twostate predicate Applied(o: Reply, errno: Posix.Errno, r: int)
      reads this, errno
    {
      && store == o.store && r == o.res
      && errno.value == (if o.err.Some? then o.err.value else old(errno.value))
    }

    /** Takes the store and errno to the outcome `o` and returns its result. */
    method Apply(o: Reply, errno: Posix.Errno) returns (r: int)
      modifies this, errno
      ensures Applied(o, errno, r) && log == old(log)
    {
      store, r := o.store, o.res;
      if o.err.Some? {
        var _ := errno.Set(o.err.value);
      }
    }

    method Open(name: string, flags: bv32, mode: int, errno: Posix.Errno) returns (r: int)
      modifies this, errno
      ensures Applied(ops.open(old(store), name, flags, mode), errno, r)
      ensures log == old(log) + [Entry(Call.Open(name, flags, mode), r, [])]
    {
      var o := ops.open(store, name, flags, mode);
      r := Apply(o, errno);
      log := log + [Entry(Call.Open(name, flags, mode), r, [])];
    }

    method Close(fd: int, errno: Posix.Errno) returns (r: int)
      modifies this, errno
      ensures Applied(ops.close(old(store), fd), errno, r)
      ensures log == old(log) + [Entry(Call.Close(fd), r, [])]
    {
      var o := ops.close(store, fd);
      r := Apply(o, errno);
      log := log + [Entry(Call.Close(fd), r, [])];
    }

    method Read(fd: int, count: nat, errno: Posix.Errno) returns (r: int, data: seq<bv8>)
      modifies this, errno
      ensures Applied(ops.read(old(store), fd, count), errno, r) && data == ops.read(old(store), fd, count).data
      ensures log == old(log) + [Entry(Call.Read(fd, count), r, data)]
    {
      var o := ops.read(store, fd, count);
      r := Apply(o, errno);
      data := o.data;
      log := log + [Entry(Call.Read(fd, count), r, data)];
    }

    method Write(fd: int, buf: seq<bv8>, errno: Posix.Errno) returns (r: int)
      modifies this, errno
      ensures Applied(ops.write(old(store), fd, buf), errno, r)
      ensures log == old(log) + [Entry(Call.Write(fd, buf), r, [])]
    {
      var o := ops.write(store, fd, buf);
      r := Apply(o, errno);
      log := log + [Entry(Call.Write(fd, buf), r, [])];
    }

    method Lseek(fd: int, offset: int, whence: int, errno: Posix.Errno) returns (r: int)
      modifies this, errno
      ensures Applied(ops.lseek(old(store), fd, offset, whence), errno, r)
      ensures log == old(log) + [Entry(Call.Lseek(fd, offset, whence), r, [])]
    {
      var o := ops.lseek(store, fd, offset, whence);
      r := Apply(o, errno);
      log := log + [Entry(Call.Lseek(fd, offset, whence), r, [])];
    }

    method Stat(name: string, st: Posix.StatBuf, errno: Posix.Errno) returns (r: int)
      modifies this, errno, st
      ensures Applied(ops.stat(old(store), name), errno, r) && st.Value() == ops.stat(old(store), name).st
      ensures log == old(log) + [Entry(Call.Stat(name), r, [])]
    {
      var o := ops.stat(store, name);
      r := Apply(o, errno);
      st.Fill(o.st);
      log := log + [Entry(Call.Stat(name), r, [])];
    }

    method Fstat(fd: int, st: Posix.StatBuf, errno: Posix.Errno) returns (r: int)
      modifies this, errno, st
      ensures Applied(ops.fstat(old(store), fd), errno, r) && st.Value() == ops.fstat(old(store), fd).st
      ensures log == old(log) + [Entry(Call.Fstat(fd), r, [])]
    {
      var o := ops.fstat(store, fd);
      r := Apply(o, errno);
      st.Fill(o.st);
      log := log + [Entry(Call.Fstat(fd), r, [])];
    }

    method Rename(from: string, to: string, errno: Posix.Errno) returns (r: int)
      modifies this, errno
      ensures Applied(ops.rename(old(store), from, to), errno, r)
      ensures log == old(log) + [Entry(Call.Rename(from, to), r, [])]
    {
      var o := ops.rename(store, from, to);
      r := Apply(o, errno);
      log := log + [Entry(Call.Rename(from, to), r, [])];
    }

    method Unlink(name: string, errno: Posix.Errno) returns (r: int)
      modifies this, errno
      ensures Applied(ops.unlink(old(store), name), errno, r)
      ensures log == old(log) + [Entry(Call.Unlink(name), r, [])]
    {
      var o := ops.unlink(store, name);
      r := Apply(o, errno);
      log := log + [Entry(Call.Unlink(name), r, [])];
    }
  }
}
