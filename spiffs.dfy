/**
 * The SPIFFS engine as seen from its libc adapter. The engine itself is
 * not part of this model: its state is a record of files, open
 * descriptors and the last error code, and each engine call is a
 * function-valued field of `Engine`, so everything proved about the
 * adapter holds whatever the engine does.
 *
 * Error codes and mode bits are those of spiffs.h.
 */
module Spiffs {
  import opened Wrappers

  const SPIFFS_OK: int := 0
  const SPIFFS_ERR_FULL: int := -10001
  const SPIFFS_ERR_NOT_FOUND: int := -10002
  const SPIFFS_ERR_NOT_WRITABLE: int := -10021
  const SPIFFS_ERR_NOT_READABLE: int := -10022

  const SPIFFS_APPEND: bv8 := 0x01
  const SPIFFS_TRUNC: bv8 := 0x02
  const SPIFFS_CREAT: bv8 := 0x04
  const SPIFFS_RDONLY: bv8 := 0x08
  const SPIFFS_WRONLY: bv8 := 0x10
  const SPIFFS_EXCL: bv8 := 0x40

  /** An open SPIFFS descriptor: the object it names and the mode it was opened with. */
  datatype OpenFile = OpenFile(name: string, flags: bv8, offset: nat)

  /** The engine state: file contents, the descriptor table, and `err_code`. */
  datatype Fs = Fs(files: map<string, seq<bv8>>, fds: map<int, OpenFile>, errCode: int)

  /** spiffs_fd_get: looks a descriptor up in the table. */
  function FdGet(fs: Fs, fd: int): Option<OpenFile>
  {
    if fd in fs.fds then Some(fs.fds[fd]) else None
  }

  /** The outcome of an engine call: the new state and the call's return value. */
  datatype Status = Status(fs: Fs, res: int)
  /** SPIFFS_read also hands back the bytes read. */
  datatype Bytes = Bytes(fs: Fs, res: int, data: seq<bv8>)
  /** SPIFFS_stat / SPIFFS_fstat also fill a `spiffs_stat`. */
  datatype ObjStat = ObjStat(fs: Fs, res: int, objId: int, size: int)
  /** One directory entry as SPIFFS_readdir reports it. */
  datatype Dirent = Dirent(name: string, objId: int, size: int)
  /** SPIFFS_readdir: the next entry (None at the end or on error) and the advanced cursor. */
  datatype Listing = Listing(fs: Fs, entry: Option<Dirent>, cursor: nat)

  /** The engine calls the adapter makes. */
  datatype Engine = Engine(
    open: (Fs, string, bv8) -> Status,
    close: (Fs, int) -> Fs,
    read: (Fs, int, nat) -> Bytes,
    write: (Fs, int, seq<bv8>) -> Status,
    lseek: (Fs, int, int, int) -> Status,
    stat: (Fs, string) -> ObjStat,
    fstat: (Fs, int) -> ObjStat,
    rename: (Fs, string, string) -> Status,
    remove: (Fs, string) -> Status,
    opendir: (Fs, string) -> Status,
    readdir: (Fs, nat) -> Listing)
}
