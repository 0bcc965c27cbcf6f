# CC3200 virtual file-descriptor layer

A Dafny model of the file layer that the CC3200 port of Smart.js puts under
the C library. The layer has two parts:

- **The dispatcher** (`common/platforms/cc3200/cc3200_fs.c`). It shares one
  integer descriptor space among three owners: the console (0..2), SPIFFS
  (from 10) and the SimpleLink file system, SLFS (from 100). It also shares
  one path namespace between SPIFFS and SLFS: a name that starts with `SL:`
  belongs to SLFS. It answers console operations itself and passes every
  other operation to one store, adding or removing that store's base.
- **The SPIFFS adapter** (`smartjs/platforms/cc3200/cc3200_fs_spiffs.c`).
  It turns open(2) flags into SPIFFS mode bits and SPIFFS error codes into
  errno values. It refuses every file and listing call while the mount is invalid; `fs_spiffs_closedir`, `fs_spiffs_rmdir` and `fs_spiffs_mkdir` never look at the mount. It
  commits the SPIFFS container file (`fs_close_container`) in three cases:
  after closing a descriptor that was open for writing, after a successful
  rename, and after a successful unlink.

Files and modules:

- `posix.dfy`, module `Posix`: errno values, open flags, `st_mode` bits.
  Also the caller's `struct stat` (class `StatBuf`) and the global `errno`
  (class `Errno`, whose `Set` is `set_errno`).
- `spiffs.dfy`, module `Spiffs`: the SPIFFS engine as the adapter sees it.
  Its state is a record of file contents, open descriptors with their mode
  bits, and the last error code. Each engine call is a function-valued
  field of `Engine`, so the adapter is proved correct for any engine.
- `slfs.dfy`, module `Slfs`: a stand-in for the SLFS adapter, built the same
  way. A call's outcome (`Reply`) also says whether it sets errno and to
  what, and `Adapter.Applied` states that outcome.
- `backend.dfy`, module `Backend`: the calls a store can receive. Each store
  object keeps a ghost log of the calls it has answered. The dispatcher's
  contracts use these logs to state routing: an operation adds exactly one
  entry to the log of the store it chose, with the arguments it passed, and
  leaves the other store unchanged.
- `spiffs_adapter.dfy`, module `SpiffsAdapter`: the adapter. The mount record
  `s_fsm` is class `Mount`, and `commits` counts the container commits.
  The whole effect of each adapter call is a two-state predicate of
  `Mount`: the result, errno, engine state, commits and filled `stat`
  (`OpenEffect`, `CloseEffect`, and so on). The adapter's method ensures
  it, and so does the dispatcher on the SPIFFS route.
- `fs_names.dfy`, module `FsNames`: the pure decisions of the dispatcher.
  These are descriptor ranges, path normalisation and routing, and the
  console line-ending translation.
- `cc3200_fs.dfy`, module `Cc3200Fs`: the dispatcher as class `Vfs`. It
  holds the two store objects, `errno` and the UART output.
- `wrappers.dfy`, module `Wrappers`: `Option`.

`MAX_OPEN_SPIFFS_FILES` and `MAX_OPEN_SLFS_FILES` come from headers that are
not part of this model. They are the parameters `maxSpiffs` and `maxSlfs`.
`Vfs.Valid()` requires the SPIFFS range to end at or below 100, which keeps
the ranges disjoint (`FsNames.Disjoint`). Other numeric constants also come
from headers outside this model. The errno, `O_*` and `S_IF*` values follow
newlib. The SPIFFS error codes and mode bits follow `spiffs.h`. The proofs
rely on the errno values being distinct and positive, on the SPIFFS error
codes being distinct, and on the SPIFFS mode bits being distinct single
bits.

## Model

| member | source | states |
|---|---|---|
| `Posix.Errno.Set` | common/platforms/cc3200/cc3200_fs.c:39-42 | errno becomes `e` and the result is always `-e` |
| `FsNames.FdType` | common/platforms/cc3200/cc3200_fs.c:68-81 | each descriptor gets exactly one class. SYS iff in [0,3). SPIFFS iff in [10,10+max). SLFS iff in [100,100+max) and not in the SPIFFS range. INVALID iff in no range, negatives included |
| `FsNames.RangesDisjoint` | common/platforms/cc3200/cc3200_fs.c:33-35 | with the SPIFFS range ending at or below 100, no number is in two ranges and SLFS is exactly its own range |
| `FsNames.SlfsShadowed` | common/platforms/cc3200/cc3200_fs.c:70-78 | with a larger SPIFFS range, descriptor 100 is classed as SPIFFS although it is in the SLFS range |
| `FsNames.GlobalRoundTrip` | common/platforms/cc3200/cc3200_fs.c:83-99 | a native descriptor within a store's capacity, plus that store's base, is classed as that store, and subtracting the base gives it back. A negative result is returned unchanged and is INVALID |
| `FsNames.DropDir` | common/platforms/cc3200/cc3200_fs.c:52-56 | the result is a suffix of the input and at most 2 shorter. 2 chars go only for "./", 1 only for a leading '.' or '/', none only for a path with neither. After a lone '.' is removed, no leading '/' remains |
| `FsNames.DropDirPlain` | common/platforms/cc3200/cc3200_fs.c:52-56 | a path without a leading '.' or '/' is unchanged |
| `FsNames.DropDirEmpty` | common/platforms/cc3200/cc3200_fs.c:52-56 | the result is empty exactly for "", ".", "/" and "./" |
| `FsNames.StripSl` | common/platforms/cc3200/cc3200_fs.c:44-50 | a name with the "SL:" prefix is the prefix followed by the result. Any other name is returned unchanged |
| `FsNames.PathRoute` | common/platforms/cc3200/cc3200_fs.c:83-96 | the routing of open (and of unlink): SLFS iff the name after drop_dir starts with "SL:". SLFS gets that name minus exactly the 3 prefix chars. SPIFFS gets the name as drop_dir left it |
| `FsNames.SlPrefixRoutes` | common/platforms/cc3200/cc3200_fs.c:85-89 | "SL:p", "./SL:p", ".SL:p" and "/SL:p" all reach SLFS as "p" |
| `FsNames.DotSlashTransparent` | common/platforms/cc3200/cc3200_fs.c:85-86 | adding "./" in front of a path that has no leading '.' or '/' does not change its route |
| `FsNames.DotSlashNotTransparent` | common/platforms/cc3200/cc3200_fs.c:52-56 | "./" + "/SL:x" goes to SPIFFS as "/SL:x", while "/SL:x" goes to SLFS as "x" |
| `FsNames.StatRoute` | common/platforms/cc3200/cc3200_fs.c:101-124 | the routing of stat: "SL:" is tested on the raw path and removed, then drop_dir runs. The result is the root iff that leaves nothing. Otherwise SLFS iff the raw path had the prefix, with a non-empty name |
| `FsNames.StatRootPaths` | common/platforms/cc3200/cc3200_fs.c:103-115 | stat treats exactly eight paths as the root: "", ".", "/", "./" and the same four after "SL:" |
| `FsNames.StatOpenDisagree` | common/platforms/cc3200/cc3200_fs.c:101-106 | stat and open route "./SL:x" differently: stat sends "SL:x" to SPIFFS, open sends "x" to SLFS |
| `FsNames.StatOpenAgree` | common/platforms/cc3200/cc3200_fs.c:101-124 | for a path with no leading '.' or '/', both before and after any "SL:", stat and open choose the same store and name unless the path is the root |
| `FsNames.RenameRoute` | common/platforms/cc3200/cc3200_fs.c:271-283 | rename goes to SLFS iff EITHER name starts with "SL:" after drop_dir, with the prefix removed from each name that has it. Otherwise SPIFFS gets both names as drop_dir left them. See Findings |
| `FsNames.SlNameAsWritten` | common/platforms/cc3200/cc3200_fs.c:48-50 | sl_fname moves past 3 chars whether or not they are "SL:". The result stays inside the string only when the name has at least 3 chars |
| `FsNames.RenameRouteAsWritten` | common/platforms/cc3200/cc3200_fs.c:275-277 | the code as written reads past a name's end iff the rename goes to SLFS and either name is shorter than 3 chars. Otherwise an SLFS rename (either name with the prefix) drops 3 chars of both names, and a SPIFFS rename (neither name with it) passes both as drop_dir left them |
| `FsNames.RenameAsWrittenAgrees` | common/platforms/cc3200/cc3200_fs.c:271-283 | when both names have the prefix, or neither does, the code as written and `RenameRoute` agree |
| `FsNames.RenameAsWrittenOverreads` | common/platforms/cc3200/cc3200_fs.c:275-277 | rename("SL:a", "b") reads "b" past its terminator |
| `FsNames.RenameAsWrittenMangles` | common/platforms/cc3200/cc3200_fs.c:275-277 | rename("SL:a", "log.txt") gives SLFS ".txt" as the new name |
| `FsNames.RenameRoutedByEitherName` | common/platforms/cc3200/cc3200_fs.c:275-277 | for plain names p and q without the prefix, rename(p, "SL:"+q) and rename("SL:"+p, q) both go to SLFS. The corrected naming passes (p, q). The code as written also drops 3 chars of the unprefixed name, or reads past its end when it is shorter than 3 |
| `FsNames.Crlf` | common/platforms/cc3200/cc3200_fs.c:249-253 | the UART bytes for a buffer: one byte more than the buffer for each LF |
| `FsNames.CrlfNoBareLf` | common/platforms/cc3200/cc3200_fs.c:249-253 | every LF sent to the UART comes right after a CR |
| `FsNames.CrlfRoundTrip` | common/platforms/cc3200/cc3200_fs.c:249-253 | turning each CR LF pair back into LF gives the original buffer, so no byte is lost or changed |
| `Cc3200Fs.Vfs.Open` | common/platforms/cc3200/cc3200_fs.c:83-99 | exactly one store gets the open, chosen by `PathRoute` and given its name, flags and mode, and only that store changes. SPIFFS: the mount ends as `Mount.OpenEffect` states (engine state, errno, no commit). SLFS: its store and errno are those of that SLFS call. The result is the store's result plus its base when non-negative, unchanged when negative. A native fd within capacity comes back as a descriptor that `FdType` classes as that store |
| `Cc3200Fs.Vfs.Stat` | common/platforms/cc3200/cc3200_fs.c:101-127 | for the root, returns 0 with a directory (S_IFDIR, mode 0777, nlink 1, size 0, ino 0) and touches neither store nor errno. Otherwise exactly one store gets the stat, chosen and named by `StatRoute`. SPIFFS: result, errno, mount and `st` as `Mount.StatEffect` states. SLFS: result, errno, store and `st` are that SLFS call's |
| `Cc3200Fs.Vfs.Close` | common/platforms/cc3200/cc3200_fs.c:129-151 | INVALID: -EBADF with errno EBADF. Console: -EACCES with errno EACCES. Neither store changes in those cases. SPIFFS: that store alone closes fd minus 10, ending as `Mount.CloseEffect` states, so a valid mount returns 0 and commits the container iff the fd was open for writing. SLFS: fd minus 100 is closed, with result, errno and store those of that SLFS call |
| `Cc3200Fs.Vfs.Lseek` | common/platforms/cc3200/cc3200_fs.c:153-175 | INVALID: -EBADF. Console: -ESPIPE. Each sets errno to match and leaves both stores alone. Otherwise the one store gets fd minus base, offset and whence, and its result, errno and new state are those of `Mount.LseekEffect` or of that SLFS call |
| `Cc3200Fs.Vfs.Fstat` | common/platforms/cc3200/cc3200_fs.c:177-205 | INVALID: -EBADF and a zeroed stat. Console: always 0, with ino equal to fd, mode S_IFCHR and 0666, and every other field zero. Otherwise the one store gets fd minus base, and result, errno, store state and `st` are those of `Mount.FstatEffect` or of that SLFS call |
| `Cc3200Fs.Vfs.Read` | common/platforms/cc3200/cc3200_fs.c:207-235 | INVALID: -EBADF. Fd 0: -ENOTSUP. Fds 1 and 2: -EACCES. Each sets errno to match and returns no data. Otherwise the one store gets fd minus base, and result, bytes, errno and store state are those of `Mount.ReadEffect` or of that SLFS call |
| `Cc3200Fs.Vfs.Write` | common/platforms/cc3200/cc3200_fs.c:237-269 | INVALID: -EBADF. Fd 0: -EACCES. Fds 1 and 2 add `Crlf(buf)` to the UART and return the buffer length, not the number of bytes sent, with errno and stores unchanged. Otherwise the one store gets the write, and result, errno and store state are those of `Mount.WriteEffect` or of that SLFS call |
| `Cc3200Fs.Vfs.Rename` | common/platforms/cc3200/cc3200_fs.c:271-286 | exactly one store gets the rename, chosen and named by `RenameRoute` (the corrected naming, see Findings). SPIFFS: the mount ends as `Mount.RenameEffect` states, committing iff the engine returns SPIFFS_OK. SLFS: result, errno and store are that SLFS call's. The other store is unchanged |
| `Cc3200Fs.Vfs.Link` | common/platforms/cc3200/cc3200_fs.c:288-291 | always -ENOTSUP, with errno ENOTSUP |
| `Cc3200Fs.Vfs.Unlink` | common/platforms/cc3200/cc3200_fs.c:293-307 | exactly one store gets the unlink, chosen and named by `PathRoute` as for open. SPIFFS: the mount ends as `Mount.UnlinkEffect` states, committing iff the engine returns SPIFFS_OK. SLFS: result, errno and store are that SLFS call's |
| `Cc3200Fs.Vfs.Opendir` | common/platforms/cc3200/cc3200_fs.c:310-320 | a raw name with "SL:" (no drop_dir) gives NULL and errno ENOTSUP, and SPIFFS is not called. Any other name goes to the SPIFFS adapter and ends as `Mount.OpendirEffect` states: NULL iff the mount is invalid (errno EBADF) or the engine's opendir fails (errno untouched), otherwise a fresh handle at the start of this mount's listing |
| `SpiffsAdapter.SpiffsErrToErrno` | smartjs/platforms/cc3200/cc3200_fs_spiffs.c:17-30 | total, in both directions: OK iff 0, FULL iff ENOSPC, NOT_FOUND iff ENOENT, NOT_WRITABLE or NOT_READABLE iff EACCES, and any other code iff ENXIO |
| `SpiffsAdapter.Mode` | smartjs/platforms/cc3200/cc3200_fs_spiffs.c:42-49 | each SPIFFS bit is set iff its own condition holds: RDONLY iff access mode is RDONLY or RDWR, WRONLY iff WRONLY or RDWR, CREAT, TRUNC, APPEND and EXCL iff their O_ flag. No other bit is set |
| `SpiffsAdapter.ModeFromFlags` | smartjs/platforms/cc3200/cc3200_fs_spiffs.c:41-49 | building the bits one test at a time yields exactly `Mode(flags)` |
| `SpiffsAdapter.Mount.SetSpiffsErrno` | smartjs/platforms/cc3200/cc3200_fs_spiffs.c:32-37 | a non-negative result passes through with errno untouched. A negative one sets errno from the engine's LAST ERROR CODE, not from the result, and returns minus that errno |
| `SpiffsAdapter.Mount.Open` | smartjs/platforms/cc3200/cc3200_fs_spiffs.c:39-54 | invalid mount: -1 with errno and engine untouched. Otherwise the engine opens with `Mode(flags)` and its raw result is returned. errno is set from the last error only when that result is negative |
| `SpiffsAdapter.Mount.Close` | smartjs/platforms/cc3200/cc3200_fs_spiffs.c:56-70 | invalid mount: -EBADF, with no engine call and no commit. Otherwise the fd is always closed and 0 returned. The container is committed exactly once iff the fd was open with SPIFFS_WRONLY before the close |
| `SpiffsAdapter.Mount.Read` | smartjs/platforms/cc3200/cc3200_fs_spiffs.c:72-76 | invalid mount: -EBADF and no data. Otherwise the engine's result goes through set_spiffs_errno and its bytes are returned |
| `SpiffsAdapter.Mount.Write` | smartjs/platforms/cc3200/cc3200_fs_spiffs.c:78-82 | invalid mount: -EBADF. Otherwise the engine's result goes through set_spiffs_errno |
| `SpiffsAdapter.Mount.Stat` | smartjs/platforms/cc3200/cc3200_fs_spiffs.c:84-97 | stat is zeroed first. Invalid mount: -EBADF. Engine failure: error reported, stat stays zero. Success: 0 with S_IFREG and 0666, nlink 1, size and ino from the engine |
| `SpiffsAdapter.Mount.Fstat` | smartjs/platforms/cc3200/cc3200_fs_spiffs.c:99-112 | the same as Stat, for an open descriptor |
| `SpiffsAdapter.Mount.Lseek` | smartjs/platforms/cc3200/cc3200_fs_spiffs.c:114-118 | invalid mount: -EBADF. Otherwise the engine's result goes through set_spiffs_errno |
| `SpiffsAdapter.Mount.Rename` | smartjs/platforms/cc3200/cc3200_fs_spiffs.c:120-126 | invalid mount: -EBADF, no engine call, no commit. Otherwise one commit iff the engine returns SPIFFS_OK. The result goes through set_spiffs_errno either way, so the commit never affects it |
| `SpiffsAdapter.Mount.Unlink` | smartjs/platforms/cc3200/cc3200_fs_spiffs.c:128-134 | the same commit rule as Rename, around the engine's remove |
| `SpiffsAdapter.Mount.Opendir` | smartjs/platforms/cc3200/cc3200_fs_spiffs.c:136-161 | invalid mount: NULL with EBADF. NULL name: NULL with ENOTDIR. Engine refuses: NULL with errno untouched. Otherwise a fresh handle at the start of a listing on this mount |
| `SpiffsAdapter.Mount.Readdir` | smartjs/platforms/cc3200/cc3200_fs_spiffs.c:163-172 | invalid mount or a handle from another mount: NULL with EBADF and the handle unchanged. Otherwise the handle advances, and at the end of the listing errno is set from the engine's last error |
| `SpiffsAdapter.Rmdir` | smartjs/platforms/cc3200/cc3200_fs_spiffs.c:183-186 | the positive ENOTDIR for every path |
| `SpiffsAdapter.Mkdir` | smartjs/platforms/cc3200/cc3200_fs_spiffs.c:188-193 | returns 0 iff the path is exactly ".", and the positive ENOTDIR otherwise |

## Behaviour worth knowing

- **Closing twice.** A second close of a SPIFFS descriptor on a valid
  mount returns 0, not -EBADF: `fs_spiffs_close` returns 0 for any
  descriptor in the SPIFFS range, open or not (`SpiffsAdapter.Mount.Close`).
- **Mixed-prefix rename.** A rename goes to SLFS when either name has the
  "SL:" prefix, not only when the source name has it
  (`FsNames.RenameRoutedByEitherName`).
- **Leading "./".** A leading "./" changes a path's route when the rest of
  the path starts with '/', because drop_dir removes only one '/'
  (`FsNames.DotSlashNotTransparent`).
- **stat versus open.** stat tests for "SL:" before drop_dir and open tests
  after it, so the two can send the same path to different stores
  (`FsNames.StatOpenDisagree`).

## Findings

| source | as written | input that shows it | evidently intended | confidence | as-written member | corrected member |
|---|---|---|---|---|---|---|
| common/platforms/cc3200/cc3200_fs.c:275-277 | once either name has the "SL:" prefix, `sl_fname` (advance 3 chars) is applied to both names | rename("SL:a", "b") advances "b" past its terminator. rename("SL:a", "log.txt") renames to ".txt" | remove the prefix only from a name that has it | medium, not executed | `FsNames.RenameRouteAsWritten` | `FsNames.RenameRoute` |

`FsNames.RenameAsWrittenOverreads` and `FsNames.RenameAsWrittenMangles`
show the two inputs. `FsNames.RenameAsWrittenAgrees` shows that the fix
changes nothing when both names have the prefix or neither does.
`Cc3200Fs.Vfs.Rename` uses the corrected routing.

## Left out

- The SPIFFS engine (`SPIFFS_open`, `SPIFFS_read`, ..., `spiffs_fd_get`,
  `SPIFFS_errno`) is not part of this model. Its state is a record and its
  calls are arbitrary functions. `spiffs_fd_get` is a table lookup and
  `SPIFFS_errno` reads the last error code.
- `fs_close_container` is not part of this model. Each call adds one to
  `Mount.commits`. Its own success or failure is not modelled, and the
  code never reports it.
- The SLFS adapter (`fs_slfs_*`) is not part of this model. `Slfs.Adapter`
  passes each call to an arbitrary function, whose outcome also says
  whether errno is set and to what.
- The SPIFFS round trip (write "hello", close, reopen, read "hello") and
  the open-file limit depend on the engine's internals, so they are not
  stated.
- `readdir`, `closedir` and `rmdir` in cc3200_fs.c only forward to the
  adapter. The adapter's readdir and rmdir are modelled
  (`SpiffsAdapter.Mount.Readdir`, `SpiffsAdapter.Rmdir`).
  `fs_spiffs_closedir` (lines 174-180 of cc3200_fs_spiffs.c) closes the
  engine's listing, frees the handle and always returns 0. It is not
  modelled, because `Dir` handles are never freed here.
- `mkdir` in cc3200_fs.c (lines 338-343) has the same body as
  `fs_spiffs_mkdir`, so both are modelled by `SpiffsAdapter.Mkdir`.
- The `calloc` failure in `fs_spiffs_opendir` (NULL with ENOMEM) is heap
  exhaustion and is not modelled. Allocation always succeeds.
- `cc3200_fs_init` registers SLFS with the TI C runtime and is not
  modelled. Neither are the `DBG` logging and the `dprintf` in
  `set_spiffs_errno`.
- Builds with only one of `CC3200_FS_SPIFFS` and `CC3200_FS_SLFS` are not
  modelled. Both stores are always present.
- The UART (`MAP_UARTCharPut`) is not modelled as hardware. The bytes
  sent to it are the sequence `Vfs.uart`.
- Cc3200Fs.Vfs.Write: the console result is `|buf|` as an unbounded
  integer. The conversion of a `size_t` count to `int` at line 254 is not
  modelled, because buffers on this device are far smaller than 2^31.
- Cc3200Fs.Vfs.Rename: on a mixed-prefix rename (one name with "SL:", one
  without) it passes the corrected names of `FsNames.RenameRoute`. The
  code as written also drops the first 3 chars of the unprefixed name,
  or reads past its end when it is shorter than 3
  (`FsNames.RenameRouteAsWritten`, see Findings).
- FsNames.RenameRoutedByEitherName: the names (p, q) it states for a
  mixed-prefix rename are the corrected ones. Its last two clauses give
  what the code as written passes instead.
