/**
 * A record of the calls a storage adapter has answered. Each adapter
 * object keeps such a record as a ghost field; the dispatcher's
 * contracts use it to say which adapter an operation went to and with
 * which arguments.
 */
module Backend {
  import opened Wrappers

  datatype Call =
    | Open(name: string, flags: bv32, mode: int)
    | Close(fd: int)
    | Read(fd: int, count: nat)
    | Write(fd: int, data: seq<bv8>)
    | Lseek(fd: int, offset: int, whence: int)
    | Stat(name: string)
    | Fstat(fd: int)
    | Rename(from: string, to: string)
    | Unlink(name: string)
    | Opendir(dir: Option<string>)
    | Readdir(cursor: nat)

  /** A call, the value the adapter returned for it, and the bytes it delivered (reads only). */
  datatype Entry = Entry(call: Call, res: int, data: seq<bv8>)

  /** `after` is `before` with exactly one more call, namely `c`. */
  ghost predicate Answered(before: seq<Entry>, after: seq<Entry>, c: Call)
  {
    |after| == |before| + 1 && after[..|before|] == before && after[|before|].call == c
  }

  ghost function LastRes(log: seq<Entry>): int
    requires log != []
  {
    log[|log| - 1].res
  }
}
