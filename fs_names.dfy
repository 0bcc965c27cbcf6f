/**
 * The pure decisions of the CC3200 descriptor dispatcher (cc3200_fs.c):
 * which range a descriptor number falls in, how a path is normalised and
 * which store it names, and how console output is translated.
 */
module FsNames {
  import opened Wrappers

  const NUM_SYS_FDS: int := 3
  const SPIFFS_FD_BASE: int := 10
  const SLFS_FD_BASE: int := 100
  const SL_PREFIX: string := "SL:"

  // ---------------------------------------------------------------------
  // Descriptor ranges
  // ---------------------------------------------------------------------

  datatype FdKind = FdInvalid | FdSys | FdSpiffs | FdSlfs

  predicate InSys(fd: int) { 0 <= fd < NUM_SYS_FDS }
  predicate InSpiffs(fd: int, maxSpiffs: nat) { SPIFFS_FD_BASE <= fd < SPIFFS_FD_BASE + maxSpiffs }
  predicate InSlfs(fd: int, maxSlfs: nat) { SLFS_FD_BASE <= fd < SLFS_FD_BASE + maxSlfs }

  /** The configuration keeps the SPIFFS range below the SLFS base. */
  predicate Disjoint(maxSpiffs: nat) { SPIFFS_FD_BASE + maxSpiffs <= SLFS_FD_BASE }

  /**
   * fd_type. The console range is tested first, then SPIFFS, then SLFS, so
   * an SLFS number that also lies in an oversized SPIFFS range is SPIFFS.
   */
  function FdType(fd: int, maxSpiffs: nat, maxSlfs: nat): (k: FdKind)
    ensures k == FdSys <==> InSys(fd)
    ensures k == FdSpiffs <==> InSpiffs(fd, maxSpiffs)
    ensures k == FdSlfs <==> InSlfs(fd, maxSlfs) && !InSpiffs(fd, maxSpiffs)
    ensures k == FdInvalid <==> !InSys(fd) && !InSpiffs(fd, maxSpiffs) && !InSlfs(fd, maxSlfs)
  {
    if 0 <= fd && fd < NUM_SYS_FDS then FdSys
    else if fd >= SPIFFS_FD_BASE && fd < SPIFFS_FD_BASE + maxSpiffs then FdSpiffs
    else if fd >= SLFS_FD_BASE && fd < SLFS_FD_BASE + maxSlfs then FdSlfs
    else FdInvalid
  }

  /** With a disjoint configuration each range is exactly one class and no number is in two ranges. */
  lemma RangesDisjoint(fd: int, maxSpiffs: nat, maxSlfs: nat)
    requires Disjoint(maxSpiffs)
    ensures !(InSys(fd) && InSpiffs(fd, maxSpiffs))
    ensures !(InSys(fd) && InSlfs(fd, maxSlfs))
    ensures !(InSpiffs(fd, maxSpiffs) && InSlfs(fd, maxSlfs))
    ensures FdType(fd, maxSpiffs, maxSlfs) == FdSlfs <==> InSlfs(fd, maxSlfs)
  {
  }

  /** Without it, the first SLFS descriptor is taken for a SPIFFS one. */
  lemma SlfsShadowed(maxSpiffs: nat, maxSlfs: nat)
    requires !Disjoint(maxSpiffs) && maxSlfs > 0
    ensures InSlfs(SLFS_FD_BASE, maxSlfs)
    ensures FdType(SLFS_FD_BASE, maxSpiffs, maxSlfs) == FdSpiffs
  {
  }

  /** The global descriptor for a native result: shifted by the base when non-negative, unchanged when negative. */
  function Global(native: int, base: int): int
  {
    if native >= 0 then native + base else native
  }

  /**
   * A native descriptor within a store's capacity comes back as a global one
   * that fd_type assigns to that same store, and subtracting the base
   * recovers it; a negative (error) result stays negative and is no descriptor.
   */
  lemma GlobalRoundTrip(native: int, maxSpiffs: nat, maxSlfs: nat)
    requires Disjoint(maxSpiffs)
    ensures 0 <= native < maxSpiffs ==>
      FdType(Global(native, SPIFFS_FD_BASE), maxSpiffs, maxSlfs) == FdSpiffs
      && Global(native, SPIFFS_FD_BASE) - SPIFFS_FD_BASE == native
    ensures 0 <= native < maxSlfs ==>
      FdType(Global(native, SLFS_FD_BASE), maxSpiffs, maxSlfs) == FdSlfs
      && Global(native, SLFS_FD_BASE) - SLFS_FD_BASE == native
    ensures native < 0 ==>
      Global(native, SPIFFS_FD_BASE) == native && Global(native, SLFS_FD_BASE) == native
      && FdType(native, maxSpiffs, maxSlfs) == FdInvalid
  {
  }

  // ---------------------------------------------------------------------
  // Paths
  // ---------------------------------------------------------------------

  /** is_sl_fname: the name starts with "SL:" (case-sensitive). */
  predicate IsSlName(s: string)
  {
    |s| >= 3 && s[..3] == SL_PREFIX
  }

  /** A path with nothing for drop_dir to remove. */
  predicate Plain(s: string)
  {
    s == [] || (s[0] != '.' && s[0] != '/')
  }

  /**
   * drop_dir: removes at most one leading '.' and then at most one leading
   * '/'. The result is a suffix of the input at most two characters
   * shorter; two characters go only for "./", one only for a leading '.'
   * or '/', and nothing only when the path is Plain. After a lone '.' is
   * removed, what is left does not start with '/'.
   */
  function DropDir(s: string): (r: string)
    ensures |s| - 2 <= |r| <= |s| && r == s[|s| - |r|..]
    ensures |r| == |s| - 2 ==> s[0] == '.' && s[1] == '/'
    ensures |r| == |s| - 1 ==> s[0] == '.' || s[0] == '/'
    ensures |r| == |s| - 1 && s[0] == '.' ==> r == [] || r[0] != '/'
    ensures |r| == |s| ==> Plain(s)
  {
    var t := if |s| > 0 && s[0] == '.' then s[1..] else s;
    if |t| > 0 && t[0] == '/' then t[1..] else t
  }

  lemma DropDirPlain(s: string)
    requires Plain(s)
    ensures DropDir(s) == s
  {
  }

  /** Removes the "SL:" prefix where it is present and leaves other names alone. */
  function StripSl(s: string): (r: string)
    ensures IsSlName(s) ==> SL_PREFIX + r == s
    ensures !IsSlName(s) ==> r == s
  {
    if IsSlName(s) then s[3..] else s
  }

  /** Where an open or unlink goes, and the name that store is given. */
  datatype Route = ToSpiffs(name: string) | ToSlfs(name: string)

  /**
   * The routing of _open and _unlink: drop_dir first, then the "SL:" test;
   * SLFS receives the name with exactly the three prefix characters removed,
   * SPIFFS receives the name as drop_dir left it.
   */
  function PathRoute(path: string): (rt: Route)
    ensures rt.ToSlfs? <==> IsSlName(DropDir(path))
    ensures rt.ToSlfs? ==> SL_PREFIX + rt.name == DropDir(path)
    ensures rt.ToSpiffs? ==> rt.name == DropDir(path)
  {
    var p := DropDir(path);
    if IsSlName(p) then ToSlfs(p[3..]) else ToSpiffs(p)
  }

  /** drop_dir leaves a name that starts with "SL:" alone and gives back the part after the prefix. */
  lemma SlNameKept(p: string)
    ensures IsSlName(SL_PREFIX + p) && (SL_PREFIX + p)[3..] == p
    ensures DropDir(SL_PREFIX + p) == SL_PREFIX + p
  {
    assert (SL_PREFIX + p)[..3] == SL_PREFIX;
  }

  /** "SL:p", "./SL:p", ".SL:p" and "/SL:p" all reach SLFS as "p". */
  lemma SlPrefixRoutes(p: string)
    ensures PathRoute(SL_PREFIX + p) == ToSlfs(p)
    ensures PathRoute("./" + SL_PREFIX + p) == ToSlfs(p)
    ensures PathRoute("." + SL_PREFIX + p) == ToSlfs(p)
    ensures PathRoute("/" + SL_PREFIX + p) == ToSlfs(p)
  {
    SlNameKept(p);
    DotSlashSlRoutes(p);
    LeadRoutes(".", p);
    LeadRoutes("/", p);
  }

  lemma DotSlashSlRoutes(p: string)
    ensures PathRoute("./" + SL_PREFIX + p) == ToSlfs(p)
  {
    var s := SL_PREFIX + p;
    SlNameKept(p);
    assert "./" + SL_PREFIX + p == "./" + s;
    assert ("./" + s)[1..][1..] == s;
  }

  /** One leading '.' or '/' in front of "SL:p" is removed by drop_dir. */
  lemma LeadRoutes(lead: string, p: string)
    requires lead == "." || lead == "/"
    ensures PathRoute(lead + SL_PREFIX + p) == ToSlfs(p)
  {
    var s := SL_PREFIX + p;
    SlNameKept(p);
    assert lead + SL_PREFIX + p == lead + s && (lead + s)[1..] == s;
  }

  /** A leading "./" does not change where a plain path goes. */
  lemma DotSlashTransparent(p: string)
    requires Plain(p)
    ensures PathRoute("./" + p) == PathRoute(p)
  {
    assert DropDir("./" + p) == p;
  }

  /** ... but it does for a path that itself starts with '/': only one '/' is removed. */
  lemma DotSlashNotTransparent()
    ensures PathRoute("./" + "/SL:x") == ToSpiffs("/SL:x")
    ensures PathRoute("/SL:x") == ToSlfs("x")
  {
    assert DropDir("./" + "/SL:x") == "/SL:x";
    assert DropDir("/SL:x") == "SL:x";
  }

  /** Where a stat goes: the synthetic root, or a store with a name. */
  datatype StatTarget = Root | StatSpiffs(name: string) | StatSlfs(name: string)

  /**
   * The routing of _stat: unlike _open it tests "SL:" on the raw path,
   * strips it, and only then applies drop_dir. An empty result is the root.
   */
  function StatRoute(path: string): (t: StatTarget)
    ensures t.StatSlfs? ==> IsSlName(path) && t.name == DropDir(path[3..]) && t.name != []
    ensures t.StatSpiffs? ==> !IsSlName(path) && t.name == DropDir(path) && t.name != []
    ensures t.Root? <==> DropDir(StripSl(path)) == []
  {
    var isSl := IsSlName(path);
    var fname := DropDir(if isSl then path[3..] else path);
    if fname == [] then Root else if isSl then StatSlfs(fname) else StatSpiffs(fname)
  }

  /** drop_dir empties exactly the four spellings of the current directory. */
  lemma DropDirEmpty(s: string)
    ensures DropDir(s) == [] <==> s == "" || s == "." || s == "/" || s == "./"
  {
    if |s| == 1 {
      assert s == [s[0]];
    } else if |s| == 2 {
      assert s == [s[0], s[1]];
    } else if |s| > 2 {
      assert |DropDir(s)| > 0;
    }
  }

  /** The paths stat answers with the synthetic root directory are exactly these eight. */
  lemma {:induction false} StatRootPaths(path: string)
    ensures StatRoute(path) == Root <==>
      || path == "" || path == "." || path == "/" || path == "./"
      || path == "SL:" || path == "SL:." || path == "SL:/" || path == "SL:./"
  {
    var s := StripSl(path);
    DropDirEmpty(s);
    if IsSlName(path) {
      assert path == SL_PREFIX + s;
    }
    assert "SL:"[..3] == SL_PREFIX && "SL:."[..3] == SL_PREFIX;
    assert "SL:/"[..3] == SL_PREFIX && "SL:./"[..3] == SL_PREFIX;
  }

  /** stat and open can disagree: "./SL:x" is statted on SPIFFS but opened on SLFS. */
  lemma StatOpenDisagree()
    ensures StatRoute("./SL:x") == StatSpiffs("SL:x")
    ensures PathRoute("./SL:x") == ToSlfs("x")
  {
    assert !IsSlName("./SL:x");
    assert DropDir("./SL:x") == "SL:x";
  }

  /** They agree on a plain path whose name after any "SL:" is plain too. */
  lemma StatOpenAgree(path: string)
    requires Plain(path) && (IsSlName(path) ==> Plain(path[3..]))
    ensures StatRoute(path) == StatSlfs(PathRoute(path).name) || StatRoute(path) == Root
      || StatRoute(path) == StatSpiffs(PathRoute(path).name)
    ensures StatRoute(path).StatSlfs? ==> PathRoute(path).ToSlfs?
    ensures StatRoute(path).StatSpiffs? ==> PathRoute(path).ToSpiffs?
  {
    DropDirPlain(path);
    if IsSlName(path) {
      DropDirPlain(path[3..]);
    }
  }

  /** Where a rename goes, and the two names that store is given. */
  datatype RenameTarget = RenameSpiffs(from: string, to: string) | RenameSlfs(from: string, to: string)

  /**
   * The routing of _rename: drop_dir on both names; SLFS when EITHER name
   * carries the "SL:" prefix, SPIFFS otherwise. The SLFS branch removes the
   * prefix from each name that carries it (see RenameRouteAsWritten for
   * what the code does to a name without it).
   */
  function RenameRoute(from: string, to: string): (t: RenameTarget)
    ensures t.RenameSlfs? <==> IsSlName(DropDir(from)) || IsSlName(DropDir(to))
    ensures t.RenameSpiffs? ==> t.from == DropDir(from) && t.to == DropDir(to)
    ensures t.RenameSlfs? ==> t.from == StripSl(DropDir(from)) && t.to == StripSl(DropDir(to))
  {
    var f := DropDir(from);
    var t := DropDir(to);
    if IsSlName(f) || IsSlName(t) then RenameSlfs(StripSl(f), StripSl(t)) else RenameSpiffs(f, t)
  }

  /**
   * sl_fname as written: the name advanced by three characters whether or
   * not it starts with "SL:". A C string of n characters has n + 1 bytes
   * including its terminator, so the advanced pointer is inside it only
   * when n >= 3; None stands for a pointer past the terminator.
   */
  function SlNameAsWritten(s: string): (r: Option<string>)
    ensures r.Some? <==> |s| >= 3
    ensures r.Some? ==> s == s[..3] + r.value
  {
    if |s| >= 3 then Some(s[3..]) else None
  }

  /** The routing of _rename as written; None when a name is read past its end. */
  function RenameRouteAsWritten(from: string, to: string): (r: Option<RenameTarget>)
    ensures r.None? <==>
      (IsSlName(DropDir(from)) || IsSlName(DropDir(to))) && (|DropDir(from)| < 3 || |DropDir(to)| < 3)
    ensures r.Some? ==> (r.value.RenameSlfs? <==> IsSlName(DropDir(from)) || IsSlName(DropDir(to)))
    ensures r.Some? && r.value.RenameSpiffs? ==> r.value.from == DropDir(from) && r.value.to == DropDir(to)
    ensures r.Some? && r.value.RenameSlfs? ==>
      |DropDir(from)| >= 3 && |DropDir(to)| >= 3
      && DropDir(from) == DropDir(from)[..3] + r.value.from && DropDir(to) == DropDir(to)[..3] + r.value.to
  {
    var f := DropDir(from);
    var t := DropDir(to);
    if IsSlName(f) || IsSlName(t) then
      match (SlNameAsWritten(f), SlNameAsWritten(t))
      case (Some(f3), Some(t3)) => Some(RenameSlfs(f3, t3))
      case _ => None
    else Some(RenameSpiffs(f, t))
  }

  /** When both names carry the prefix, or neither does, the code as written and RenameRoute agree. */
  lemma RenameAsWrittenAgrees(from: string, to: string)
    requires IsSlName(DropDir(from)) == IsSlName(DropDir(to))
    ensures RenameRouteAsWritten(from, to) == Some(RenameRoute(from, to))
  {
  }

  /** A short second name without the prefix is read past its terminator. */
  lemma RenameAsWrittenOverreads()
    ensures IsSlName(DropDir("SL:a"))
    ensures RenameRouteAsWritten("SL:a", "b") == None
    ensures RenameRoute("SL:a", "b") == RenameSlfs("a", "b")
  {
    assert DropDir("SL:a") == "SL:a";
    assert DropDir("b") == "b";
  }

  /** A longer one loses three real characters. */
  lemma RenameAsWrittenMangles()
    ensures RenameRouteAsWritten("SL:a", "log.txt") == Some(RenameSlfs("a", ".txt"))
    ensures RenameRoute("SL:a", "log.txt") == RenameSlfs("a", "log.txt")
  {
    assert DropDir("SL:a") == "SL:a";
    assert DropDir("log.txt") == "log.txt";
  }

  /**
   * A rename is routed by either name, not by the source name alone: with
   * one plain name p that lacks the prefix, "SL:" on either side sends both
   * names to SLFS. With the corrected naming only the prefixed one loses its
   * first three characters; as written, both do, and a name shorter than
   * three characters is read past its end.
   */
  lemma RenameRoutedByEitherName(p: string, q: string)
    requires Plain(p) && !IsSlName(p) && Plain(q) && !IsSlName(q)
    ensures RenameRoute(p, SL_PREFIX + q) == RenameSlfs(p, q)
    ensures RenameRoute(SL_PREFIX + p, q) == RenameSlfs(p, q)
    ensures RenameRouteAsWritten(p, SL_PREFIX + q) == (if |p| >= 3 then Some(RenameSlfs(p[3..], q)) else None)
    ensures RenameRouteAsWritten(SL_PREFIX + p, q) == (if |q| >= 3 then Some(RenameSlfs(p, q[3..])) else None)
  {
    DropDirPlain(p);
    DropDirPlain(q);
    SlNameKept(p);
    SlNameKept(q);
    assert StripSl(p) == p && StripSl(q) == q;
    assert StripSl(SL_PREFIX + p) == p && StripSl(SL_PREFIX + q) == q;
    assert SlNameAsWritten(SL_PREFIX + p) == Some(p) && SlNameAsWritten(SL_PREFIX + q) == Some(q);
  }

  // ---------------------------------------------------------------------
  // Console output
  // ---------------------------------------------------------------------

  const LF: bv8 := 0x0A
  const CR: bv8 := 0x0D

  function NewlineCount(s: seq<bv8>): nat
  {
    if s == [] then 0 else NewlineCount(s[..|s| - 1]) + (if s[|s| - 1] == LF then 1 else 0)
  }

  /**
   * The bytes the console UART receives for a buffer: each LF is preceded
   * by a CR. Defined from the back, the way the write loop emits them.
   * The output is one byte longer per LF.
   */
  function Crlf(s: seq<bv8>): (r: seq<bv8>)
    ensures |r| == |s| + NewlineCount(s)
  {
    if s == [] then []
    else
      var c := s[|s| - 1];
      Crlf(s[..|s| - 1]) + (if c == LF then [CR, LF] else [c])
  }

  /** No LF reaches the UART without a CR right before it. */
  lemma {:induction false} CrlfNoBareLf(s: seq<bv8>)
    ensures forall i :: 0 <= i < |Crlf(s)| && Crlf(s)[i] == LF ==> 0 < i && Crlf(s)[i - 1] == CR
  {
    if s != [] {
      var init, c := s[..|s| - 1], s[|s| - 1];
      CrlfNoBareLf(init);
      var u := Crlf(init);
      var tail := if c == LF then [CR, LF] else [c];
      assert Crlf(s) == u + tail;
      forall i | 0 <= i < |u + tail| && (u + tail)[i] == LF
        ensures 0 < i && (u + tail)[i - 1] == CR
      {
        if i < |u| {
          assert (u + tail)[i] == u[i] && (u + tail)[i - 1] == u[i - 1];
        } else {
          assert c == LF;
        }
      }
    }
  }

  /** The inverse translation: a CR LF pair becomes LF, every other byte is kept. */
  function Uncrlf(t: seq<bv8>): seq<bv8>
  {
    if t == [] then []
    else if |t| >= 2 && t[|t| - 2..] == [CR, LF] then Uncrlf(t[..|t| - 2]) + [LF]
    else Uncrlf(t[..|t| - 1]) + [t[|t| - 1]]
  }

  /** Undoing the translation of a trailing CR LF. */
  lemma UncrlfPair(x: seq<bv8>)
    ensures Uncrlf(x + [CR, LF]) == Uncrlf(x) + [LF]
  {
    var t := x + [CR, LF];
    assert t[|t| - 2..] == [CR, LF];
    assert t[..|t| - 2] == x;
  }

  /** Undoing the translation of a trailing byte other than LF. */
  lemma UncrlfOther(x: seq<bv8>, c: bv8)
    requires c != LF
    ensures Uncrlf(x + [c]) == Uncrlf(x) + [c]
  {
    var t := x + [c];
    assert t[|t| - 1] == c;
    assert t[..|t| - 1] == x;
  }

  /** No byte is lost or altered: undoing the translation gives back the buffer. */
  lemma {:induction false} CrlfRoundTrip(s: seq<bv8>)
    ensures Uncrlf(Crlf(s)) == s
  {
    if s != [] {
      var init, c := s[..|s| - 1], s[|s| - 1];
      CrlfRoundTrip(init);
      assert Crlf(s) == Crlf(init) + (if c == LF then [CR, LF] else [c]);
      if c == LF {
        UncrlfPair(Crlf(init));
      } else {
        UncrlfOther(Crlf(init), c);
      }
      assert s == init + [c];
    }
  }
}
