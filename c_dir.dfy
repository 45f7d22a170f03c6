/** The sequential part of `dump_dir` in dumping.c: the filter applied to
    each directory entry, the join that forms an entry's path, and the
    `readdir` loop that dumps files and descends into directories, pushing
    the directory it leaves for later. */
module CDir {
  import opened Format
  import opened FileSystem
  import CDump

  // ---------------------------------------------------------------------
  // Entry filter

  /** The `d_type` values of Linux's `<dirent.h>`. */
  const DT_UNKNOWN: bv8 := 0
  const DT_FIFO: bv8 := 1
  const DT_CHR: bv8 := 2
  const DT_DIR: bv8 := 4
  const DT_BLK: bv8 := 6
  const DT_REG: bv8 := 8
  const DT_LNK: bv8 := 10
  const DT_SOCK: bv8 := 12
  const DT_WHT: bv8 := 14

  /** One directory entry as `readdir` returns it, with what the calls made
      on it do: whether `openat` succeeds, whether `fdopendir` on the
      descriptor succeeds, the entries listed if it is read as a directory,
      what `dump_file` sees if it is read as a file, and whether the
      bitmap allocation in `dump_file` succeeds. */
  datatype Entry = Entry(
    name: string,
    dtype: bv8,
    opens: bool,
    listable: bool,
    entries: seq<Entry>,
    file: FileInfo,
    allocOk: bool)

  predicate IsDots(name: string) {
    name == "." || name == ".."
  }

  /** The type test of the filter: some bit of `DT_REG | DT_DIR` is set. */
  predicate TypeAdmitted(dtype: bv8) {
    dtype & (DT_REG | DT_DIR) != 0
  }

  /** The test for descending: the `DT_DIR` bit is set. */
  predicate DirBit(dtype: bv8) {
    dtype & DT_DIR != 0
  }

  /** What the loop body does with an entry. */
  datatype Action = Skip | Descend | Dump | OpenError

  function Classify(e: Entry): (a: Action)
    ensures a == Skip <==> IsDots(e.name) || !TypeAdmitted(e.dtype)
    ensures a == Descend <==> !IsDots(e.name) && e.opens && DirBit(e.dtype)
    ensures a == Dump ==> e.opens && !DirBit(e.dtype) && TypeAdmitted(e.dtype)
    ensures a == OpenError ==> !e.opens
  {
    if IsDots(e.name) || !TypeAdmitted(e.dtype) then Skip
    else if e.opens && DirBit(e.dtype) then Descend
    else if e.opens then Dump
    else OpenError
  }

  /** The filter on the nine Linux values: the test is bitwise, so besides
      directories and regular files it lets block devices, sockets and
      whiteouts through as directories and symbolic links as files; only
      unknown types, fifos and character devices are skipped. */
  lemma DTypeTable()
    ensures !TypeAdmitted(DT_UNKNOWN) && !TypeAdmitted(DT_FIFO) && !TypeAdmitted(DT_CHR)
    ensures TypeAdmitted(DT_DIR) && DirBit(DT_DIR)
    ensures TypeAdmitted(DT_REG) && !DirBit(DT_REG)
    ensures TypeAdmitted(DT_BLK) && DirBit(DT_BLK)
    ensures TypeAdmitted(DT_LNK) && !DirBit(DT_LNK)
    ensures TypeAdmitted(DT_SOCK) && DirBit(DT_SOCK)
    ensures TypeAdmitted(DT_WHT) && DirBit(DT_WHT)
  {
  }

  /** Every byte with the directory bit passes the type test, so an entry
      is descended into exactly when it is not `.` or `..`, it opens, and
      its type has the `DT_DIR` bit. */
  lemma DirBitAdmitted(dtype: bv8)
    ensures DirBit(dtype) ==> TypeAdmitted(dtype)
  {
  }

  // ---------------------------------------------------------------------
  // Path join

  /** A directory being listed: its path and the length its context
      records, `len`. */
  datatype DirInfo = DirInfo(path: string, len: nat)

  /** The context `do_dump` starts from: path "." with `len` 1. */
  const Root := DirInfo(".", 1)

  /** `snprintf(buf, size, ...)` writes at most `size - 1` characters and the
      terminating zero. */
  function Truncate(s: string, size: nat): (r: string)
    requires size > 0
    ensures |r| == Min(|s|, size - 1) && r == s[..|r|]
  {
    if |s| < size then s else s[..size - 1]
  }

  /** The buffer size `dump_dir` allocates for an entry's path:
      `strlen(name) + len + 2`. */
  function ConcatLen(parent: DirInfo, name: string): nat {
    |name| + parent.len + 2
  }

  /** What `snprintf(fullpath, concat_len, "%s/%s", ...)` leaves in the
      buffer. */
  function FullPath(parent: DirInfo, name: string): string {
    Truncate(parent.path + "/" + name, ConcatLen(parent, name))
  }

  /** The context of an entry descended into. */
  function Child(parent: DirInfo, name: string): DirInfo {
    DirInfo(FullPath(parent, name), ConcatLen(parent, name))
  }

  /** The recorded length is at least the path's. */
  predicate Roomy(d: DirInfo) {
    d.len >= |d.path|
  }

  /** When the parent's recorded length covers its path the buffer is large
      enough: the path is the full join, and the child's recorded length
      covers the child's path with one more character of slack than the
      parent had. */
  lemma JoinFits(parent: DirInfo, name: string)
    requires Roomy(parent)
    ensures FullPath(parent, name) == Join(parent.path, name)
    ensures Roomy(Child(parent, name))
    ensures Child(parent, name).len - |Child(parent, name).path| == parent.len - |parent.path| + 1
  {
  }

  /** The root context satisfies the invariant. */
  lemma RootRoomy()
    ensures Roomy(Root) && Root.len - |Root.path| == 0
  {
  }

  /** Without the invariant the join can be cut short: a context of path
      "abc" whose recorded length is 0 gets "ab" for the entry "x". */
  lemma TruncatedWithoutRoom()
    ensures FullPath(DirInfo("abc", 0), "x") == "ab"
  {
    assert ("abc" + "/" + "x")[..2] == "ab";
  }

  // ---------------------------------------------------------------------
  // The readdir loop

  /** What `dump_dir` works on: the directory, whether `fdopendir` gave a
      stream (a null stream is read all the same), and the entries
      `readdir` has still to return. */
  datatype Ctx = Ctx(dir: DirInfo, listable: bool, stream: seq<Entry>)

  /** How `dump_dir` ends: with the current directory exhausted, or reading
      a null directory stream, which is undefined behaviour. */
  datatype DirExit = Exhausted | NullDirectory

  /** The number of entries in a listing and below it. */
  function Size(s: seq<Entry>): nat
    decreases s
  {
    if s == [] then 0 else 1 + Size(s[0].entries) + Size(s[1..])
  }

  /** The context after `readdir` returned the first remaining entry. */
  function Rest(c: Ctx): Ctx
    requires c.stream != []
  {
    c.(stream := c.stream[1..])
  }

  /** The context of the first remaining entry once it is descended into. */
  function Enter(c: Ctx): Ctx
    requires c.stream != []
  {
    var e := c.stream[0];
    Ctx(Child(c.dir, e.name), e.listable, e.entries)
  }

  /** One call of `dump_dir`, for the whole listing at once: the lines the
      files dumped write, the contexts pushed (oldest first), and how it
      ends. An entry descended into replaces the current context, whose
      remaining entries are pushed. */
  function DirRun(cur: Ctx, ps: nat): (r: (seq<Line>, seq<Ctx>, DirExit))
    requires ps > 0
    decreases Size(cur.stream)
  {
    if !cur.listable then ([], [], NullDirectory)
    else if cur.stream == [] then ([], [], Exhausted)
    else
      var e := cur.stream[0];
      match Classify(e)
      case Skip => DirRun(Rest(cur), ps)
      case OpenError => DirRun(Rest(cur), ps)
      case Dump =>
        var r := DirRun(Rest(cur), ps);
        (CDump.FileDump(FullPath(cur.dir, e.name), e.file, ps, e.allocOk).0 + r.0, r.1, r.2)
      case Descend =>
        var r := DirRun(Enter(cur), ps);
        (r.0, [Rest(cur)] + r.1, r.2)
  }

  /** `dump_dir(current, state)`. */
  method DumpDir(start: Ctx, ps: nat) returns (out: seq<Line>, pushed: seq<Ctx>, exit: DirExit)
    requires ps > 0
    ensures (out, pushed, exit) == DirRun(start, ps)
  {
    var current := start;
    out, pushed := [], [];
    assert out + DirRun(current, ps).0 == DirRun(current, ps).0;
    assert pushed + DirRun(current, ps).1 == DirRun(current, ps).1;
    while true
      invariant DirRun(start, ps).0 == out + DirRun(current, ps).0
      invariant DirRun(start, ps).1 == pushed + DirRun(current, ps).1
      invariant DirRun(start, ps).2 == DirRun(current, ps).2
      decreases Size(current.stream)
    {
      if !current.listable {
        assert out + [] == out && pushed + [] == pushed;
        return out, pushed, NullDirectory;
      }
      if current.stream == [] {
        break;
      }
      var e := current.stream[0];
      var fullpath := FullPath(current.dir, e.name);
      var action := Classify(e);
      if action == Descend {
        var r := DirRun(Enter(current), ps);
        assert DirRun(current, ps) == (r.0, [Rest(current)] + r.1, r.2);
        assert pushed + ([Rest(current)] + r.1) == (pushed + [Rest(current)]) + r.1;
        pushed := pushed + [Rest(current)];
        current := Enter(current);
      } else {
        var r := DirRun(Rest(current), ps);
        if action == Dump {
          var lines, _, _, _ := CDump.DumpFile(fullpath, e.file, ps, e.allocOk);
          assert DirRun(current, ps) == (lines + r.0, r.1, r.2);
          assert out + (lines + r.0) == (out + lines) + r.0;
          out := out + lines;
        } else {
          assert DirRun(current, ps) == r;
        }
        current := Rest(current);
      }
    }
    assert out + [] == out && pushed + [] == pushed;
    exit := Exhausted;
  }

  // ---------------------------------------------------------------------
  // Properties of the loop

  /** Every context the loop pushes keeps the length invariant, so no join
      made while listing it, here or after it is popped, is cut short. */
  lemma {:induction false} PushedRoomy(cur: Ctx, ps: nat)
    requires ps > 0 && Roomy(cur.dir)
    ensures forall c :: c in DirRun(cur, ps).1 ==> Roomy(c.dir)
    decreases Size(cur.stream)
  {
    if cur.listable && cur.stream != [] {
      var e := cur.stream[0];
      match Classify(e)
      case Skip => PushedRoomy(Rest(cur), ps);
      case OpenError => PushedRoomy(Rest(cur), ps);
      case Dump => PushedRoomy(Rest(cur), ps);
      case Descend =>
        JoinFits(cur.dir, e.name);
        PushedRoomy(Enter(cur), ps);
    }
  }

  /** The reference walk: the files of a listing and of every directory
      below it, in depth-first order, each written with its full path. */
  function Walk(cur: Ctx, ps: nat): seq<Line>
    requires ps > 0
    decreases Size(cur.stream)
  {
    if !cur.listable || cur.stream == [] then []
    else
      var e := cur.stream[0];
      match Classify(e)
      case Skip => Walk(Rest(cur), ps)
      case OpenError => Walk(Rest(cur), ps)
      case Dump => CDump.FileDump(FullPath(cur.dir, e.name), e.file, ps, e.allocOk).0 + Walk(Rest(cur), ps)
      case Descend => Walk(Enter(cur), ps) + Walk(Rest(cur), ps)
  }

  /** Listing pushed contexts as a single worker pops them, newest first. */
  function Resume(pushed: seq<Ctx>, ps: nat): seq<Line>
    requires ps > 0
  {
    if pushed == [] then []
    else Walk(pushed[|pushed| - 1], ps) + Resume(pushed[..|pushed| - 1], ps)
  }

  lemma {:induction false} ResumeAppend(a: seq<Ctx>, b: seq<Ctx>, ps: nat)
    requires ps > 0
    ensures Resume(a + b, ps) == Resume(b, ps) + Resume(a, ps)
  {
    if b == [] {
      assert a + b == a;
    } else {
      assert (a + b)[..|a + b| - 1] == a + b[..|b| - 1];
      ResumeAppend(a, b[..|b| - 1], ps);
    }
  }

  /** Nothing is lost by pushing: when `dump_dir` ends with its directory
      exhausted, its own lines followed by the walks of the contexts it
      pushed, newest first, are the depth-first walk of its listing. */
  lemma {:induction false} RunThenResume(cur: Ctx, ps: nat)
    requires ps > 0 && DirRun(cur, ps).2 == Exhausted
    ensures DirRun(cur, ps).0 + Resume(DirRun(cur, ps).1, ps) == Walk(cur, ps)
    decreases Size(cur.stream)
  {
    if cur.listable && cur.stream != [] {
      var e := cur.stream[0];
      match Classify(e)
      case Skip =>
        RunThenResume(Rest(cur), ps);
        PassResumes(cur, ps);
      case OpenError =>
        RunThenResume(Rest(cur), ps);
        PassResumes(cur, ps);
      case Dump =>
        RunThenResume(Rest(cur), ps);
        DumpResumes(cur, ps);
      case Descend =>
        RunThenResume(Enter(cur), ps);
        DescendResumes(cur, ps);
    }
  }

  /** An entry passed over changes neither the lines nor the walk. */
  lemma PassResumes(cur: Ctx, ps: nat)
    requires ps > 0 && cur.listable && cur.stream != []
    requires Classify(cur.stream[0]) == Skip || Classify(cur.stream[0]) == OpenError
    requires DirRun(Rest(cur), ps).0 + Resume(DirRun(Rest(cur), ps).1, ps) == Walk(Rest(cur), ps)
    ensures DirRun(cur, ps).0 + Resume(DirRun(cur, ps).1, ps) == Walk(cur, ps)
  {
    assert DirRun(cur, ps) == DirRun(Rest(cur), ps);
    assert Walk(cur, ps) == Walk(Rest(cur), ps);
  }

  /** A file's lines come first in both the loop's output and the walk. */
  lemma DumpResumes(cur: Ctx, ps: nat)
    requires ps > 0 && cur.listable && cur.stream != [] && Classify(cur.stream[0]) == Dump
    requires DirRun(Rest(cur), ps).0 + Resume(DirRun(Rest(cur), ps).1, ps) == Walk(Rest(cur), ps)
    ensures DirRun(cur, ps).0 + Resume(DirRun(cur, ps).1, ps) == Walk(cur, ps)
  {
    var e := cur.stream[0];
    var lines := CDump.FileDump(FullPath(cur.dir, e.name), e.file, ps, e.allocOk).0;
    var r := DirRun(Rest(cur), ps);
    assert DirRun(cur, ps) == (lines + r.0, r.1, r.2);
    assert Walk(cur, ps) == lines + Walk(Rest(cur), ps);
    assert (lines + r.0) + Resume(r.1, ps) == lines + (r.0 + Resume(r.1, ps));
  }

  /** The entry descended into is walked first, then the pushed rest of
      the listing. */
  lemma DescendResumes(cur: Ctx, ps: nat)
    requires ps > 0 && cur.listable && cur.stream != [] && Classify(cur.stream[0]) == Descend
    requires DirRun(Enter(cur), ps).0 + Resume(DirRun(Enter(cur), ps).1, ps) == Walk(Enter(cur), ps)
    ensures DirRun(cur, ps).0 + Resume(DirRun(cur, ps).1, ps) == Walk(cur, ps)
  {
    var r := DirRun(Enter(cur), ps);
    ResumeAppend([Rest(cur)], r.1, ps);
    assert [Rest(cur)][..0] == [];
    assert Resume([Rest(cur)], ps) == Walk(Rest(cur), ps) + [];
    assert DirRun(cur, ps) == (r.0, [Rest(cur)] + r.1, r.2);
    assert Walk(cur, ps) == Walk(Enter(cur), ps) + Walk(Rest(cur), ps);
  }
}
