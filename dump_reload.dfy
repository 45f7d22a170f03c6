/** The C loader on a whole dump: the lines the dumpers write for several
    files, one file's lines after another's. A file's path line ends the
    file before it (its pending run is loaded) and opens the next one, so
    `load_from_map` opens each file in turn and loads exactly the runs of
    that file's resident pages. */
module DumpReload {
  import opened Format
  import opened FileSystem
  import opened Loader
  import CDump
  import RustDump

  /** One file of a dump: its path and its resident pages. */
  datatype Entry = Entry(path: string, pages: seq<nat>)

  /** What one file of a dump gets: its path and the runs loaded for it. */
  datatype Segment = Segment(path: string, runs: seq<Run>)

  /** A file the dumpers write lines for: a path that is one line and does
      not read as a number, and at least one resident page, in increasing
      order, below the largest page the loader's signed 64-bit `page` holds. */
  predicate WellFormed(e: Entry) {
    && ParseDecimal(e.path) == None && '\n' !in e.path
    && e.pages != [] && StrictlyIncreasing(e.pages) && Last(e.pages) + 1 < MaxPages
  }

  predicate AllWellFormed(es: seq<Entry>) {
    forall j :: 0 <= j < |es| ==> WellFormed(es[j])
  }

  /** The dump's lines: each file's lines in turn. */
  function DumpText(es: seq<Entry>): (t: seq<string>)
    requires AllWellFormed(es)
  {
    if es == [] then []
    else
      var n := |es| - 1;
      assert AllWellFormed(es[..n]) by {
        forall j | 0 <= j < n ensures WellFormed(es[..n][j]) {
          assert es[..n][j] == es[j];
        }
      }
      SplitLast(es[n].pages);
      DumpText(es[..n]) + BlockText(es[n].path, es[n].pages)
  }

  /** What the dump promises: each file, in order, with the maximal runs
      of its resident pages. */
  function Expected(es: seq<Entry>): (r: seq<Segment>)
    ensures |r| == |es|
  {
    seq(|es|, j requires 0 <= j < |es| => Segment(es[j].path, Runs(es[j].pages)))
  }

  // ---------------------------------------------------------------------
  // Commands grouped by file

  /** A run added to the last file, if there is one; empty runs add nothing. */
  function AddRun(segs: seq<Segment>, start: nat, count: nat): (r: seq<Segment>)
    ensures |r| == |segs|
  {
    if count == 0 || segs == [] then segs
    else
      var last := segs[|segs| - 1];
      segs[..|segs| - 1] + [Segment(last.path, last.runs + [Run(start, count)])]
  }

  /** A command's effect on the grouping: opening a file starts a group and
      both loading and ending a file load their run into the current one. */
  function Next(segs: seq<Segment>, c: Cmd): seq<Segment> {
    match c
    case PrepareFile(line) => segs + [Segment(line, [])]
    case LoadRun(start, count) => AddRun(segs, start, count)
    case EndFile(start, count) => AddRun(segs, start, count)
  }

  /** The runs the commands load, grouped by the file opened before them. */
  function Segments(cmds: seq<Cmd>): seq<Segment> {
    if cmds == [] then [] else Next(Segments(cmds[..|cmds| - 1]), cmds[|cmds| - 1])
  }

  lemma SegmentsSnoc(a: seq<Cmd>, c: Cmd)
    ensures Segments(a + [c]) == Next(Segments(a), c)
  {
    assert (a + [c])[..|a|] == a;
  }

  /** A run added after other files' groups goes to the last group. */
  lemma AddRunAppend(x: seq<Segment>, y: seq<Segment>, start: nat, count: nat)
    requires y != []
    ensures AddRun(x + y, start, count) == x + AddRun(y, start, count)
  {
    if count > 0 {
      assert (x + y)[..|x + y| - 1] == x + y[..|y| - 1];
      assert (x + y)[|x + y| - 1] == y[|y| - 1];
    }
  }

  lemma NextAppend(x: seq<Segment>, y: seq<Segment>, c: Cmd)
    requires y != []
    ensures Next(x + y, c) == x + Next(y, c)
  {
    match c
    case PrepareFile(line) =>
    case LoadRun(start, count) => AddRunAppend(x, y, start, count);
    case EndFile(start, count) => AddRunAppend(x, y, start, count);
  }

  /** Commands that start by opening a file have a group. */
  lemma {:induction false} SegmentsOpened(cmds: seq<Cmd>)
    requires cmds != [] && cmds[0].PrepareFile?
    ensures Segments(cmds) != []
    decreases |cmds|
  {
    var n := |cmds| - 1;
    if n > 0 {
      SegmentsOpened(cmds[..n]);
    }
  }

  /** Commands that start by opening a file form groups of their own. */
  lemma {:induction false} SegmentsAppend(a: seq<Cmd>, b: seq<Cmd>)
    requires b != [] && b[0].PrepareFile?
    ensures Segments(a + b) == Segments(a) + Segments(b)
    decreases |b|
  {
    var n := |b| - 1;
    SegmentsSnoc(a + b[..n], b[n]);
    SegmentsSnoc(b[..n], b[n]);
    assert a + b == (a + b[..n]) + [b[n]];
    assert b == b[..n] + [b[n]];
    if n > 0 {
      SegmentsAppend(a, b[..n]);
      SegmentsOpened(b[..n]);
      NextAppend(Segments(a), Segments(b[..n]), b[n]);
    } else {
      assert a + b[..n] == a;
    }
  }

  /** One file opened and then only loads: one group with the loads' runs. */
  lemma {:induction false} SegmentsOne(path: string, cmds: seq<Cmd>)
    requires cmds != [] && cmds[0] == PrepareFile(path)
    requires forall k :: 1 <= k < |cmds| ==> cmds[k].LoadRun?
    ensures Segments(cmds) == [Segment(path, CmdRuns(cmds))]
    decreases |cmds|
  {
    var n := |cmds| - 1;
    if n == 0 {
      assert cmds == [] + [cmds[0]];
      assert CmdRuns(cmds) == [];
    } else {
      var prefix := cmds[..n];
      assert forall k :: 1 <= k < n ==> prefix[k] == cmds[k];
      SegmentsOne(path, prefix);
      var c := cmds[n];
      assert c.LoadRun?;
      assert CmdRuns(cmds) == CmdRuns(prefix) + if c.count > 0 then [Run(c.start, c.count)] else [];
      assert Segments(cmds) == Next(Segments(prefix), c);
      var segs := [Segment(path, CmdRuns(prefix))];
      assert Next(segs, c) == AddRun(segs, c.start, c.count);
      if c.count > 0 {
        assert segs[..0] == [];
        assert AddRun(segs, c.start, c.count) == [Segment(path, CmdRuns(prefix) + [Run(c.start, c.count)])];
      } else {
        assert CmdRuns(cmds) == CmdRuns(prefix) + [];
        assert CmdRuns(cmds) == CmdRuns(prefix);
        assert AddRun(segs, c.start, c.count) == segs;
      }
    }
  }

  /** Ending a file loads its run, as a load would. */
  lemma EndLikeLoad(a: seq<Cmd>, start: u64, count: u64)
    ensures Segments(a + [EndFile(start, count)]) == Segments(a + [LoadRun(start, count)])
  {
    SegmentsSnoc(a, EndFile(start, count));
    SegmentsSnoc(a, LoadRun(start, count));
  }

  // ---------------------------------------------------------------------
  // Decoding a dump file by file

  lemma {:induction false} TextHead(path: string, idx: seq<nat>)
    requires Sorted(idx) && idx != []
    ensures BlockText(path, idx)[0] == path
    decreases |idx|
  {
    if |idx| > 1 {
      SortedPrefix(idx);
      TextHead(path, idx[..|idx| - 1]);
    }
  }

  /** `x` is the decoding of a file's lines `y` after the state `d` inside
      another file: that file is ended, then the commands of `y` follow. */
  predicate Follows(x: Decoded, d: Decoded, y: Decoded) {
    && x.cmds == d.cmds + [EndFile(Wrap(d.page - d.count), Wrap(d.count))] + y.cmds
    && x.page == y.page && x.count == y.count
  }

  /** Inside a file, the lines of a file whose path does not read as a
      number end that file and then decode as they would at the start. */
  lemma {:induction false} ScanAfter(a: seq<string>, t: seq<string>)
    requires Scan(a).page >= 0 && t != [] && ParseDecimal(t[0]) == None
    ensures Follows(Scan(a + t), Scan(a), Scan(t))
    decreases |t|
  {
    var n := |t| - 1;
    assert a + t == (a + t[..n]) + [t[n]];
    assert t == t[..n] + [t[n]];
    if n == 0 {
      assert a + t[..n] == a;
      ScanPath(a, t[0]);
    } else {
      ScanAfter(a, t[..n]);
      ScanShift(a + t[..n], a, t[..n], t[n]);
    }
  }

  /** A line decodes the same after states that differ only in the
      commands issued so far. */
  lemma ScanShift(x: seq<string>, a: seq<string>, y: seq<string>, l: string)
    requires Follows(Scan(x), Scan(a), Scan(y))
    ensures Follows(Scan(x + [l]), Scan(a), Scan(y + [l]))
  {
    ScanSnoc(x, l);
    ScanSnoc(y, l);
  }

  /** Inside a file, a line that does not read as a number ends the file
      and opens the line as the next one. */
  lemma ScanPath(a: seq<string>, path: string)
    requires Scan(a).page >= 0 && ParseDecimal(path) == None
    ensures Follows(Scan(a + [path]), Scan(a), Scan([path]))
  {
    ScanSnoc(a, path);
    NameScan(path);
  }

  lemma ExpectedSnoc(es: seq<Entry>)
    requires es != []
    ensures Expected(es) == Expected(es[..|es| - 1]) + [Segment(es[|es| - 1].path, Runs(es[|es| - 1].pages))]
  {
  }

  lemma DumpSnoc(es: seq<Entry>)
    requires es != [] && AllWellFormed(es)
    ensures AllWellFormed(es[..|es| - 1]) && Sorted(es[|es| - 1].pages)
    ensures DumpText(es) == DumpText(es[..|es| - 1]) + BlockText(es[|es| - 1].path, es[|es| - 1].pages)
  {
    var n := |es| - 1;
    forall j | 0 <= j < n ensures WellFormed(es[..n][j]) {
      assert es[..n][j] == es[j];
    }
    SplitLast(es[n].pages);
  }

  /** Ending one file and then opening another with only loads after it:
      the files before, then the new file with its loads' runs. */
  lemma JoinFiles(a: seq<Cmd>, start: u64, count: u64, b: seq<Cmd>, path: string)
    requires b != [] && b[0] == PrepareFile(path)
    requires forall k :: 1 <= k < |b| ==> b[k].LoadRun?
    ensures Segments(a + [EndFile(start, count)] + b)
         == Segments(a + [LoadRun(start, count)]) + [Segment(path, CmdRuns(b))]
  {
    SegmentsAppend(a + [EndFile(start, count)], b);
    EndLikeLoad(a, start, count);
    SegmentsOne(path, b);
  }

  /** One file's lines decoded from the start: inside the file, after its
      last page, with the file opened first and only loads after that; the
      loads with the pending run loaded at the end are the file's runs. */
  predicate FileDecodes(b: Decoded, e: Entry)
    requires e.pages != []
  {
    var all := b.cmds + [LoadRun(Wrap(b.page - b.count), Wrap(b.count))];
    && b.page == Last(e.pages) + 1 && 1 <= b.count <= b.page
    && b.cmds != [] && b.cmds[0] == PrepareFile(e.path)
    && (forall k :: 1 <= k < |all| ==> all[k].LoadRun?)
    && CmdRuns(all) == Runs(e.pages)
  }

  lemma FileScan(e: Entry)
    requires WellFormed(e)
    ensures Sorted(e.pages) && FileDecodes(Scan(BlockText(e.path, e.pages)), e)
  {
    DecodeBlock(e.path, e.pages);
    PendingDecodes(Scan(BlockText(e.path, e.pages)), e);
  }

  lemma PendingDecodes(d: Decoded, e: Entry)
    requires e.pages != [] && Last(e.pages) + 1 < MaxPages && Pending(d, e.path, e.pages)
    ensures FileDecodes(d, e)
  {
    FinalRuns(d, e.path, e.pages);
  }

  /** After a dump's lines: inside its last file, with the page after the
      last one decoded and a pending run of at least one page; the first
      file was opened first, and loading the pending run gives each file
      in turn with exactly the runs of its resident pages. */
  predicate Decodes(d: Decoded, es: seq<Entry>)
    requires es != [] && es[|es| - 1].pages != []
  {
    && d.page == Last(es[|es| - 1].pages) + 1 && 1 <= d.count <= d.page
    && d.cmds != [] && d.cmds[0] == PrepareFile(es[0].path)
    && Segments(d.cmds + [LoadRun(Wrap(d.page - d.count), Wrap(d.count))]) == Expected(es)
  }

  /** The decoder on a dump. */
  lemma {:induction false} DumpScan(es: seq<Entry>)
    requires es != [] && AllWellFormed(es)
    ensures Decodes(Scan(DumpText(es)), es)
    decreases |es|
  {
    var n := |es| - 1;
    var e := es[n];
    DumpSnoc(es);
    assert WellFormed(e);
    var t := BlockText(e.path, e.pages);
    FileScan(e);
    if n == 0 {
      assert DumpText(es) == t by {
        assert DumpText(es[..0]) == [];
      }
      FirstFile(Scan(t), es);
    } else {
      var prev := es[..n];
      DumpScan(prev);
      var a := DumpText(prev);
      TextHead(e.path, e.pages);
      ScanAfter(a, t);
      NextFile(Scan(a), Scan(t), Scan(a + t), es);
    }
  }

  /** The first file's lines. */
  lemma FirstFile(b: Decoded, es: seq<Entry>)
    requires |es| == 1 && es[0].pages != [] && FileDecodes(b, es[0])
    ensures Decodes(b, es)
  {
    var all := b.cmds + [LoadRun(Wrap(b.page - b.count), Wrap(b.count))];
    assert all[0] == b.cmds[0];
    SegmentsOne(es[0].path, all);
    assert Expected(es) == [Segment(es[0].path, Runs(es[0].pages))];
  }

  /** A file's lines after the files before. */
  lemma NextFile(d0: Decoded, b: Decoded, d: Decoded, es: seq<Entry>)
    requires |es| > 1 && es[|es| - 2].pages != [] && es[|es| - 1].pages != []
    requires Decodes(d0, es[..|es| - 1]) && Follows(d, d0, b) && FileDecodes(b, es[|es| - 1])
    ensures Decodes(d, es)
  {
    var e := es[|es| - 1];
    var close := LoadRun(Wrap(b.page - b.count), Wrap(b.count));
    var end := EndFile(Wrap(d0.page - d0.count), Wrap(d0.count));
    assert d.cmds + [close] == d0.cmds + [end] + (b.cmds + [close]);
    JoinFiles(d0.cmds, Wrap(d0.page - d0.count), Wrap(d0.count), b.cmds + [close], e.path);
    ExpectedSnoc(es);
  }

  /** `load_from_map` on a dump it reads to the end returns 0, opens the
      first file first, and asks for each file in turn exactly the maximal
      runs of its resident pages. */
  lemma DumpLoads(es: seq<Entry>, budget: nat)
    requires es != [] && AllWellFormed(es) && budget > |DumpText(es)|
    ensures var p := LoadPlan(DumpText(es), false, budget);
      && p.status == 0 && p.cmds != [] && p.cmds[0] == PrepareFile(es[0].path)
      && Segments(p.cmds) == Expected(es)
  {
    DumpScan(es);
  }

  // ---------------------------------------------------------------------
  // The same on the loader's effects

  /** `open` succeeds on the path. */
  predicate Opens(files: map<string, FileInfo>, path: string) {
    path in files && files[path].openOk
  }

  /** Every file the commands open exists and opens. */
  predicate AllOpen(cmds: seq<Cmd>, files: map<string, FileInfo>) {
    forall k :: 0 <= k < |cmds| && cmds[k].PrepareFile? ==> Opens(files, cmds[k].line)
  }

  /** The runs handed to `load_pages`, grouped by the file opened before
      them; empty runs add nothing. */
  function EventSegments(events: seq<LoadEvent>): seq<Segment> {
    if events == [] then [] else EventNext(EventSegments(events[..|events| - 1]), events[|events| - 1])
  }

  /** An event's effect on the grouping: opening a file starts a group and
      a `load_pages` call adds its run to the current one. */
  function EventNext(segs: seq<Segment>, x: LoadEvent): seq<Segment> {
    match x
    case Open(path) => segs + [Segment(path, [])]
    case Flush(start, count) => AddRun(segs, start, count)
    case _ => segs
  }

  /** Read-ahead requests, overruns, unmapping and closing change no group. */
  lemma {:induction false} EventsQuiet(a: seq<LoadEvent>, tail: seq<LoadEvent>)
    requires forall k :: 0 <= k < |tail| ==> !tail[k].Open? && !tail[k].Flush?
    ensures EventSegments(a + tail) == EventSegments(a)
    decreases |tail|
  {
    if tail == [] {
      assert a + tail == a;
    } else {
      var n := |tail| - 1;
      assert (a + tail)[..|a + tail| - 1] == a + tail[..n];
      EventsQuiet(a, tail[..n]);
    }
  }

  lemma EventsSnoc(a: seq<LoadEvent>, x: LoadEvent)
    ensures EventSegments(a + [x]) == EventNext(EventSegments(a), x)
  {
    assert (a + [x])[..|a|] == a;
  }

  /** A `load_pages` call adds its run to the current group. */
  lemma LoadedSegments(e: Effects, start: u64, count: u64)
    ensures EventSegments(Loaded(e, start, count).events) == AddRun(EventSegments(e.events), start, count)
  {
    var w := LoadPages(e.fdi, e.fdOpen, start, count);
    var tail := AdviceEvents(w.advice) + (if w.overrun.Some? then [Overrun(w.overrun.value)] else []);
    assert Loaded(e, start, count).events == (e.events + [Flush(start, count)]) + tail;
    EventsQuiet(e.events + [Flush(start, count)], tail);
    EventsSnoc(e.events, Flush(start, count));
  }

  /** With `fd` open, or on a file that opens, a command's events group as
      the command does. */
  lemma ApplyFollows(e: Effects, c: Cmd, files: map<string, FileInfo>, ps: nat)
    requires ps > 0
    requires if c.PrepareFile? then Opens(files, c.line) else e.fdOpen
    ensures Apply(e, c, files, ps).fdOpen
    ensures EventSegments(Apply(e, c, files, ps).events) == Next(EventSegments(e.events), c)
  {
    match c
    case LoadRun(start, count) =>
      LoadedSegments(e, start, count);
    case EndFile(start, count) =>
      var l := Loaded(e, start, count);
      LoadedSegments(e, start, count);
      EventsQuiet(l.events, Finished(l.fdi).events);
    case PrepareFile(line) =>
      EventsSnoc(e.events, Open(line));
  }

  /** Commands that open a file first, where every file opens: `fd` stays
      open and the events group as the commands do. */
  lemma {:induction false} ExecFollows(cmds: seq<Cmd>, files: map<string, FileInfo>, ps: nat)
    requires ps > 0 && cmds != [] && cmds[0].PrepareFile? && AllOpen(cmds, files)
    ensures Exec(Fresh0, cmds, files, ps).fdOpen
    ensures EventSegments(Exec(Fresh0, cmds, files, ps).events) == Segments(cmds)
    decreases |cmds|
  {
    var n := |cmds| - 1;
    var prefix := cmds[..n];
    assert cmds == prefix + [cmds[n]];
    ExecSnoc(Fresh0, prefix, cmds[n], files, ps);
    SegmentsSnoc(prefix, cmds[n]);
    if n > 0 {
      assert AllOpen(prefix, files) by {
        forall k | 0 <= k < n && prefix[k].PrepareFile? ensures Opens(files, prefix[k].line) {
          assert prefix[k] == cmds[k];
        }
      }
      ExecFollows(prefix, files, ps);
    } else {
      assert Opens(files, cmds[0].line);
    }
    ApplyFollows(Exec(Fresh0, prefix, files, ps), cmds[n], files, ps);
  }

  /** The events of the first command come first. */
  lemma {:induction false} ExecKeeps(e: Effects, cmds: seq<Cmd>, files: map<string, FileInfo>, ps: nat)
    requires ps > 0
    ensures var r := Exec(e, cmds, files, ps).events;
      |e.events| <= |r| && r[..|e.events|] == e.events
    decreases |cmds|
  {
    if cmds != [] {
      var n := |cmds| - 1;
      ExecKeeps(e, cmds[..n], files, ps);
      var m := Exec(e, cmds[..n], files, ps);
      match cmds[n]
      case LoadRun(start, count) =>
      case EndFile(start, count) =>
      case PrepareFile(line) =>
    }
  }

  /** The file opened first is the first thing the commands do. */
  lemma OpensFirst(cmds: seq<Cmd>, files: map<string, FileInfo>, ps: nat)
    requires ps > 0 && cmds != [] && cmds[0].PrepareFile? && Opens(files, cmds[0].line)
    ensures var r := Exec(Fresh0, cmds, files, ps).events;
      r != [] && r[0] == Open(cmds[0].line)
  {
    var first := Exec(Fresh0, [cmds[0]], files, ps);
    assert first.events == [Open(cmds[0].line)] by {
      ExecSnoc(Fresh0, [], cmds[0], files, ps);
      assert [] + [cmds[0]] == [cmds[0]];
    }
    assert cmds == [cmds[0]] + cmds[1..];
    ExecAppend(Fresh0, [cmds[0]], cmds[1..], files, ps);
    ExecKeeps(first, cmds[1..], files, ps);
  }

  /** A file's own commands open only that file. */
  lemma FileOpens(d: Decoded, e: Entry, files: map<string, FileInfo>)
    requires e.pages != [] && FileDecodes(d, e) && Opens(files, e.path)
    ensures AllOpen(d.cmds, files)
  {
    var all := d.cmds + [LoadRun(Wrap(d.page - d.count), Wrap(d.count))];
    forall k | 0 <= k < |d.cmds| && d.cmds[k].PrepareFile? ensures Opens(files, d.cmds[k].line) {
      assert all[k] == d.cmds[k];
    }
  }

  /** Ending a file opens nothing. */
  lemma OpensJoin(x: Decoded, d: Decoded, y: Decoded, files: map<string, FileInfo>)
    requires Follows(x, d, y) && AllOpen(d.cmds, files) && AllOpen(y.cmds, files)
    ensures AllOpen(x.cmds, files)
  {
    var a := d.cmds;
    forall k | 0 <= k < |x.cmds| && x.cmds[k].PrepareFile? ensures Opens(files, x.cmds[k].line) {
      if k < |a| {
        assert x.cmds[k] == a[k];
      } else if k > |a| {
        assert x.cmds[k] == y.cmds[k - |a| - 1];
      }
    }
  }

  /** Every file a dump's decoding opens is one of the dump's files. */
  lemma {:induction false} DumpOpens(es: seq<Entry>, files: map<string, FileInfo>)
    requires es != [] && AllWellFormed(es)
    requires forall j :: 0 <= j < |es| ==> Opens(files, es[j].path)
    ensures AllOpen(Scan(DumpText(es)).cmds, files)
    decreases |es|
  {
    var n := |es| - 1;
    var e := es[n];
    DumpSnoc(es);
    assert WellFormed(e) && Opens(files, e.path);
    var t := BlockText(e.path, e.pages);
    FileScan(e);
    FileOpens(Scan(t), e, files);
    if n == 0 {
      assert DumpText(es) == t by {
        assert DumpText(es[..0]) == [];
      }
    } else {
      var prev := es[..n];
      assert forall j :: 0 <= j < n ==> prev[j] == es[j];
      DumpOpens(prev, files);
      DumpScan(prev);
      var a := DumpText(prev);
      TextHead(e.path, e.pages);
      ScanAfter(a, t);
      OpensJoin(Scan(a + t), Scan(a), Scan(t), files);
    }
  }

  /** `load_from_map` on a dump of files that all open, read to the end:
      it returns 0, opens the first file before anything else, and hands
      `load_pages`, for each file in turn, exactly the maximal runs of
      that file's resident pages. */
  lemma DumpReloads(es: seq<Entry>, budget: nat, files: map<string, FileInfo>, ps: nat)
    requires ps > 0 && es != [] && AllWellFormed(es) && budget > |DumpText(es)|
    requires forall j :: 0 <= j < |es| ==> Opens(files, es[j].path)
    ensures var o := LoadOutcome(DumpText(es), false, budget, files, ps);
      && o.status == 0 && o.events != [] && o.events[0] == Open(es[0].path)
      && EventSegments(o.events) == Expected(es)
  {
    DumpLoads(es, budget);
    DumpOpens(es, files);
    var p := LoadPlan(DumpText(es), false, budget);
    var d := Scan(DumpText(es));
    assert AllOpen(p.cmds, files) by {
      forall k | 0 <= k < |p.cmds| && p.cmds[k].PrepareFile? ensures Opens(files, p.cmds[k].line) {
        assert k < |d.cmds| && p.cmds[k] == d.cmds[k];
      }
    }
    OutcomeOfPlan(DumpText(es), false, budget, files, ps);
    ExecFollows(p.cmds, files, ps);
    OpensFirst(p.cmds, files, ps);
  }

  // ---------------------------------------------------------------------
  // The C dumper's repeated header

  /** The C dumper writes a header for each chunk with resident pages, so
      a file with pages 0, 1, 2^20 and 2^20+1 resident is written as two
      blocks of the same path. Loaded, the file is opened twice, each time
      with the run of one chunk. */
  lemma RepeatedHeaderReloads(path: string, budget: nat, files: map<string, FileInfo>, ps: nat)
    requires ps > 0 && ParseDecimal(path) == None && '\n' !in path && Opens(files, path) && budget > 6
    ensures var lines := RenderAll(CDump.FileDump(path, RustDump.TwoChunkFile(ps), ps, true).0);
      var o := LoadOutcome(lines, false, budget, files, ps);
      && o.status == 0 && o.events != [] && o.events[0] == Open(path)
      && EventSegments(o.events) == [Segment(path, [Run(0, 2)]), Segment(path, [Run(0x10_0000, 2)])]
  {
    var es := TwoChunkEntries(path);
    TwoChunkText(path, ps);
    DumpReloads(es, budget, files, ps);
  }

  /** The two blocks the C dumper writes for that file, as a dump. */
  function TwoChunkEntries(path: string): seq<Entry> {
    [Entry(path, [0, 1]), Entry(path, [0x10_0000, 0x10_0000 + 1])]
  }

  lemma TwoChunkText(path: string, ps: nat)
    requires ps > 0 && ParseDecimal(path) == None && '\n' !in path
    ensures var es := TwoChunkEntries(path);
      && AllWellFormed(es)
      && RenderAll(CDump.FileDump(path, RustDump.TwoChunkFile(ps), ps, true).0) == DumpText(es)
      && |DumpText(es)| == 6
      && Expected(es) == [Segment(path, [Run(0, 2)]), Segment(path, [Run(0x10_0000, 2)])]
  {
    TwoChunkDump(path);
    TwoChunkLines(path, ps);
    TwoChunkExpected(path);
  }

  lemma TwoChunkLines(path: string, ps: nat)
    requires ps > 0
    ensures RenderAll(CDump.FileDump(path, RustDump.TwoChunkFile(ps), ps, true).0)
         == [path, Decimal(0), Decimal(1)] + [path, Decimal(0x10_0000), Decimal(1)]
  {
    var C := 0x10_0000;
    CDump.TwoChunkRepeatsHeader(path, ps);
    var b1 := [Header(path), Delta(0), Delta(1)];
    var b2 := [Header(path), Delta(C), Delta(1)];
    assert [Header(path), Delta(0), Delta(1), Header(path), Delta(C), Delta(1)] == b1 + b2;
    RenderAppend(b1, b2);
    RenderTriple(path, 0, 1);
    RenderTriple(path, C, 1);
  }

  lemma TwoChunkExpected(path: string)
    ensures Expected(TwoChunkEntries(path)) == [Segment(path, [Run(0, 2)]), Segment(path, [Run(0x10_0000, 2)])]
  {
    RunsPair(0);
    RunsPair(0x10_0000);
  }

  lemma TwoChunkDump(path: string)
    requires ParseDecimal(path) == None && '\n' !in path
    ensures AllWellFormed(TwoChunkEntries(path))
    ensures DumpText(TwoChunkEntries(path))
         == [path, Decimal(0), Decimal(1)] + [path, Decimal(0x10_0000), Decimal(1)]
  {
    var C := 0x10_0000;
    var es := TwoChunkEntries(path);
    assert es[..1] == [es[0]] && [es[0]][..0] == [];
    assert AllWellFormed(es);
    PairText(path, 0, 1);
    PairText(path, C, C + 1);
    assert DumpText([es[0]]) == BlockText(path, [0, 1]);
  }

  lemma PairText(path: string, a: nat, b: nat)
    requires a <= b
    ensures Sorted([a, b]) && BlockText(path, [a, b]) == [path, Decimal(a), Decimal(b - a)]
  {
    assert [a, b][..1] == [a];
  }

  lemma RenderTriple(path: string, a: nat, d: nat)
    ensures RenderAll([Header(path), Delta(a), Delta(d)]) == [path, Decimal(a), Decimal(d)]
  {
    assert RenderAll([Header(path)]) == [path] by {
      assert [Header(path)][..0] == [];
    }
    RenderSnoc([Header(path)], Delta(a));
    assert [Header(path)] + [Delta(a)] == [Header(path), Delta(a)];
    RenderSnoc([Header(path), Delta(a)], Delta(d));
    assert [Header(path), Delta(a)] + [Delta(d)] == [Header(path), Delta(a), Delta(d)];
  }

  lemma {:induction false} RenderAppend(x: seq<Line>, y: seq<Line>)
    ensures RenderAll(x + y) == RenderAll(x) + RenderAll(y)
    decreases |y|
  {
    if y == [] {
      assert x + y == x;
    } else {
      var n := |y| - 1;
      assert x + y == (x + y[..n]) + [y[n]];
      assert y == y[..n] + [y[n]];
      RenderAppend(x, y[..n]);
      RenderSnoc(x + y[..n], y[n]);
      RenderSnoc(y[..n], y[n]);
    }
  }

  lemma RunsPair(a: nat)
    ensures Runs([a, a + 1]) == [Run(a, 2)]
  {
    assert [a, a + 1][..1] == [a] && [a][..0] == [];
    assert Runs([a]) == [Run(a, 1)];
    assert [Run(a, 1)][..0] == [];
  }
}
