/** The Rust dumper (src/main.rs): walks the tree from ".", and for every
    non-empty regular file writes the gaps between its resident pages,
    querying residency one chunk of `1<<20` pages at a time.

    That chunk size (`Format.ChunkPages`) is written below as the literal
    `0x10_0000`, so that products with it stay linear arithmetic. */
module RustDump {
  import opened Format
  import opened FileSystem

  /** `static PAGE_SIZE` in `page_size()`: 0 until the first call stores
      what `sysconf` answered. */
  class PageSizeCache {
    var stored: nat

    constructor ()
      ensures stored == 0
    {
      stored := 0;
    }

    /** `page_size()`; `sysconf` is what `sysconf(_SC_PAGESIZE)` would
        return. Once a non-zero value is stored, it is returned and kept,
        and `sysconf` is not consulted. */
    method Get(sysconf: nat) returns (ps: nat)
      modifies this
      ensures old(stored) != 0 ==> ps == old(stored) && stored == old(stored)
      ensures old(stored) == 0 ==> ps == sysconf && stored == sysconf
    {
      if stored == 0 {
        stored := sysconf;
        ps := sysconf;
      } else {
        ps := stored;
      }
    }
  }

  /** Every call after the first returns the first call's value, whatever
      `sysconf` would answer then. */
  method PageSizeIsStable(cache: PageSizeCache, first: nat, later: nat) returns (a: nat, b: nat)
    requires cache.stored == 0 && first > 0
    modifies cache
    ensures a == first && b == first && cache.stored == first
  {
    a := cache.Get(first);
    b := cache.Get(later);
  }

  /** `mincore(slice)` for a slice of `len` bytes starting at page `first`:
      one byte per page the slice touches. */
  function Mincore(f: FileInfo, first: nat, len: nat, ps: nat): (r: Result<seq<byte>>)
    requires ps > 0
    ensures r.Success? <==> QuerySucceeds(f, first, CeilDiv(len, ps))
    ensures r.Success? ==> |r.value| * ps >= len && (|r.value| == 0 || (|r.value| - 1) * ps < len)
    ensures r.Success? ==> forall k :: 0 <= k < |r.value| ==> r.value[k] == ByteAt(f, first + k)
  {
    var pages := CeilDiv(len, ps);
    if QuerySucceeds(f, first, pages) then Success(Query(f, first, pages)) else Failure(QueryFailed)
  }

  /** Residency as the Rust dumper tests it: any non-zero byte. */
  function NonzeroBits(bm: seq<byte>): (r: seq<bool>)
    ensures |r| == |bm| && forall k :: 0 <= k < |bm| ==> r[k] == (bm[k] != 0)
  {
    seq(|bm|, k requires 0 <= k < |bm| => bm[k] != 0)
  }

  /** The resident pages below `upTo`, as the dumper reports them. */
  function ResidentBelow(f: FileInfo, upTo: nat): (r: seq<nat>)
    ensures StrictlyIncreasing(r) && Sorted(r)
  {
    Indices(NonzeroBits(Query(f, 0, upTo)), 0)
  }

  lemma ResidentBelowSnoc(f: FileInfo, k: nat)
    ensures ResidentBelow(f, k + 1) == ResidentBelow(f, k) + (if ByteAt(f, k) != 0 then [k] else [])
  {
    var bits := NonzeroBits(Query(f, 0, k + 1));
    assert bits[..k] == NonzeroBits(Query(f, 0, k));
  }

  /** The first page not scanned: the start of the chunk whose query fails,
      or the page count when every query succeeds. */
  function StopPage(f: FileInfo, n: nat): nat {
    if f.queryFault.Some? && f.queryFault.value < n
    then (f.queryFault.value / 0x10_0000) * 0x10_0000
    else n
  }

  /** What `dump_file` writes and returns, stated for the whole file at once,
      without chunks: the block of the resident pages below the stop page. */
  function FileDump(path: string, f: FileInfo, ps: nat): (seq<Line>, Status)
    requires ps > 0
  {
    var n := PageCount(f, ps);
    if !f.openOk then ([], Err(OpenFailed))
    else if !MapSucceeds(f, 0, n) then ([], Err(MapFailed))
    else
      var stop := StopPage(f, n);
      (Block(path, ResidentBelow(f, stop)), if stop < n then Err(QueryFailed) else Ok)
  }

  /** A chunk queried without a fault moves the scan to the next chunk and
      leaves any fault ahead of it. */
  lemma ChunkAdvances(f: FileInfo, n: nat, offset: nat, count: nat)
    requires offset < n && count == Min(0x10_0000, n - offset) && QuerySucceeds(f, offset, count)
    requires f.queryFault.Some? && f.queryFault.value < n ==> offset <= f.queryFault.value
    ensures offset + count == Min(offset + 0x10_0000, n)
    ensures f.queryFault.Some? && f.queryFault.value < n ==> Min(offset + 0x10_0000, n) <= f.queryFault.value
  {
  }

  /** A chunk whose query faults is where the dump stops. */
  lemma ChunkFails(f: FileInfo, n: nat, offset: nat, count: nat)
    requires offset % 0x10_0000 == 0 && offset < n && count == Min(0x10_0000, n - offset)
    requires !QuerySucceeds(f, offset, count)
    ensures StopPage(f, n) == offset == Min(offset, n)
  {
    ChunkOfFault(f.queryFault.value, offset, count);
  }

  lemma ChunkOfFault(p: nat, offset: nat, count: nat)
    requires offset % 0x10_0000 == 0 && count <= 0x10_0000 && offset <= p < offset + count
    ensures (p / 0x10_0000) * 0x10_0000 == offset
  {
    var j := offset / 0x10_0000;
    assert offset == j * 0x10_0000;
    assert j * 0x10_0000 <= p < (j + 1) * 0x10_0000;
  }

  /** The encoder's state `(lines, wrote_header, last)` after scanning the
      pages below `upTo` one at a time, as the inner loop of `dump_file`
      does. */
  function Scan(path: string, f: FileInfo, upTo: nat): (r: (seq<Line>, bool, nat))
    ensures r.2 <= upTo
  {
    if upTo == 0 then ([], false, 0)
    else
      ScanStep(path, f, upTo - 1, Scan(path, f, upTo - 1))
  }

  /** What the encoder does with page `pos`, given its state before it. */
  function ScanStep(path: string, f: FileInfo, pos: nat, before: (seq<Line>, bool, nat)): (r: (seq<Line>, bool, nat))
    requires before.2 <= pos
    ensures r.2 <= pos
  {
    var (out, wroteHeader, last) := before;
    if ByteAt(f, pos) == 0 then before
    else (out + (if wroteHeader then [] else [Header(path)]) + [Delta(pos - last)], true, pos)
  }

  /** Scanning page by page writes the block of the resident pages: the
      header exactly when one is resident, `last` the latest of them. */
  lemma {:induction false} ScanIsBlock(path: string, f: FileInfo, upTo: nat)
    ensures var idx := ResidentBelow(f, upTo);
            Scan(path, f, upTo) == (Block(path, idx), idx != [], if idx == [] then 0 else Last(idx))
  {
    if upTo > 0 {
      var pos := upTo - 1;
      ScanIsBlock(path, f, pos);
      var idx := ResidentBelow(f, pos);
      ResidentBelowSnoc(f, pos);
      if ByteAt(f, pos) == 0 {
        assert ResidentBelow(f, upTo) == idx;
      } else {
        IndicesMembers(NonzeroBits(Query(f, 0, pos)), 0);
        if idx != [] {
          assert Last(idx) in idx;
        }
        BlockSnoc(path, idx, pos);
      }
    }
  }

  /** The inner loop of `dump_file` over the bitmap of the chunk starting at
      page `offset`. */
  method EncodeChunk(path: string, f: FileInfo, offset: nat, buffer: seq<byte>,
                     out0: seq<Line>, wroteHeader0: bool, last0: nat)
    returns (out: seq<Line>, wroteHeader: bool, last: nat)
    requires forall k :: 0 <= k < |buffer| ==> buffer[k] == ByteAt(f, offset + k)
    requires (out0, wroteHeader0, last0) == Scan(path, f, offset)
    ensures (out, wroteHeader, last) == Scan(path, f, offset + |buffer|)
  {
    out, wroteHeader, last := out0, wroteHeader0, last0;
    for chunkPos := 0 to |buffer|
      invariant (out, wroteHeader, last) == Scan(path, f, offset + chunkPos)
    {
      var pos := offset + chunkPos;
      var e := buffer[chunkPos];
      assert e == ByteAt(f, pos);
      assert Scan(path, f, pos + 1) == ScanStep(path, f, pos, Scan(path, f, pos));
      if e == 0 {
        continue;
      }
      var diff := pos - last;
      last := pos;
      if !wroteHeader {
        out := out + [Header(path)];
        wroteHeader := true;
      } else {
        assert out + [] == out;
      }
      out := out + [Delta(diff)];
    }
  }

  /** `dump_file`: map the file, then query and encode it chunk by chunk,
      carrying `last` and `wrote_header` across chunks. */
  method DumpFile(path: string, f: FileInfo, ps: nat) returns (out: seq<Line>, st: Status)
    requires ps > 0
    ensures (out, st) == FileDump(path, f, ps)
  {
    if !f.openOk {
      return [], Err(OpenFailed);
    }
    var len := f.size;
    ghost var n := PageCount(f, ps);
    if !MapSucceeds(f, 0, CeilDiv(len, ps)) {
      return [], Err(MapFailed);
    }
    var wroteHeader := false;
    var last: nat := 0;
    var offset: nat := 0;
    var pages := 0x10_0000;
    out := [];
    while true
      invariant offset % 0x10_0000 == 0
      invariant f.queryFault.Some? && f.queryFault.value < n ==> Min(offset, n) <= f.queryFault.value
      invariant (out, wroteHeader, last) == Scan(path, f, Min(offset, n))
      decreases n - offset
    {
      var start := offset * ps;
      PageBelowCount(offset, len, ps);
      if start >= len {
        break;
      }
      var length := Min(pages * ps, len - start) as nat;
      ChunkPageCount(offset, len, ps);
      var bm := Mincore(f, offset, length, ps);
      if bm.Failure? {
        ChunkFails(f, n, offset, CeilDiv(length, ps));
        ScanIsBlock(path, f, offset);
        return out, Err(QueryFailed);
      }
      ChunkAdvances(f, n, offset, |bm.value|);
      out, wroteHeader, last := EncodeChunk(path, f, offset, bm.value, out, wroteHeader, last);
      offset := offset + pages;
    }
    assert StopPage(f, n) == n;
    ScanIsBlock(path, f, n);
    st := Ok;
  }

  // ---------------------------------------------------------------------
  // Properties of one file's dump

  /** The header is written exactly when some scanned page is resident, it
      is the first line, and it is followed by one delta per resident page. */
  lemma HeaderIffResident(path: string, f: FileInfo, ps: nat)
    requires ps > 0 && f.openOk && MapSucceeds(f, 0, PageCount(f, ps))
    ensures var (out, _) := FileDump(path, f, ps);
            var stop := StopPage(f, PageCount(f, ps));
            (out != [] <==> exists p :: 0 <= p < stop && ByteAt(f, p) != 0)
            && (out != [] ==>
                  out[0] == Header(path) && |out| == |ResidentBelow(f, stop)| + 1
                  && forall k :: 1 <= k < |out| ==> out[k].Delta?)
  {
    var stop := StopPage(f, PageCount(f, ps));
    var idx := ResidentBelow(f, stop);
    assert FileDump(path, f, ps).0 == Block(path, idx);
    BlockShape(path, idx);
    ResidentIffNonzero(f, stop);
  }

  /** Some page below `stop` is reported exactly when one has a nonzero byte. */
  lemma ResidentIffNonzero(f: FileInfo, stop: nat)
    ensures ResidentBelow(f, stop) != [] <==> exists p :: 0 <= p < stop && ByteAt(f, p) != 0
  {
    var bits := NonzeroBits(Query(f, 0, stop));
    IndicesEmpty(bits, 0);
    if exists p :: 0 <= p < stop && ByteAt(f, p) != 0 {
      var p :| 0 <= p < stop && ByteAt(f, p) != 0;
      assert bits[p];
    }
  }

  /** Summing the written deltas from 0 gives back the resident pages. */
  lemma DeltasDecode(path: string, f: FileInfo, ps: nat)
    requires ps > 0
    ensures var (out, _) := FileDump(path, f, ps);
            out != [] ==>
              var ds := seq(|out| - 1, k requires 0 <= k < |out| - 1 => out[k + 1].gap);
              Sums(ds) == ResidentBelow(f, StopPage(f, PageCount(f, ps)))
  {
    var (out, _) := FileDump(path, f, ps);
    if out != [] {
      var idx := ResidentBelow(f, StopPage(f, PageCount(f, ps)));
      var ds := seq(|out| - 1, k requires 0 <= k < |out| - 1 => out[k + 1].gap);
      assert ds == Gaps(idx);
      SumsOfGaps(idx);
    }
  }

  /** Chunking leaves no trace: the scan equals one scan of the whole range,
      which in turn equals scanning any split of it separately, with the
      indices of the second part shifted by the first part's length. */
  lemma ChunkingInvisible(f: FileInfo, a: nat, b: nat)
    ensures ResidentBelow(f, a + b)
         == ResidentBelow(f, a) + Indices(NonzeroBits(Query(f, a, b)), a)
  {
    BitsSplit(f, a, b);
    IndicesAppend(NonzeroBits(Query(f, 0, a)), NonzeroBits(Query(f, a, b)), 0);
  }

  lemma BitsSplit(f: FileInfo, a: nat, b: nat)
    ensures NonzeroBits(Query(f, 0, a + b)) == NonzeroBits(Query(f, 0, a)) + NonzeroBits(Query(f, a, b))
  {
    var w, lo, hi := NonzeroBits(Query(f, 0, a + b)), NonzeroBits(Query(f, 0, a)), NonzeroBits(Query(f, a, b));
    forall k | 0 <= k < a + b ensures w[k] == (lo + hi)[k] {
      if k >= a {
        assert (lo + hi)[k] == hi[k - a] && a + (k - a) == k;
      }
    }
  }

  /** The file of `(1<<20) + 2` pages of which pages 0, 1, `1<<20` and
      `(1<<20) + 1` are resident: its pages span two chunks. */
  function TwoChunkFile(ps: nat): FileInfo {
    var C := 0x10_0000;
    FileInfo((C + 2) * ps, seq(C + 2, p requires 0 <= p < C + 2 => if p < 2 || p >= C then 1 else 0),
             true, true, None, None)
  }

  lemma TwoChunkLow(ps: nat)
    ensures ResidentBelow(TwoChunkFile(ps), 2) == [0, 1]
  {
    var f := TwoChunkFile(ps);
    assert ResidentBelow(f, 0) == [];
    ResidentBelowSnoc(f, 0);
    ResidentBelowSnoc(f, 1);
  }

  lemma TwoChunkMid(ps: nat)
    ensures ResidentBelow(TwoChunkFile(ps), 0x10_0000) == [0, 1]
  {
    var C := 0x10_0000;
    var f := TwoChunkFile(ps);
    var mid := NonzeroBits(Query(f, 2, C - 2));
    forall k | 0 <= k < |mid| ensures !mid[k] {
      assert ByteAt(f, 2 + k) == 0;
    }
    IndicesEmpty(mid, 2);
    ChunkingInvisible(f, 2, C - 2);
    TwoChunkLow(ps);
  }

  lemma TwoChunkResident(ps: nat)
    ensures ResidentBelow(TwoChunkFile(ps), 0x10_0000 + 2) == [0, 1, 0x10_0000, 0x10_0000 + 1]
  {
    var C := 0x10_0000;
    var f := TwoChunkFile(ps);
    TwoChunkMid(ps);
    ResidentBelowSnoc(f, C);
    assert ByteAt(f, C) == 1;
    ResidentBelowSnoc(f, C + 1);
    assert ByteAt(f, C + 1) == 1;
  }

  /** A file resident at pages 0, 1, `1<<20` and `(1<<20) + 1` is written as
      one header and the deltas 0, 1, `(1<<20) - 1`, 1: `last` carries over
      from the first chunk to the second. */
  lemma TwoChunkExample(path: string, ps: nat)
    requires ps > 0
    ensures FileDump(path, TwoChunkFile(ps), ps)
         == ([Header(path), Delta(0), Delta(1), Delta(0x10_0000 - 1), Delta(1)], Ok)
  {
    var C := 0x10_0000;
    var f := TwoChunkFile(ps);
    CeilDivUnique((C + 2) * ps, ps, C + 2);
    assert PageCount(f, ps) == C + 2;
    assert MapSucceeds(f, 0, C + 2) && StopPage(f, C + 2) == C + 2;
    var idx := ResidentBelow(f, C + 2);
    TwoChunkResident(ps);
    GapsOfFour(0, 1, C, C + 1);
    var ds: seq<nat> := [0, 1, C - 1, 1];
    assert DeltaLines(ds) == [Delta(0), Delta(1), Delta(C - 1), Delta(1)];
    assert Block(path, idx) == [Header(path)] + DeltaLines(ds);
    assert FileDump(path, f, ps) == (Block(path, idx), Ok);
    assert [Header(path)] + [Delta(0), Delta(1), Delta(C - 1), Delta(1)]
        == [Header(path), Delta(0), Delta(1), Delta(C - 1), Delta(1)];
  }

  // ---------------------------------------------------------------------
  // The walk

  /** `spider` over the entries of one directory, in listing order; the
      first error ends the walk. */
  function Walk(dir: string, entries: seq<Node>, ps: nat): (seq<Line>, Status)
    requires ps > 0
    decreases entries
  {
    if entries == [] then ([], Ok)
    else
      var n := |entries| - 1;
      var (before, st) := Walk(dir, entries[..n], ps);
      if st.Err? then (before, st)
      else
        var (here, st2) := Visit(dir, entries[n], ps);
        (before + here, st2)
  }

  /** One entry: recurse into a directory, dump a non-empty regular file,
      skip anything else; an entry whose metadata fails is an error. */
  function Visit(dir: string, node: Node, ps: nat): (seq<Line>, Status)
    requires ps > 0
    decreases node
  {
    match node
    case Dir(name, _, _) => WalkDir(Join(dir, name), node, ps)
    case Reg(name, f) =>
      if !f.statOk then ([], Err(StatFailed))
      else if f.size > 0 then FileDump(Join(dir, name), f, ps)
      else ([], Ok)
    case Other(_, statOk) => if statOk then ([], Ok) else ([], Err(StatFailed))
  }

  function WalkDir(path: string, d: Node, ps: nat): (seq<Line>, Status)
    requires ps > 0 && d.Dir?
    decreases d, 0
  {
    if !d.readable then ([], Err(ListFailed)) else Walk(path, d.entries, ps)
  }

  /** Once a prefix of the entries fails, the later entries change nothing. */
  lemma {:induction false} WalkStops(dir: string, entries: seq<Node>, k: nat, ps: nat)
    requires ps > 0 && k <= |entries| && Walk(dir, entries[..k], ps).1.Err?
    ensures Walk(dir, entries, ps) == Walk(dir, entries[..k], ps)
    decreases |entries|
  {
    if k < |entries| {
      var n := |entries| - 1;
      assert entries[..n][..k] == entries[..k];
      WalkStops(dir, entries[..n], k, ps);
    } else {
      assert entries[..k] == entries;
    }
  }

  /** `spider(output, directory)`. */
  method Spider(path: string, d: Node, ps: nat) returns (out: seq<Line>, st: Status)
    requires ps > 0 && d.Dir?
    ensures (out, st) == WalkDir(path, d, ps)
    decreases d
  {
    if !d.readable {
      return [], Err(ListFailed);
    }
    out := [];
    var entries := d.entries;
    for i := 0 to |entries|
      invariant Walk(path, entries[..i], ps) == (out, Ok)
    {
      assert entries[..i + 1][..i] == entries[..i];
      var entry := entries[i];
      var child := Join(path, entry.name);
      var here: seq<Line> := [];
      var s: Status := Ok;
      match entry {
        case Dir(_, _, _) =>
          here, s := Spider(child, entry, ps);
        case Reg(_, f) =>
          if !f.statOk {
            s := Err(StatFailed);
          } else if f.size > 0 {
            here, s := DumpFile(child, f, ps);
          }
        case Other(_, statOk) =>
          if !statOk {
            s := Err(StatFailed);
          }
      }
      out := out + here;
      if s.Err? {
        WalkStops(path, entries, i + 1, ps);
        return out, s;
      }
    }
    assert entries[..|entries|] == entries;
    st := Ok;
  }

  /** `main`: walk ".", then finish the gzip stream only when the walk
      succeeded. */
  method Snapshot(root: Node, ps: nat) returns (lines: seq<Line>, finished: bool)
    requires ps > 0 && root.Dir?
    ensures finished <==> WalkDir(".", root, ps).1 == Ok
    ensures lines == WalkDir(".", root, ps).0
  {
    var st;
    lines, st := Spider(".", root, ps);
    finished := st == Ok;
  }

  // ---------------------------------------------------------------------
  // The walk against an independent description of the tree

  /** Whether some entry reached by the walk fails: an unreadable directory,
      an entry whose metadata fails, or a non-empty file whose dump fails. */
  predicate Faulty(dir: string, entries: seq<Node>, ps: nat)
    requires ps > 0
    decreases entries
  {
    exists k :: 0 <= k < |entries| && NodeFaulty(dir, entries[k], ps)
  }

  predicate NodeFaulty(dir: string, node: Node, ps: nat)
    requires ps > 0
    decreases node
  {
    match node
    case Dir(name, readable, es) => !readable || Faulty(Join(dir, name), es, ps)
    case Reg(name, f) => !f.statOk || (f.size > 0 && FileDump(Join(dir, name), f, ps).1.Err?)
    case Other(_, statOk) => !statOk
  }

  /** The non-empty regular files in pre-order, each with its path. */
  function Files(dir: string, entries: seq<Node>): seq<(string, FileInfo)>
    decreases entries
  {
    if entries == [] then []
    else
      var n := |entries| - 1;
      Files(dir, entries[..n]) + NodeFiles(dir, entries[n])
  }

  function NodeFiles(dir: string, node: Node): seq<(string, FileInfo)>
    decreases node
  {
    match node
    case Dir(name, _, es) => Files(Join(dir, name), es)
    case Reg(name, f) => if f.size > 0 then [(Join(dir, name), f)] else []
    case Other(_, _) => []
  }

  /** The blocks of the given files, one after another. */
  function Blocks(files: seq<(string, FileInfo)>, ps: nat): seq<Line>
    requires ps > 0
  {
    if files == [] then []
    else
      var n := |files| - 1;
      Blocks(files[..n], ps) + FileDump(files[n].0, files[n].1, ps).0
  }

  lemma BlocksAppend(a: seq<(string, FileInfo)>, b: seq<(string, FileInfo)>, ps: nat)
    requires ps > 0
    ensures Blocks(a + b, ps) == Blocks(a, ps) + Blocks(b, ps)
    decreases |b|
  {
    if b != [] {
      var n := |b| - 1;
      assert (a + b)[..|a| + n] == a + b[..n];
      BlocksAppend(a, b[..n], ps);
    } else {
      assert a + b == a;
    }
  }

  /** The walk fails exactly when some entry it reaches fails; when it
      succeeds, it writes the block of every non-empty regular file of the
      tree, in pre-order. */
  lemma {:induction false} WalkCorrect(dir: string, entries: seq<Node>, ps: nat)
    requires ps > 0
    ensures Walk(dir, entries, ps).1.Err? <==> Faulty(dir, entries, ps)
    ensures Walk(dir, entries, ps).1 == Ok ==> Walk(dir, entries, ps).0 == Blocks(Files(dir, entries), ps)
    decreases entries
  {
    if entries != [] {
      var n := |entries| - 1;
      var front := entries[..n];
      WalkCorrect(dir, front, ps);
      VisitCorrect(dir, entries[n], ps);
      BlocksAppend(Files(dir, front), NodeFiles(dir, entries[n]), ps);
      assert Faulty(dir, entries, ps) <==> Faulty(dir, front, ps) || NodeFaulty(dir, entries[n], ps) by {
        if Faulty(dir, entries, ps) {
          var k :| 0 <= k < |entries| && NodeFaulty(dir, entries[k], ps);
          if k < n { assert front[k] == entries[k]; }
        }
        if Faulty(dir, front, ps) {
          var k :| 0 <= k < |front| && NodeFaulty(dir, front[k], ps);
          assert entries[k] == front[k];
        }
      }
    }
  }

  lemma {:induction false} VisitCorrect(dir: string, node: Node, ps: nat)
    requires ps > 0
    ensures Visit(dir, node, ps).1.Err? <==> NodeFaulty(dir, node, ps)
    ensures Visit(dir, node, ps).1 == Ok ==> Visit(dir, node, ps).0 == Blocks(NodeFiles(dir, node), ps)
    decreases node
  {
    match node
    case Dir(name, readable, es) =>
      if readable {
        WalkCorrect(Join(dir, name), es, ps);
      }
    case Reg(name, f) =>
      var files := NodeFiles(dir, node);
      if f.size > 0 {
        assert files[..0] == [];
      }
    case Other(_, _) =>
  }
}
