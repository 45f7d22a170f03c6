/** The C dumper (dumping.c): the per-chunk encoder `dump_file` and the
    sequential part of `dump_dir`, its entry filter, path join and `readdir`
    loop.

    The chunk size `CHUNK_SIZE` (`Format.ChunkPages`) is written below as the
    literal `0x10_0000`, so that products with it stay linear arithmetic. */
module CDump {
  import opened Format
  import opened FileSystem
  import RustDump

  // ---------------------------------------------------------------------
  // Chunks of a file

  /** How many chunks of `CHUNK_SIZE` pages cover `n` pages. */
  function NumChunks(n: nat): nat {
    CeilDiv(n, 0x10_0000)
  }

  /** The pages of chunk `j`: `min(CHUNK_SIZE, file_pages)` with
      `file_pages` the pages not yet processed; 0 past the last chunk. */
  function ChunkLen(n: nat, j: nat): (r: nat)
    ensures r <= 0x10_0000
    ensures j * 0x10_0000 < n ==> r >= 1
  {
    if j * 0x10_0000 < n then Min(0x10_0000, n - j * 0x10_0000) else 0
  }

  /** Chunk `j` starts before the end exactly when it is one of the
      `NumChunks(n)` chunks. */
  lemma ChunkBelow(n: nat, j: nat)
    ensures j * 0x10_0000 < n <==> j < NumChunks(n)
  {
    PageBelowCount(j, n, 0x10_0000);
  }

  /** Which chunk holds the faulty page, or `NumChunks(n)` if no chunk does. */
  function FaultChunk(fault: Option<nat>, n: nat): nat {
    if fault.Some? && fault.value < n then fault.value / 0x10_0000 else NumChunks(n)
  }

  /** The pages among the `len` pages from page `base` whose bitmap byte
      has its low bit set, as absolute page numbers in ascending order. */
  function LowResident(f: FileInfo, base: nat, len: nat): (r: seq<nat>)
    ensures r != [] ==> base <= r[0] && Last(r) < base + len
    ensures StrictlyIncreasing(r) && Sorted(r)
  {
    if len == 0 then []
    else
      var prev := LowResident(f, base, len - 1);
      var x := base + (len - 1);
      assert StrictlyIncreasing(prev + [x]) by {
        forall k | 0 < k < |prev| + 1 ensures (prev + [x])[k - 1] < (prev + [x])[k] {
          if k < |prev| {
            assert (prev + [x])[k - 1] == prev[k - 1] && (prev + [x])[k] == prev[k];
          }
        }
      }
      if LowBit(ByteAt(f, x)) then prev + [x] else prev
  }

  /** The resident pages of chunk `j`. */
  function ChunkResident(f: FileInfo, n: nat, j: nat): (r: seq<nat>)
    ensures Sorted(r)
  {
    LowResident(f, j * 0x10_0000, ChunkLen(n, j))
  }

  /** The output of the first `k` chunks: each chunk writes its own block,
      with its own header and a first delta measured from page 0. */
  function ChunkBlocks(path: string, f: FileInfo, n: nat, k: nat): seq<Line> {
    if k == 0 then [] else ChunkBlocks(path, f, n, k - 1) + ChunkScan(path, f, (k - 1) * 0x10_0000, ChunkLen(n, k - 1)).lines
  }

  /** The `mmap` and `munmap` calls `dump_file` makes, in pages. A `Map`
      records an `mmap` call, including one that fails. */
  datatype MemEvent = Map(first: nat, pages: nat) | Unmap(first: nat, pages: nat)

  /** Each of the first `k` chunks is mapped, queried and unmapped. */
  function ChunkEvents(n: nat, k: nat): seq<MemEvent> {
    if k == 0 then []
    else ChunkEvents(n, k - 1) + [Map((k - 1) * 0x10_0000, ChunkLen(n, k - 1)), Unmap((k - 1) * 0x10_0000, ChunkLen(n, k - 1))]
  }

  /** How `dump_file` ends. */
  datatype Exit = Done | StatError | AllocError | MapError | QueryError

  /** What `dump_file` does with an open file, for the whole file at once:
      the lines written, how it ends, whether the bitmap buffer is left
      allocated (only after a failed `mmap`), and the mappings. The chunks
      before the first one whose `mmap` or `mincore` fails are written. */
  function FileDump(path: string, f: FileInfo, ps: nat, allocOk: bool): (seq<Line>, Exit, bool, seq<MemEvent>)
    requires ps > 0
  {
    var n := PageCount(f, ps);
    var k := NumChunks(n);
    var mc := FaultChunk(f.mapFault, n);
    var qc := FaultChunk(f.queryFault, n);
    if !f.statOk then ([], StatError, false, [])
    else if !allocOk then ([], AllocError, false, [])
    else if mc < k && mc <= qc then
      (ChunkBlocks(path, f, n, mc), MapError, true,
       ChunkEvents(n, mc) + [Map(mc * 0x10_0000, ChunkLen(n, mc))])
    else if qc < k then
      (ChunkBlocks(path, f, n, qc), QueryError, false,
       ChunkEvents(n, qc) + [Map(qc * 0x10_0000, ChunkLen(n, qc)), Unmap(qc * 0x10_0000, ChunkLen(n, qc))])
    else (ChunkBlocks(path, f, n, k), Done, false, ChunkEvents(n, k))
  }

  // ---------------------------------------------------------------------
  // Encoding one chunk

  /** The variables of the inner loop of `dump_file`. */
  datatype ChunkState = ChunkState(lines: seq<Line>, printed: bool, last: int)

  /** The state of the inner loop of `dump_file` after the first `i` bitmap
      entries of the chunk at page `base`; `last` starts at
      `-processed_pages`. */
  function ChunkScan(path: string, f: FileInfo, base: nat, i: nat): (r: ChunkState)
    ensures r.last == -(base as int) || 0 <= r.last < i
  {
    if i == 0 then ChunkState([], false, -(base as int))
    else ChunkStep(path, f, base, i - 1, ChunkScan(path, f, base, i - 1))
  }

  /** What the inner loop does with entry `i`. */
  function ChunkStep(path: string, f: FileInfo, base: nat, i: nat, s: ChunkState): (r: ChunkState)
    requires s.last == -(base as int) || 0 <= s.last < i
    ensures r.last == -(base as int) || 0 <= r.last <= i
  {
    if !LowBit(ByteAt(f, base + i)) then s
    else ChunkState(s.lines + (if s.printed then [] else [Header(path)]) + [Delta(i - s.last)], true, i)
  }

  /** `last` relative to the chunk: `-base` before the first resident page. */
  function LastRel(idx: seq<nat>, base: nat): int {
    if idx == [] then -(base as int) else Last(idx) - base
  }

  /** The chunk's block has been written up to entry `i`. */
  predicate ScannedAs(path: string, f: FileInfo, base: nat, i: nat) {
    var st := ChunkScan(path, f, base, i);
    var idx := LowResident(f, base, i);
    st.lines == Block(path, idx) && (st.printed <==> idx != []) && st.last == LastRel(idx, base)
  }

  /** Scanning a chunk writes the block of its resident pages: the header
      once, when one is resident, then the first of them as an absolute
      page number and the gaps between the others. */
  lemma {:induction false} ChunkScanIsBlock(path: string, f: FileInfo, base: nat, i: nat)
    ensures ScannedAs(path, f, base, i)
  {
    if i > 0 {
      ChunkScanIsBlock(path, f, base, i - 1);
      ScanStepKeeps(path, f, base, i);
    }
  }

  lemma ScanStepKeeps(path: string, f: FileInfo, base: nat, i: nat)
    requires i > 0 && ScannedAs(path, f, base, i - 1)
    ensures ScannedAs(path, f, base, i)
  {
    var st := ChunkScan(path, f, base, i - 1);
    var idx := LowResident(f, base, i - 1);
    var x := base + (i - 1);
    assert ChunkScan(path, f, base, i) == ChunkStep(path, f, base, i - 1, st);
    if LowBit(ByteAt(f, x)) {
      assert LowResident(f, base, i) == idx + [x];
      if idx == [] {
        StepFirstHit(path, f, base, i - 1, st);
      } else {
        StepNextHit(path, f, base, i - 1, st, idx);
      }
    } else {
      assert LowResident(f, base, i) == idx;
    }
  }

  /** The chunk's first resident entry writes the header and its page. */
  lemma StepFirstHit(path: string, f: FileInfo, base: nat, j: nat, st: ChunkState)
    requires st.lines == [] && !st.printed && st.last == -(base as int)
    requires LowBit(ByteAt(f, base + j))
    ensures var r := ChunkStep(path, f, base, j, st);
      Sorted([base + j]) && r.lines == Block(path, [base + j]) && r.printed && r.last == LastRel([base + j], base)
  {
    BlockStarts(path, base + j);
  }

  /** A later resident entry writes its gap from the previous one. */
  lemma StepNextHit(path: string, f: FileInfo, base: nat, j: nat, st: ChunkState, idx: seq<nat>)
    requires Sorted(idx) && idx != [] && base <= Last(idx) < base + j
    requires st.lines == Block(path, idx) && st.printed && st.last == LastRel(idx, base)
    requires LowBit(ByteAt(f, base + j))
    ensures var r := ChunkStep(path, f, base, j, st);
      Sorted(idx + [base + j]) && r.lines == Block(path, idx + [base + j]) && r.printed
      && r.last == LastRel(idx + [base + j], base)
  {
    SortedSnoc(idx, base + j);
    BlockGrows(path, idx, base + j);
  }

  /** `mincore` filling the first `pages` entries of the buffer. */
  method Mincore(f: FileInfo, first: nat, pages: nat, vec: array<byte>)
    requires pages <= vec.Length
    modifies vec
    ensures forall k :: 0 <= k < pages ==> vec[k] == ByteAt(f, first + k)
    ensures forall k :: pages <= k < vec.Length ==> vec[k] == old(vec[k])
  {
    forall k | 0 <= k < pages {
      vec[k] := ByteAt(f, first + k);
    }
  }

  /** The inner loop of `dump_file` over the first `pages` entries of the
      bitmap of the chunk at page `base`. */
  method EncodeChunk(path: string, ghost f: FileInfo, base: nat, vec: array<byte>, pages: nat)
    returns (lines: seq<Line>)
    requires pages <= vec.Length
    requires forall k :: 0 <= k < pages ==> vec[k] == ByteAt(f, base + k)
    ensures lines == ChunkScan(path, f, base, pages).lines
  {
    lines := [];
    var printed := false;
    var last: int := -(base as int);
    for i := 0 to pages
      invariant ChunkState(lines, printed, last) == ChunkScan(path, f, base, i)
    {
      assert ChunkScan(path, f, base, i + 1) == ChunkStep(path, f, base, i, ChunkScan(path, f, base, i));
      LowBitAnd(vec[i]);
      if (vec[i] as bv8) & 0x01 != 0 {
        if !printed {
          lines := lines + [Header(path)];
          printed := true;
        } else {
          assert lines + [] == lines;
        }
        lines := lines + [Delta(i - last)];
        last := i;
      }
    }
  }

  // ---------------------------------------------------------------------
  // dump_file

  /** A fault in a chunk not yet processed lies in the current chunk
      exactly when its chunk number is the current one. */
  lemma FaultInChunk(p: nat, n: nat, j: nat)
    requires p < n && p / 0x10_0000 >= j && j * 0x10_0000 < n
    ensures (j * 0x10_0000 <= p < j * 0x10_0000 + ChunkLen(n, j)) <==> p / 0x10_0000 == j
  {
    var C := 0x10_0000;
    var q := p / C;
    assert q * C <= p < q * C + C;
    if q > j {
      assert q * C >= (j + 1) * C by { MulLe(j + 1, q, C); }
    }
  }

  /** The last chunk ends at page `n`; every other chunk is full. */
  lemma NextChunk(n: nat, j: nat)
    requires j * 0x10_0000 < n
    ensures n - j * 0x10_0000 - ChunkLen(n, j) > 0 ==> ChunkLen(n, j) == 0x10_0000 && j + 1 < NumChunks(n)
    ensures n - j * 0x10_0000 - ChunkLen(n, j) == 0 ==> j + 1 == NumChunks(n)
  {
    ChunkBelow(n, j);
    ChunkBelow(n, j + 1);
  }

  /** The calls on chunk `j`, before any fault: its `mmap` fails exactly
      when it holds the first faulty page for mappings, and likewise for
      `mincore`. */
  lemma ChunkCalls(f: FileInfo, n: nat, j: nat)
    requires j * 0x10_0000 < n && FaultChunk(f.mapFault, n) >= j && FaultChunk(f.queryFault, n) >= j
    ensures ChunkLen(n, j) == Min(0x10_0000, n - j * 0x10_0000) && j < NumChunks(n)
    ensures MapSucceeds(f, j * 0x10_0000, ChunkLen(n, j)) <==> FaultChunk(f.mapFault, n) != j
    ensures QuerySucceeds(f, j * 0x10_0000, ChunkLen(n, j)) <==> FaultChunk(f.queryFault, n) != j
  {
    ChunkBelow(n, j);
    FaultCall(f.mapFault, n, j);
    FaultCall(f.queryFault, n, j);
  }

  lemma FaultCall(fault: Option<nat>, n: nat, j: nat)
    requires j * 0x10_0000 < n && FaultChunk(fault, n) >= j
    ensures Hits(fault, j * 0x10_0000, ChunkLen(n, j)) <==> FaultChunk(fault, n) == j
  {
    ChunkBelow(n, j);
    if fault.Some? && fault.value < n {
      FaultInChunk(fault.value, n, j);
    }
  }

  /** `dump_file(fd, fullpath, ...)` on an open file: `allocOk` is whether
      `calloc` succeeds. The bitmap buffer is sized by the first chunk and
      reused for every later one. */
  method DumpFile(path: string, f: FileInfo, ps: nat, allocOk: bool)
    returns (out: seq<Line>, exit: Exit, leaked: bool, events: seq<MemEvent>)
    requires ps > 0
    ensures (out, exit, leaked, events) == FileDump(path, f, ps, allocOk)
  {
    if !f.statOk {
      return [], StatError, false, [];
    }
    var filePages: nat := CeilDiv(f.size, ps);
    ghost var n := PageCount(f, ps);
    ghost var mc := FaultChunk(f.mapFault, n);
    ghost var qc := FaultChunk(f.queryFault, n);
    ghost var j: nat := 0;
    var processed: nat := 0;
    var firstChunk := Min(0x10_0000, filePages);
    if !allocOk {
      return [], AllocError, false, [];
    }
    var vec := new byte[firstChunk];
    out, events := [], [];
    while filePages > 0
      invariant processed + filePages == n && j <= NumChunks(n) && vec.Length == Min(0x10_0000, n)
      invariant filePages > 0 ==> processed == j * 0x10_0000 && j * 0x10_0000 < n
      invariant filePages == 0 ==> j == NumChunks(n)
      invariant out == ChunkBlocks(path, f, n, j) && events == ChunkEvents(n, j)
      invariant mc >= j && qc >= j
      decreases filePages
    {
      var chunkPages := Min(0x10_0000, filePages);
      NextChunk(n, j);
      ChunkCalls(f, n, j);
      events := events + [Map(processed, chunkPages)];
      if !MapSucceeds(f, processed, chunkPages) {
        MapFails(path, f, ps, j);
        return out, MapError, true, events;
      }
      filePages := filePages - chunkPages;
      var ok := QuerySucceeds(f, processed, chunkPages);
      if ok {
        Mincore(f, processed, chunkPages, vec);
      }
      events := events + [Unmap(processed, chunkPages)];
      if !ok {
        QueryFails(path, f, ps, j);
        assert events == ChunkEvents(n, j + 1);
        return out, QueryError, false, events;
      }
      var lines := EncodeChunk(path, f, processed, vec, chunkPages);
      NextOutput(path, f, n, j);
      out := out + lines;
      processed := processed + chunkPages;
      j := j + 1;
    }
    AllChunks(path, f, ps, j);
    return out, Done, false, events;
  }

  /** Chunk `j` adds its scan to the output and its mapping and unmapping
      to the events. */
  lemma NextOutput(path: string, f: FileInfo, n: nat, j: nat)
    ensures ChunkBlocks(path, f, n, j + 1)
         == ChunkBlocks(path, f, n, j) + ChunkScan(path, f, j * 0x10_0000, ChunkLen(n, j)).lines
    ensures ChunkEvents(n, j + 1)
         == ChunkEvents(n, j) + [Map(j * 0x10_0000, ChunkLen(n, j)), Unmap(j * 0x10_0000, ChunkLen(n, j))]
  {
  }

  /** The first `j` chunks done, the mapping of chunk `j` fails. */
  lemma MapFails(path: string, f: FileInfo, ps: nat, j: nat)
    requires ps > 0 && f.statOk
    requires var n := PageCount(f, ps);
      j < NumChunks(n) && FaultChunk(f.mapFault, n) == j && FaultChunk(f.queryFault, n) >= j
    ensures var n := PageCount(f, ps);
      FileDump(path, f, ps, true) == (ChunkBlocks(path, f, n, j), MapError, true,
                                      ChunkEvents(n, j) + [Map(j * 0x10_0000, ChunkLen(n, j))])
  {
  }

  /** The first `j` chunks done, chunk `j` mapped, its query fails. */
  lemma QueryFails(path: string, f: FileInfo, ps: nat, j: nat)
    requires ps > 0 && f.statOk
    requires var n := PageCount(f, ps);
      j < NumChunks(n) && FaultChunk(f.mapFault, n) > j && FaultChunk(f.queryFault, n) == j
    ensures var n := PageCount(f, ps);
      FileDump(path, f, ps, true)
      == (ChunkBlocks(path, f, n, j), QueryError, false,
          ChunkEvents(n, j + 1))
  {
    var n := PageCount(f, ps);
    assert ChunkEvents(n, j + 1) == ChunkEvents(n, j) + [Map(j * 0x10_0000, ChunkLen(n, j)), Unmap(j * 0x10_0000, ChunkLen(n, j))];
  }

  /** Every chunk done without a fault. */
  lemma AllChunks(path: string, f: FileInfo, ps: nat, j: nat)
    requires ps > 0 && f.statOk
    requires var n := PageCount(f, ps);
      j == NumChunks(n) && FaultChunk(f.mapFault, n) >= j && FaultChunk(f.queryFault, n) >= j
    ensures var n := PageCount(f, ps);
      FileDump(path, f, ps, true) == (ChunkBlocks(path, f, n, j), Done, false, ChunkEvents(n, j))
  {
  }

  // ---------------------------------------------------------------------
  // Properties of the chunked dump

  /** Each chunk writes the block of its own resident pages. */
  lemma ChunkBlocksSnoc(path: string, f: FileInfo, n: nat, k: nat)
    requires k > 0
    ensures ChunkBlocks(path, f, n, k) == ChunkBlocks(path, f, n, k - 1) + Block(path, ChunkResident(f, n, k - 1))
  {
    ChunkScanIsBlock(path, f, (k - 1) * 0x10_0000, ChunkLen(n, k - 1));
  }

  /** The pages `LowResident` reports are exactly those of the range whose
      bitmap byte has its low bit set. */
  lemma {:induction false} LowResidentMembers(f: FileInfo, base: nat, len: nat)
    ensures forall x :: x in LowResident(f, base, len) <==> base <= x < base + len && LowBit(ByteAt(f, x))
  {
    if len > 0 {
      LowResidentMembers(f, base, len - 1);
    }
  }

  /** Splitting a range splits its resident pages. */
  lemma {:induction false} LowResidentAppend(f: FileInfo, base: nat, a: nat, b: nat)
    ensures LowResident(f, base, a + b) == LowResident(f, base, a) + LowResident(f, base + a, b)
  {
    if b > 0 {
      LowResidentAppend(f, base, a, b - 1);
      var lo, hi := LowResident(f, base, a), LowResident(f, base + a, b - 1);
      var x := base + (a + b - 1);
      assert x == (base + a) + (b - 1);
      if LowBit(ByteAt(f, x)) {
        assert LowResident(f, base + a, b) == hi + [x];
        assert LowResident(f, base, a + b) == (lo + hi) + [x];
        assert (lo + hi) + [x] == lo + (hi + [x]);
      } else {
        assert LowResident(f, base + a, b) == hi;
      }
    }
  }

  /** The resident pages of the first `k` chunks, chunk after chunk. */
  function ChunksResident(f: FileInfo, n: nat, k: nat): seq<nat> {
    if k == 0 then [] else ChunksResident(f, n, k - 1) + ChunkResident(f, n, k - 1)
  }

  /** The chunks split the file's resident pages without loss or overlap:
      the first `k` chunks hold exactly the resident pages below
      `min(k * CHUNK_SIZE, n)`. */
  lemma {:induction false} ChunksPartition(f: FileInfo, n: nat, k: nat)
    requires k <= NumChunks(n)
    ensures ChunksResident(f, n, k) == LowResident(f, 0, Min(k * 0x10_0000, n))
  {
    if k > 0 {
      ChunksPartition(f, n, k - 1);
      PartitionStep(f, n, k);
    }
  }

  lemma PartitionStep(f: FileInfo, n: nat, k: nat)
    requires 0 < k <= NumChunks(n)
    requires ChunksResident(f, n, k - 1) == LowResident(f, 0, Min((k - 1) * 0x10_0000, n))
    ensures ChunksResident(f, n, k) == LowResident(f, 0, Min(k * 0x10_0000, n))
  {
    ChunkSpan(n, k - 1);
    LowResidentAppend(f, 0, (k - 1) * 0x10_0000, ChunkLen(n, k - 1));
  }

  /** Chunk `j` starts where the chunks before it end and ends at
      `min((j + 1) * CHUNK_SIZE, n)`. */
  lemma ChunkSpan(n: nat, j: nat)
    requires j < NumChunks(n)
    ensures Min(j * 0x10_0000, n) == j * 0x10_0000
    ensures j * 0x10_0000 + ChunkLen(n, j) == Min((j + 1) * 0x10_0000, n)
  {
    ChunkBelow(n, j);
  }

  /** The pages the `mmap` calls ask for, in the order of the calls. */
  function MappedPages(events: seq<MemEvent>): seq<nat> {
    if events == [] then []
    else
      var e := events[|events| - 1];
      MappedPages(events[..|events| - 1]) + (if e.Map? then Range(e.first, e.pages) else [])
  }

  lemma {:induction false} MappedPagesAppend(a: seq<MemEvent>, b: seq<MemEvent>)
    ensures MappedPages(a + b) == MappedPages(a) + MappedPages(b)
  {
    if b == [] {
      assert a + b == a;
    } else {
      assert (a + b)[..|a + b| - 1] == a + b[..|b| - 1];
      assert (a + b)[|a + b| - 1] == b[|b| - 1];
      MappedPagesAppend(a, b[..|b| - 1]);
    }
  }

  lemma RangeAppend(start: nat, a: nat, b: nat)
    ensures Range(start, a) + Range(start + a, b) == Range(start, a + b)
  {
    var r := Range(start, a) + Range(start + a, b);
    forall k | 0 <= k < a + b ensures r[k] == start + k {
      if k >= a {
        assert r[k] == Range(start + a, b)[k - a];
      }
    }
  }

  /** The chunks tile the file: the first `k` of them map the pages below
      `min(k * CHUNK_SIZE, n)` once each, in ascending order; all of them
      map exactly the pages `[0, n)`. */
  lemma {:induction false} ChunksTile(n: nat, k: nat)
    requires k <= NumChunks(n)
    ensures MappedPages(ChunkEvents(n, k)) == Range(0, Min(k * 0x10_0000, n))
    ensures k == NumChunks(n) ==> MappedPages(ChunkEvents(n, k)) == Range(0, n)
  {
    if k > 0 {
      ChunksTile(n, k - 1);
      TileStep(n, k);
    }
    if k == NumChunks(n) {
      AllChunksEnd(n);
    }
  }

  lemma TileStep(n: nat, k: nat)
    requires 0 < k <= NumChunks(n)
    requires MappedPages(ChunkEvents(n, k - 1)) == Range(0, Min((k - 1) * 0x10_0000, n))
    ensures MappedPages(ChunkEvents(n, k)) == Range(0, Min(k * 0x10_0000, n))
  {
    var start := (k - 1) * 0x10_0000;
    var len := ChunkLen(n, k - 1);
    ChunkSpan(n, k - 1);
    MappedPagesAppend(ChunkEvents(n, k - 1), [Map(start, len), Unmap(start, len)]);
    PairMaps(start, len);
    RangeAppend(0, start, len);
  }

  /** A mapping followed by its removal maps its pages once. */
  lemma PairMaps(start: nat, len: nat)
    ensures MappedPages([Map(start, len), Unmap(start, len)]) == Range(start, len)
  {
    var pair := [Map(start, len), Unmap(start, len)];
    assert pair[..1] == [Map(start, len)] && pair[..1][..0] == [];
    assert MappedPages(pair[..1]) == [] + Range(start, len);
    assert MappedPages(pair) == MappedPages(pair[..1]) + [];
  }

  /** All the chunks end at page `n`. */
  lemma AllChunksEnd(n: nat)
    ensures Min(NumChunks(n) * 0x10_0000, n) == n
  {
    ChunkBelow(n, NumChunks(n));
  }

  // ---------------------------------------------------------------------
  // What dump_file leaves, by how it ends

  /** The resident pages of each of the first `k` chunks. */
  function ChunkPieces(f: FileInfo, n: nat, k: nat): (r: seq<seq<nat>>)
    ensures |r| == k && forall i :: 0 <= i < k ==> Sorted(r[i])
  {
    seq(k, i requires 0 <= i < k => ChunkResident(f, n, i))
  }

  /** One block per piece of pages, each with its own header. */
  function BlocksOf(path: string, pieces: seq<seq<nat>>): seq<Line>
    requires forall k :: 0 <= k < |pieces| ==> Sorted(pieces[k])
  {
    if pieces == [] then [] else BlocksOf(path, pieces[..|pieces| - 1]) + Block(path, pieces[|pieces| - 1])
  }

  /** The pieces' pages, one piece after another. */
  function Flatten(pieces: seq<seq<nat>>): seq<nat> {
    if pieces == [] then [] else Flatten(pieces[..|pieces| - 1]) + pieces[|pieces| - 1]
  }

  /** Every mapping is removed straight after it is made. */
  predicate Paired(events: seq<MemEvent>)
    decreases |events|
  {
    if events == [] then true
    else
      && |events| >= 2 && events[0].Map?
      && events[1] == Unmap(events[0].first, events[0].pages)
      && Paired(events[2..])
  }

  lemma {:induction false} PairedAppend(a: seq<MemEvent>, b: seq<MemEvent>)
    requires Paired(a) && Paired(b)
    ensures Paired(a + b)
    decreases |a|
  {
    if a == [] {
      assert a + b == b;
    } else {
      assert (a + b)[2..] == a[2..] + b;
      PairedAppend(a[2..], b);
    }
  }

  lemma {:induction false} ChunkEventsPaired(n: nat, k: nat)
    ensures Paired(ChunkEvents(n, k))
    decreases k
  {
    if k > 0 {
      ChunkEventsPaired(n, k - 1);
      var pair := [Map((k - 1) * 0x10_0000, ChunkLen(n, k - 1)), Unmap((k - 1) * 0x10_0000, ChunkLen(n, k - 1))];
      assert pair[2..] == [];
      PairedAppend(ChunkEvents(n, k - 1), pair);
    }
  }

  /** The first `k` chunks write one block per chunk, of that chunk's
      resident pages. */
  lemma {:induction false} ChunkBlocksOf(path: string, f: FileInfo, n: nat, k: nat)
    ensures ChunkBlocks(path, f, n, k) == BlocksOf(path, ChunkPieces(f, n, k))
    ensures Flatten(ChunkPieces(f, n, k)) == ChunksResident(f, n, k)
    decreases k
  {
    if k > 0 {
      ChunkBlocksOf(path, f, n, k - 1);
      ChunkBlocksSnoc(path, f, n, k);
      assert ChunkPieces(f, n, k)[..k - 1] == ChunkPieces(f, n, k - 1);
    }
  }

  /** The blocks of the first `j` chunks, holding exactly the file's
      resident pages below chunk `j`. */
  lemma ChunksBefore(path: string, f: FileInfo, n: nat, j: nat)
    requires j < NumChunks(n)
    ensures ChunkBlocks(path, f, n, j) == BlocksOf(path, ChunkPieces(f, n, j))
    ensures Flatten(ChunkPieces(f, n, j)) == LowResident(f, 0, j * 0x10_0000)
    ensures j * 0x10_0000 + ChunkLen(n, j) == Min((j + 1) * 0x10_0000, n)
  {
    ChunkBlocksOf(path, f, n, j);
    ChunksPartition(f, n, j);
    ChunkSpan(n, j);
  }

  /** A failing `mmap` of chunk `j`: `dump_file` leaves one block for each
      earlier chunk, together holding exactly the file's resident pages
      below chunk `j`. Each earlier chunk is mapped and unmapped in turn;
      the failing call asks for chunk `j`, so the calls ask for the pages
      below its end once each, in order, and nothing is unmapped after it.
      The bitmap buffer stays allocated. */
  lemma MapFailureEffects(path: string, f: FileInfo, ps: nat, j: nat)
    requires ps > 0 && f.statOk
    requires var n := PageCount(f, ps);
      j < NumChunks(n) && FaultChunk(f.mapFault, n) == j && FaultChunk(f.queryFault, n) >= j
    ensures var n := PageCount(f, ps);
      var d := FileDump(path, f, ps, true);
      && d.1 == MapError && d.2
      && d.0 == BlocksOf(path, ChunkPieces(f, n, j))
      && Flatten(ChunkPieces(f, n, j)) == LowResident(f, 0, j * 0x10_0000)
      && MappedPages(d.3) == Range(0, Min((j + 1) * 0x10_0000, n))
      && d.3 != [] && d.3[|d.3| - 1] == Map(j * 0x10_0000, ChunkLen(n, j))
      && Paired(d.3[..|d.3| - 1])
  {
    var n := PageCount(f, ps);
    MapFails(path, f, ps, j);
    ChunksBefore(path, f, n, j);
    MapFailureCalls(n, j);
    ChunkEventsPaired(n, j);
  }

  /** The calls up to a failing `mmap` of chunk `j`. */
  lemma MapFailureCalls(n: nat, j: nat)
    requires j < NumChunks(n)
    ensures var events := ChunkEvents(n, j) + [Map(j * 0x10_0000, ChunkLen(n, j))];
      && MappedPages(events) == Range(0, Min((j + 1) * 0x10_0000, n))
      && events[..|events| - 1] == ChunkEvents(n, j)
  {
    var start, len := j * 0x10_0000, ChunkLen(n, j);
    ChunksTile(n, j);
    ChunkSpan(n, j);
    MapAfter(ChunkEvents(n, j), start, len, Min((j + 1) * 0x10_0000, n));
  }

  /** One more mapping after the pages below `start` extends them. */
  lemma MapAfter(before: seq<MemEvent>, start: nat, len: nat, end: nat)
    requires MappedPages(before) == Range(0, start) && start + len == end
    ensures var events := before + [Map(start, len)];
      MappedPages(events) == Range(0, end) && events[..|events| - 1] == before
  {
    var events := before + [Map(start, len)];
    assert events[..|events| - 1] == before;
    RangeAppend(0, start, len);
  }

  /** A failing `mincore` on chunk `j`: `dump_file` leaves one block for
      each earlier chunk, together holding exactly the file's resident
      pages below chunk `j`. The chunks up to `j` are each mapped and then
      unmapped, the last unmapping being chunk `j`'s. The buffer is freed. */
  lemma QueryFailureEffects(path: string, f: FileInfo, ps: nat, j: nat)
    requires ps > 0 && f.statOk
    requires var n := PageCount(f, ps);
      j < NumChunks(n) && FaultChunk(f.mapFault, n) > j && FaultChunk(f.queryFault, n) == j
    ensures var n := PageCount(f, ps);
      var d := FileDump(path, f, ps, true);
      && d.1 == QueryError && !d.2
      && d.0 == BlocksOf(path, ChunkPieces(f, n, j))
      && Flatten(ChunkPieces(f, n, j)) == LowResident(f, 0, j * 0x10_0000)
      && MappedPages(d.3) == Range(0, Min((j + 1) * 0x10_0000, n))
      && Paired(d.3) && d.3 != [] && d.3[|d.3| - 1] == Unmap(j * 0x10_0000, ChunkLen(n, j))
  {
    var n := PageCount(f, ps);
    QueryFails(path, f, ps, j);
    ChunksBefore(path, f, n, j);
    ChunksTile(n, j + 1);
    ChunkEventsPaired(n, j + 1);
  }

  /** No failing call: `dump_file` writes one block per chunk, together
      holding exactly the file's resident pages, and maps and unmaps each
      chunk in turn, asking for every page of the file once, in order. The
      buffer is freed. */
  lemma CompleteEffects(path: string, f: FileInfo, ps: nat)
    requires ps > 0 && f.statOk
    requires var n := PageCount(f, ps);
      FaultChunk(f.mapFault, n) >= NumChunks(n) && FaultChunk(f.queryFault, n) >= NumChunks(n)
    ensures var n := PageCount(f, ps);
      var d := FileDump(path, f, ps, true);
      && d.1 == Done && !d.2
      && d.0 == BlocksOf(path, ChunkPieces(f, n, NumChunks(n)))
      && Flatten(ChunkPieces(f, n, NumChunks(n))) == LowResident(f, 0, n)
      && MappedPages(d.3) == Range(0, n) && Paired(d.3)
  {
    var n := PageCount(f, ps);
    AllChunks(path, f, ps, NumChunks(n));
    ChunkBlocksOf(path, f, n, NumChunks(n));
    ChunksPartition(f, n, NumChunks(n));
    AllChunksEnd(n);
    ChunksTile(n, NumChunks(n));
    ChunkEventsPaired(n, NumChunks(n));
  }

  // ---------------------------------------------------------------------
  // Against the Rust dumper

  /** On a bitmap whose bytes are 0 or 1 the low-bit test finds the same
      pages as the Rust dumper's nonzero test. */
  lemma {:induction false} LowIsNonzero(f: FileInfo, m: nat)
    requires forall p :: 0 <= p < |f.resident| ==> f.resident[p] <= 1
    ensures LowResident(f, 0, m) == RustDump.ResidentBelow(f, m)
  {
    if m > 0 {
      LowIsNonzero(f, m - 1);
      RustDump.ResidentBelowSnoc(f, m - 1);
      assert LowBit(ByteAt(f, 0 + (m - 1))) <==> ByteAt(f, m - 1) != 0;
    }
  }

  /** A file of at most one chunk, with a 0/1 bitmap and no failing call, is
      written by both dumpers alike. */
  lemma SingleChunkAgrees(path: string, f: FileInfo, ps: nat)
    requires ps > 0 && PageCount(f, ps) <= 0x10_0000
    requires f.openOk && f.statOk && f.mapFault.None? && f.queryFault.None?
    requires forall p :: 0 <= p < |f.resident| ==> f.resident[p] <= 1
    ensures FileDump(path, f, ps, true).1 == Done
    ensures FileDump(path, f, ps, true).0 == RustDump.FileDump(path, f, ps).0
  {
    var n := PageCount(f, ps);
    SingleChunkC(path, f, ps);
    SingleChunkRust(path, f, ps);
    LowIsNonzero(f, n);
  }

  /** The C dumper on a file of at most one chunk without faults. */
  lemma SingleChunkC(path: string, f: FileInfo, ps: nat)
    requires ps > 0 && PageCount(f, ps) <= 0x10_0000
    requires f.statOk && f.mapFault.None? && f.queryFault.None?
    ensures FileDump(path, f, ps, true).1 == Done
    ensures FileDump(path, f, ps, true).0 == Block(path, LowResident(f, 0, PageCount(f, ps)))
  {
    var n := PageCount(f, ps);
    if n > 0 {
      OneChunk(f, n);
      ChunkBlocksSnoc(path, f, n, 1);
      assert ChunkBlocks(path, f, n, 1) == [] + Block(path, LowResident(f, 0, n));
    } else {
      assert NumChunks(n) == 0;
    }
  }

  lemma OneChunk(f: FileInfo, n: nat)
    requires 0 < n <= 0x10_0000
    ensures NumChunks(n) == 1 && ChunkLen(n, 0) == n && ChunkResident(f, n, 0) == LowResident(f, 0, n)
  {
    CeilDivUnique(n, 0x10_0000, 1);
  }

  /** The Rust dumper on a file without faults. */
  lemma SingleChunkRust(path: string, f: FileInfo, ps: nat)
    requires ps > 0 && f.openOk && f.mapFault.None? && f.queryFault.None?
    ensures RustDump.FileDump(path, f, ps).0 == Block(path, RustDump.ResidentBelow(f, PageCount(f, ps)))
  {
    var n := PageCount(f, ps);
    if n == 0 {
      assert RustDump.ResidentBelow(f, 0) == [];
    } else {
      assert RustDump.StopPage(f, n) == n;
    }
  }

  /** A one-page file whose bitmap byte is 2: only the Rust dumper, which
      tests for a nonzero byte, reports the page. */
  function HighBitFile(ps: nat): FileInfo {
    FileInfo(ps, [2], true, true, None, None)
  }

  lemma HighBitOnly(path: string, ps: nat)
    requires ps > 0
    ensures FileDump(path, HighBitFile(ps), ps, true).0 == []
    ensures RustDump.FileDump(path, HighBitFile(ps), ps).0 == [Header(path), Delta(0)]
  {
    HighBitC(path, ps);
    HighBitRust(path, ps);
  }

  lemma HighBitC(path: string, ps: nat)
    requires ps > 0
    ensures FileDump(path, HighBitFile(ps), ps, true).0 == []
  {
    var f := HighBitFile(ps);
    CeilDivUnique(ps, ps, 1);
    CeilDivUnique(1, 0x10_0000, 1);
    assert ChunkLen(1, 0) == 1;
    assert !LowBit(2) by { assert LowBit(2) == LowBit(0); }
    assert LowResident(f, 0, 1) == [];
    ChunkBlocksSnoc(path, f, 1, 1);
  }

  lemma HighBitRust(path: string, ps: nat)
    requires ps > 0
    ensures RustDump.FileDump(path, HighBitFile(ps), ps).0 == [Header(path), Delta(0)]
  {
    var f := HighBitFile(ps);
    CeilDivUnique(ps, ps, 1);
    assert MapSucceeds(f, 0, 1) && RustDump.StopPage(f, 1) == 1;
    assert RustDump.FileDump(path, f, ps) == (Block(path, RustDump.ResidentBelow(f, 1)), Ok);
    HighBitResident(ps);
    assert Block(path, [0]) == [Header(path)] + DeltaLines([0]);
  }

  /** A range with no low bit set has no resident page. */
  lemma {:induction false} LowResidentNone(f: FileInfo, base: nat, len: nat)
    requires forall p :: base <= p < base + len ==> !LowBit(ByteAt(f, p))
    ensures LowResident(f, base, len) == []
  {
    if len > 0 {
      LowResidentNone(f, base, len - 1);
    }
  }

  lemma HighBitResident(ps: nat)
    ensures RustDump.ResidentBelow(HighBitFile(ps), 1) == [0]
  {
    RustDump.ResidentBelowSnoc(HighBitFile(ps), 0);
  }

  /** The block of two resident pages. */
  lemma BlockOfPair(path: string, a: nat, b: nat)
    requires a <= b
    ensures Block(path, [a, b]) == [Header(path), Delta(a), Delta(b - a)]
  {
    GapsOfTwo(a, b);
    assert DeltaLines([a, b - a]) == [Delta(a), Delta(b - a)];
  }

  lemma TwoChunkLowHalf(ps: nat)
    ensures LowResident(RustDump.TwoChunkFile(ps), 0, 0x10_0000) == [0, 1]
  {
    TwoChunkStart(ps);
    TwoChunkGap(ps);
    LowResidentAppend(RustDump.TwoChunkFile(ps), 0, 2, 0x10_0000 - 2);
  }

  lemma TwoChunkStart(ps: nat)
    ensures LowResident(RustDump.TwoChunkFile(ps), 0, 2) == [0, 1]
  {
    var f := RustDump.TwoChunkFile(ps);
    assert LowResident(f, 0, 1) == [0] by { assert LowBit(ByteAt(f, 0)); }
    assert LowBit(ByteAt(f, 1));
  }

  lemma TwoChunkGap(ps: nat)
    ensures LowResident(RustDump.TwoChunkFile(ps), 2, 0x10_0000 - 2) == []
  {
    var f := RustDump.TwoChunkFile(ps);
    forall p | 2 <= p < 2 + (0x10_0000 - 2) ensures !LowBit(ByteAt(f, p)) {
      assert ByteAt(f, p) == 0;
    }
    LowResidentNone(f, 2, 0x10_0000 - 2);
  }

  lemma TwoChunkHighHalf(ps: nat)
    ensures LowResident(RustDump.TwoChunkFile(ps), 0x10_0000, 2) == [0x10_0000, 0x10_0000 + 1]
  {
    var C := 0x10_0000;
    var f := RustDump.TwoChunkFile(ps);
    assert LowBit(ByteAt(f, C + 0)) && LowBit(ByteAt(f, C + 1));
    assert LowResident(f, C, 1) == [C];
  }

  /** The file of `RustDump.TwoChunkExample`, resident at pages 0, 1,
      `1<<20` and `(1<<20) + 1`: the C dumper writes the path again for the
      second chunk and starts that chunk's deltas from page 0, so the third
      delta is `1<<20` where the Rust dumper writes `(1<<20) - 1`. */
  lemma TwoChunkRepeatsHeader(path: string, ps: nat)
    requires ps > 0
    ensures FileDump(path, RustDump.TwoChunkFile(ps), ps, true)
         == ([Header(path), Delta(0), Delta(1), Header(path), Delta(0x10_0000), Delta(1)], Done, false,
             [Map(0, 0x10_0000), Unmap(0, 0x10_0000), Map(0x10_0000, 2), Unmap(0x10_0000, 2)])
  {
    var C := 0x10_0000;
    var f := RustDump.TwoChunkFile(ps);
    var n := C + 2;
    CeilDivUnique((C + 2) * ps, ps, C + 2);
    assert PageCount(f, ps) == n;
    CeilDivUnique(n, C, 2);
    assert ChunkLen(n, 0) == C && ChunkLen(n, 1) == 2;
    TwoChunkLowHalf(ps);
    TwoChunkHighHalf(ps);
    assert ChunkResident(f, n, 0) == [0, 1] && ChunkResident(f, n, 1) == [C, C + 1];
    TwoChunkBlocks(path, f, n);
    assert FaultChunk(f.mapFault, n) == 2 && FaultChunk(f.queryFault, n) == 2;
    assert FileDump(path, f, ps, true) == (ChunkBlocks(path, f, n, 2), Done, false, ChunkEvents(n, 2));
    assert ChunkEvents(n, 1) == [] + [Map(0, C), Unmap(0, C)];
    assert ChunkEvents(n, 2) == [Map(0, C), Unmap(0, C)] + [Map(C, 2), Unmap(C, 2)];
    assert [Map(0, C), Unmap(0, C)] + [Map(C, 2), Unmap(C, 2)] == [Map(0, C), Unmap(0, C), Map(C, 2), Unmap(C, 2)];
  }

  lemma TwoChunkBlocks(path: string, f: FileInfo, n: nat)
    requires ChunkResident(f, n, 0) == [0, 1] && ChunkResident(f, n, 1) == [0x10_0000, 0x10_0000 + 1]
    ensures ChunkBlocks(path, f, n, 2)
         == [Header(path), Delta(0), Delta(1), Header(path), Delta(0x10_0000), Delta(1)]
  {
    BlockOfPair(path, 0, 1);
    BlockOfPair(path, 0x10_0000, 0x10_0000 + 1);
    ChunkBlocksSnoc(path, f, n, 1);
    ChunkBlocksSnoc(path, f, n, 2);
  }
}
