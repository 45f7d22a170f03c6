/** The C loader (happycache.c): `load_from_map` reads the dump line by
    line, opens each file named in it, gathers its resident pages into runs
    of consecutive pages, and hands each run to `load_pages`, which asks the
    kernel to read ahead the pages of the run that are not in the page
    cache yet. `prepare_file` and `finished_file_op` set up and release the
    per-file state. The per-file state is one `fd_info` record that every
    file reuses. */
module Loader {
  import opened Format
  import opened FileSystem

  // ---------------------------------------------------------------------
  // Unsigned 64-bit arithmetic

  const U64: int := 0x1_0000_0000_0000_0000

  /** `uint64_t` and `size_t`. */
  type u64 = x: int | 0 <= x < 0x1_0000_0000_0000_0000

  /** Conversion of an integer to `uint64_t`. */
  function Wrap(x: int): u64 {
    if 0 <= x < U64 then x else x % U64
  }

  /** `a - b` in `uint64_t`. */
  function Sub64(a: u64, b: u64): (r: u64)
    ensures a >= b ==> r == a - b
    ensures a < b ==> r == U64 + a - b
  {
    if a >= b then a - b else U64 + a - b
  }

  /** `a + b` in `uint64_t`. */
  function Add64(a: u64, b: u64): (r: u64)
    ensures a + b < U64 ==> r == a + b
    ensures a + b >= U64 ==> r == a + b - U64
  {
    if a + b < U64 then a + b else a + b - U64
  }

  /** The most pages one read-ahead request covers. */
  const AdviseLimit: nat := 8

  // ---------------------------------------------------------------------
  // The per-file record

  /** `struct fd_info`: whether `base_addr` is a mapping (not `MAP_FAILED`),
      `num_pages`, `refcount`, the bitmap buffer `mincore` and the page its
      first entry describes, `mincore_start`. `file` is what the mapping
      shows of the open file, the oracle that `mincore` consults. */
  datatype FdState = FdState(
    baseValid: bool,
    numPages: u64,
    refcount: int,
    mincore: seq<byte>,
    mincoreStart: u64,
    file: FileInfo)

  /** The record after `bzero`: `base_addr` is null, which is not
      `MAP_FAILED`, and `mincore` is a null pointer (an empty buffer). */
  const Zeroed := FdState(true, 0, 0, [], 0, FileInfo(0, [], false, false, None, None))

  /** What the loader does to the system, in order. */
  datatype LoadEvent =
    | Open(path: string)
    | Flush(start: u64, count: u64)   // a call of `load_pages`
    | Advise(first: u64, pages: nat)  // `posix_fadvise(..., POSIX_FADV_WILLNEED)`
    | Overrun(offset: u64)            // a read past the end of the bitmap buffer
    | Unmap(mappedPages: u64)
    | Close

  function Zeros(n: nat): (r: seq<byte>)
    ensures |r| == n && forall k :: 0 <= k < n ==> r[k] == 0
  {
    seq(n, k => 0)
  }

  datatype Prepared = Prepared(fdi: FdState, fdOpen: bool, events: seq<LoadEvent>)

  /** `prepare_file(line, &fdi)` with `files` the files that exist. When
      `open` fails nothing is reset; otherwise the record is reset first,
      and `num_pages`, the mapping and a fresh bitmap of the first chunk
      are stored only when `fstat` and `mmap` succeed. The bitmap buffer is
      uninitialised when its `mincore` fails; that is modelled as zeros. */
  function Prepare(s: FdState, line: string, files: map<string, FileInfo>, ps: nat): (r: Prepared)
    requires ps > 0
  {
    if line !in files || !files[line].openOk then Prepared(s, false, [])
    else
      var f := files[line];
      var reset := FdState(false, U64 - 1, 1, s.mincore, 0, f);
      var n := Wrap(PageCount(f, ps));
      if !f.statOk || !MapSucceeds(f, 0, n) then Prepared(reset, true, [Open(line)])
      else
        var chunk := Min(ChunkPages, n);
        var buffer := if QuerySucceeds(f, 0, chunk) then Query(f, 0, chunk) else Zeros(chunk);
        Prepared(FdState(true, n, 1, buffer, 0, f), true, [Open(line)])
  }

  datatype Released = Released(fdi: FdState, events: seq<LoadEvent>)

  /** `finished_file_op(&fdi, fd)`: drops one reference; the last one
      unmaps the file, if it was mapped, and closes it. */
  function Finished(s: FdState): (r: Released)
  {
    var rc := s.refcount - 1;
    Released(s.(refcount := rc),
             if rc == 0 then (if s.baseValid then [Unmap(s.numPages)] else []) + [Close] else [])
  }

  // ---------------------------------------------------------------------
  // load_pages

  /** A new bitmap for the chunk at `start`: `mincore` over
      `min(CHUNK_SIZE, num_pages - start)` pages from page `start` of the
      mapping. Its result is not checked; a failing call leaves the buffer
      as it was. The call fails when there is no mapping, when the range
      leaves the `num_pages` pages mapped (a start past `num_pages`, where
      the unsigned difference wraps), or when the query fails. A chunk
      longer than the buffer would be written past its end; the records
      `prepare_file` builds never reach that case (`BufferSized`), and the
      model leaves the buffer as it was there. */
  function Refresh(s: FdState, start: u64): (r: FdState)
    ensures |r.mincore| == |s.mincore| && r.mincoreStart == start
    ensures r.baseValid == s.baseValid && r.numPages == s.numPages && r.file == s.file
    ensures r.refcount == s.refcount
  {
    var chunk := Min(ChunkPages, Sub64(s.numPages, start));
    var buffer :=
      if s.baseValid && start + chunk <= s.numPages && QuerySucceeds(s.file, start, chunk)
         && chunk <= |s.mincore|
      then Query(s.file, start, chunk) + s.mincore[chunk..]
      else s.mincore;
    s.(mincoreStart := start, mincore := buffer)
  }

  /** A mapped record's buffer holds the bitmap of one chunk, as
      `prepare_file` allocates it. */
  predicate BufferSized(s: FdState) {
    s.baseValid ==> |s.mincore| == Min(ChunkPages, s.numPages)
  }

  /** On such a record every successful refresh fits the buffer. */
  lemma RefreshFits(s: FdState, start: u64)
    requires BufferSized(s) && s.baseValid && start + Min(ChunkPages, Sub64(s.numPages, start)) <= s.numPages
    ensures Min(ChunkPages, Sub64(s.numPages, start)) <= |s.mincore|
  {
  }

  /** A refresh at a page past the end queries nothing: the buffer keeps
      the bitmap of the chunk before, now read as if it started at `start`. */
  lemma RefreshPastEnd(s: FdState, start: u64)
    requires s.numPages < start
    ensures Refresh(s, start) == s.(mincoreStart := start)
  {
    var chunk := Min(ChunkPages, Sub64(s.numPages, start));
    assert chunk >= 1 by {
      assert Sub64(s.numPages, start) == U64 + s.numPages - start;
    }
  }

  /** The result of the loop of `load_pages`: the record afterwards, the
      read-ahead requests, and whether it read past the bitmap buffer (an
      undefined read, after which this model stops the call). */
  datatype Walked = Walked(fdi: FdState, advice: seq<Run>, overrun: Option<u64>)

  /** The loop of `load_pages` from page `start` with `count` pages left:
      the bitmap is refreshed when the page lies more than `CHUNK_SIZE`
      entries past `mincore_start`; a page whose entry has the low bit
      clear starts a request of `min(8, count)` pages, a resident one is
      stepped over. */
  function Walk(s: FdState, start: u64, count: u64): (r: Walked)
    decreases count
  {
    if count == 0 then Walked(s, [], None)
    else
      var off := Sub64(start, s.mincoreStart);
      var s1 := if off > ChunkPages then Refresh(s, start) else s;
      var off1 := if off > ChunkPages then 0 else off;
      if off1 >= |s1.mincore| then Walked(s1, [], Some(off1))
      else if !LowBit(s1.mincore[off1]) then
        var limit := Min(AdviseLimit, count);
        var r := Walk(s1, Add64(start, limit), count - limit);
        Walked(r.fdi, [Run(start, limit)] + r.advice, r.overrun)
      else Walk(s1, Add64(start, 1), count - 1)
  }

  /** The walk keeps the buffer's size. */
  lemma {:induction false} WalkSized(s: FdState, start: u64, count: u64)
    requires BufferSized(s)
    ensures BufferSized(Walk(s, start, count).fdi)
    decreases count
  {
    if count > 0 {
      var off := Sub64(start, s.mincoreStart);
      var s1 := if off > ChunkPages then Refresh(s, start) else s;
      var off1 := if off > ChunkPages then 0 else off;
      if off1 < |s1.mincore| {
        if !LowBit(s1.mincore[off1]) {
          WalkSized(s1, Add64(start, Min(AdviseLimit, count)), count - Min(AdviseLimit, count));
        } else {
          WalkSized(s1, Add64(start, 1), count - 1);
        }
      }
    }
  }

  /** `count` cut to the pages left in the file, `num_pages - start`, in
      unsigned arithmetic. */
  function Clamp(numPages: u64, start: u64, count: u64): u64 {
    var room := Sub64(numPages, start);
    if room < count then room else count
  }

  /** `load_pages(&fdi, fd, start, count)`: nothing without a file. */
  function LoadPages(s: FdState, fdOpen: bool, start: u64, count: u64): (r: Walked)
  {
    if !fdOpen then Walked(s, [], None)
    else Walk(s, start, Clamp(s.numPages, start, count))
  }

  /** Inside the file the clamp keeps the run in the file. */
  lemma ClampInFile(numPages: u64, start: u64, count: u64)
    requires start <= numPages
    ensures Clamp(numPages, start, count) == Min(count, numPages - start)
    ensures start + Clamp(numPages, start, count) <= numPages
  {
  }

  /** Past the end of the file the unsigned difference wraps around and
      the clamp lets the run through unchanged. */
  lemma ClampPastEnd(numPages: u64, start: u64, count: u64)
    requires numPages < start && count <= U64 + numPages - start
    ensures Clamp(numPages, start, count) == count
  {
  }

  // ---------------------------------------------------------------------
  // Properties of load_pages

  /** Every request lies in the run, is 1 to 8 pages long, and each ends
      before the next begins. */
  predicate InRun(advice: seq<Run>, start: int, count: int) {
    forall k :: 0 <= k < |advice| ==>
      start <= advice[k].start && advice[k].start + advice[k].len <= start + count
      && 1 <= advice[k].len <= AdviseLimit
  }

  predicate Ascending(advice: seq<Run>) {
    forall k :: 0 < k < |advice| ==> advice[k - 1].start + advice[k - 1].len <= advice[k].start
  }

  /** The walk ends, every step shrinking `count`; its requests are
      ascending, disjoint and inside the run. */
  lemma {:induction false} WalkInRun(s: FdState, start: u64, count: u64)
    requires start + count < U64
    ensures InRun(Walk(s, start, count).advice, start, count)
    ensures Ascending(Walk(s, start, count).advice)
    decreases count
  {
    if count > 0 {
      var off := Sub64(start, s.mincoreStart);
      var s1 := if off > ChunkPages then Refresh(s, start) else s;
      var off1 := if off > ChunkPages then 0 else off;
      if off1 < |s1.mincore| {
        if !LowBit(s1.mincore[off1]) {
          var limit := Min(AdviseLimit, count);
          WalkInRun(s1, start + limit, count - limit);
          assert Walk(s, start, count).advice == [Run(start, limit)] + Walk(s1, start + limit, count - limit).advice;
          InRunCons(start, count, limit, Walk(s1, start + limit, count - limit).advice);
        } else {
          WalkInRun(s1, start + 1, count - 1);
          assert Walk(s, start, count) == Walk(s1, start + 1, count - 1);
        }
      }
    }
  }

  lemma InRunCons(start: nat, count: nat, limit: nat, rest: seq<Run>)
    requires 1 <= limit <= AdviseLimit && limit <= count
    requires InRun(rest, start + limit, count - limit) && Ascending(rest)
    ensures InRun([Run(start, limit)] + rest, start, count) && Ascending([Run(start, limit)] + rest)
  {
    var all := [Run(start, limit)] + rest;
    assert forall k :: 0 < k < |all| ==> all[k] == rest[k - 1];
  }

  /** Page `p` lies in one of the requests. */
  predicate Covered(advice: seq<Run>, p: int) {
    exists k :: 0 <= k < |advice| && advice[k].start <= p < advice[k].start + advice[k].len
  }

  lemma CoveredCons(x: Run, rest: seq<Run>, p: int)
    requires Covered(rest, p) || x.start <= p < x.start + x.len
    ensures Covered([x] + rest, p)
  {
    var all := [x] + rest;
    if x.start <= p < x.start + x.len {
      assert all[0] == x;
    } else {
      var k :| 0 <= k < |rest| && rest[k].start <= p < rest[k].start + rest[k].len;
      assert all[k + 1] == rest[k];
    }
  }

  /** Files of up to `2^63` pages, as a signed size allows. */
  const MaxPages: int := 0x8000_0000_0000_0000

  /** The record of a mapped file whose bitmap buffer, sized by the first
      chunk, holds the file's own residency for the pages it covers. */
  predicate Fresh(s: FdState) {
    s.baseValid && s.file.queryFault.None? && s.numPages < MaxPages
    && s.mincoreStart <= s.numPages && |s.mincore| == Min(ChunkPages, s.numPages)
    && forall k :: 0 <= k < |s.mincore| && s.mincoreStart + k < s.numPages ==>
         s.mincore[k] == ByteAt(s.file, s.mincoreStart + k)
  }

  /** A page of the file read from a fresh record: the byte read is the
      file's own, and the record stays fresh. */
  lemma ReadStep(s: FdState, start: u64)
    requires Fresh(s) && start < s.numPages
    ensures var off := Sub64(start, s.mincoreStart);
            var s1 := if off > ChunkPages then Refresh(s, start) else s;
            var off1 := if off > ChunkPages then 0 else off;
            Fresh(s1) && s1.file == s.file && s1.numPages == s.numPages && s1.mincoreStart + off1 == start
            && (off1 < |s1.mincore| ==> s1.mincore[off1] == ByteAt(s.file, start))
  {
    var off := Sub64(start, s.mincoreStart);
    if off > ChunkPages {
      RefreshFresh(s, start);
    }
  }

  lemma RefreshFresh(s: FdState, start: u64)
    requires Fresh(s) && start < s.numPages
    ensures Fresh(Refresh(s, start))
  {
    var chunk := Min(ChunkPages, Sub64(s.numPages, start));
    var r := Refresh(s, start);
    assert r.mincore == Query(s.file, start, chunk) + s.mincore[chunk..];
    forall k | 0 <= k < |r.mincore| && start + k < r.numPages
      ensures r.mincore[k] == ByteAt(s.file, start + k)
    {
      assert k < chunk;
    }
  }

  /** What a walk over `count` pages from `start` of a fresh record with
      file `f` of `n` pages promises: the record stays fresh, each request
      starts at a page that is not resident, and, unless the walk read past
      the buffer, every page of the run that is not resident lies in a
      request. */
  predicate WalkSound(f: FileInfo, n: u64, refcount: int, r: Walked, start: nat, count: nat) {
    Fresh(r.fdi) && r.fdi.file == f && r.fdi.numPages == n && r.fdi.refcount == refcount
    && (forall k :: 0 <= k < |r.advice| ==> !LowBit(ByteAt(f, r.advice[k].start)))
    && (r.overrun.None? ==>
          forall p :: start <= p < start + count && !LowBit(ByteAt(f, p)) ==> Covered(r.advice, p))
  }

  lemma {:induction false} WalkCovers(s: FdState, start: u64, count: u64)
    requires Fresh(s) && start + count <= s.numPages
    ensures WalkSound(s.file, s.numPages, s.refcount, Walk(s, start, count), start, count)
    decreases count
  {
    if count > 0 {
      ReadStep(s, start);
      var off := Sub64(start, s.mincoreStart);
      var s1 := if off > ChunkPages then Refresh(s, start) else s;
      var off1 := if off > ChunkPages then 0 else off;
      if off1 < |s1.mincore| {
        if !LowBit(s1.mincore[off1]) {
          var limit := Min(AdviseLimit, count);
          WalkCovers(s1, start + limit, count - limit);
          WalkNonresident(s, s1, start, count, limit);
        } else {
          WalkCovers(s1, start + 1, count - 1);
          WalkResident(s, s1, start, count);
        }
      }
    }
  }

  lemma WalkResident(s: FdState, s1: FdState, start: u64, count: u64)
    requires s1.file == s.file && start + count <= s.numPages && s1.numPages == s.numPages
    requires s1.refcount == s.refcount
    requires count > 0 && LowBit(ByteAt(s.file, start))
    requires var off := Sub64(start, s.mincoreStart);
             s1 == (if off > ChunkPages then Refresh(s, start) else s)
             && var off1 := if off > ChunkPages then 0 else off;
             off1 < |s1.mincore| && s1.mincore[off1] == ByteAt(s.file, start)
    requires WalkSound(s.file, s.numPages, s.refcount, Walk(s1, start + 1, count - 1), start + 1, count - 1)
    ensures WalkSound(s.file, s.numPages, s.refcount, Walk(s, start, count), start, count)
  {
    assert Walk(s, start, count) == Walk(s1, start + 1, count - 1);
  }

  lemma WalkNonresident(s: FdState, s1: FdState, start: u64, count: u64, limit: nat)
    requires s1.file == s.file && start + count <= s.numPages && s1.numPages == s.numPages
    requires s1.refcount == s.refcount
    requires count > 0 && limit == Min(AdviseLimit, count) && !LowBit(ByteAt(s.file, start))
    requires var off := Sub64(start, s.mincoreStart);
             s1 == (if off > ChunkPages then Refresh(s, start) else s)
             && var off1 := if off > ChunkPages then 0 else off;
             off1 < |s1.mincore| && s1.mincore[off1] == ByteAt(s.file, start)
    requires WalkSound(s.file, s.numPages, s.refcount, Walk(s1, start + limit, count - limit), start + limit, count - limit)
    ensures WalkSound(s.file, s.numPages, s.refcount, Walk(s, start, count), start, count)
  {
    var rest := Walk(s1, start + limit, count - limit);
    var all := [Run(start, limit)] + rest.advice;
    assert Walk(s, start, count) == Walked(rest.fdi, all, rest.overrun);
    assert forall k :: 0 < k < |all| ==> all[k] == rest.advice[k - 1];
    if rest.overrun.None? {
      forall p | start <= p < start + count && !LowBit(ByteAt(s.file, p)) ensures Covered(all, p) {
        CoveredCons(Run(start, limit), rest.advice, p);
      }
    }
  }

  /** The walk changes only the bitmap buffer and `mincore_start`. */
  lemma {:induction false} WalkKeeps(s: FdState, start: u64, count: u64)
    ensures var r := Walk(s, start, count).fdi;
            r.baseValid == s.baseValid && r.numPages == s.numPages && r.refcount == s.refcount
            && r.file == s.file && |r.mincore| == |s.mincore|
    decreases count
  {
    if count > 0 {
      var off := Sub64(start, s.mincoreStart);
      var s1 := if off > ChunkPages then Refresh(s, start) else s;
      var off1 := if off > ChunkPages then 0 else off;
      if off1 < |s1.mincore| {
        if !LowBit(s1.mincore[off1]) {
          WalkKeeps(s1, Add64(start, Min(AdviseLimit, count)), count - Min(AdviseLimit, count));
        } else {
          WalkKeeps(s1, Add64(start, 1), count - 1);
        }
      }
    }
  }

  // ---------------------------------------------------------------------
  // Properties of prepare_file and finished_file_op

  /** A file that opens, stats and maps gets a fresh record: one
      reference, `num_pages` its page count, `mincore_start` 0. */
  lemma PrepareFresh(s: FdState, line: string, files: map<string, FileInfo>, ps: nat)
    requires ps > 0 && line in files
    requires var f := files[line];
             f.openOk && f.statOk && f.queryFault.None? && PageCount(f, ps) < MaxPages
             && MapSucceeds(f, 0, PageCount(f, ps))
    ensures var p := Prepare(s, line, files, ps);
            p.fdOpen && p.events == [Open(line)] && Fresh(p.fdi) && p.fdi.refcount == 1
            && p.fdi.mincoreStart == 0 && p.fdi.numPages == PageCount(files[line], ps)
            && p.fdi.file == files[line]
  {
  }

  /** When `fstat` or `mmap` fails the descriptor is kept, but `num_pages`
      stays `-1` (the largest `size_t`), so the clamp of `load_pages` no
      longer limits a run, and the bitmap buffer is the previous file's. */
  lemma PrepareFailureStale(s: FdState, line: string, files: map<string, FileInfo>, ps: nat)
    requires ps > 0 && line in files && files[line].openOk
    requires !files[line].statOk || !MapSucceeds(files[line], 0, Wrap(PageCount(files[line], ps)))
    ensures var p := Prepare(s, line, files, ps);
            p.fdOpen && !p.fdi.baseValid && p.fdi.numPages == U64 - 1 && p.fdi.mincore == s.mincore
            && forall start: u64, count: u64 :: start + count <= U64 - 1 ==>
                 Clamp(p.fdi.numPages, start, count) == count
  {
  }

  /** A file that does not open leaves the record as it was. */
  lemma PrepareOpenFails(s: FdState, line: string, files: map<string, FileInfo>, ps: nat)
    requires ps > 0 && (line !in files || !files[line].openOk)
    ensures Prepare(s, line, files, ps) == Prepared(s, false, [])
  {
  }

  /** After `prepare_file` opened a file, any number of `load_pages` calls
      leave one reference, so `finished_file_op` closes the file, and
      unmaps it exactly when the mapping succeeded. */
  lemma FinishAfterPrepare(s: FdState, line: string, files: map<string, FileInfo>, ps: nat,
                           loaded: FdState)
    requires ps > 0 && line in files && files[line].openOk
    requires var p := Prepare(s, line, files, ps).fdi;
             loaded.refcount == p.refcount && loaded.baseValid == p.baseValid && loaded.numPages == p.numPages
    ensures var f := files[line];
            var mapped := f.statOk && MapSucceeds(f, 0, Wrap(PageCount(f, ps)));
            Finished(loaded).events
            == (if mapped then [Unmap(Wrap(PageCount(f, ps)))] else []) + [Close]
  {
  }

  /** The refresh test is `offset > CHUNK_SIZE`, so on a file of more than
      `CHUNK_SIZE` pages the page at offset `CHUNK_SIZE` of the first chunk
      is read from index `CHUNK_SIZE` of a buffer of `CHUNK_SIZE` bytes. */
  lemma OverrunAtChunkEnd(s: FdState)
    requires Fresh(s) && s.mincoreStart == 0 && s.numPages > ChunkPages
    ensures Walk(s, ChunkPages, 1).overrun == Some(ChunkPages)
  {
  }

  /** The overrun right after `prepare_file`: a file of `CHUNK_SIZE + 1`
      pages whose run holds page `CHUNK_SIZE`. */
  lemma OverrunAfterPrepare(s: FdState, line: string, files: map<string, FileInfo>, ps: nat)
    requires ps > 0 && line in files
    requires var f := files[line];
             f.openOk && f.statOk && f.queryFault.None? && PageCount(f, ps) == ChunkPages + 1
             && MapSucceeds(f, 0, ChunkPages + 1)
    ensures var p := Prepare(s, line, files, ps);
            LoadPages(p.fdi, p.fdOpen, ChunkPages, 1).overrun == Some(ChunkPages)
  {
    PrepareFresh(s, line, files, ps);
    var p := Prepare(s, line, files, ps);
    assert Clamp(p.fdi.numPages, ChunkPages, 1) == 1;
    OverrunAtChunkEnd(p.fdi);
  }

  /** A page named past the end of a mapped file (one that shrank since the
      dump) is judged by the stale buffer: the refresh fails, and the page
      is requested exactly when page `mincore_start`, the first page of
      the chunk read last, is not resident. */
  lemma PastEndJudgedByOldChunk(s: FdState, start: u64)
    requires Fresh(s) && s.mincoreStart < s.numPages < start && start - s.mincoreStart > ChunkPages
    ensures LoadPages(s, true, start, 1).advice
         == if LowBit(ByteAt(s.file, s.mincoreStart)) then [] else [Run(start, 1)]
  {
    ClampPastEnd(s.numPages, start, 1);
    RefreshPastEnd(s, start);
  }

  // ---------------------------------------------------------------------
  // The line decoder of load_from_map

  /** What the loop body of `load_from_map` asks of the per-file
      functions, in order: load a run, end the file (load the pending run
      and finish it, when a descriptor is open), open a file. */
  datatype Cmd = LoadRun(start: u64, count: u64) | EndFile(start: u64, count: u64) | PrepareFile(line: string)

  /** Commands so far and the values of `page` and `count`. */
  datatype Decoded = Decoded(cmds: seq<Cmd>, page: int, count: nat)

  /** One line (without its newline). Between files (`page < 0`) the line
      names a file. Inside a file a line that is not all digits ends the
      file and is then opened as the next file. A delta of at most 1
      extends the pending run `[page - count, page)`; a larger one loads it
      and starts a new run at the delta's page. */
  function Decode(page: int, count: nat, line: string): (d: Decoded)
  {
    var mid :=
      if page < 0 then Decoded([], page, count)
      else match ParseDecimal(line)
        case None => Decoded([EndFile(Wrap(page - count), Wrap(count))], -1, count)
        case Some(skip) =>
          if skip <= 1 then Decoded([], page + skip, count + 1)
          else Decoded([LoadRun(Wrap(page - count), Wrap(count))], page + skip, 1);
    if mid.page < 0 then Decoded(mid.cmds + [PrepareFile(line)], 1, 0) else mid
  }

  /** Before the first line: between files. */
  const Initial := Decoded([], -1, 0)

  /** The commands the lines give, with `page` and `count` after them. */
  function Scan(lines: seq<string>): (d: Decoded)
  {
    if lines == [] then Initial
    else
      var prev := Scan(lines[..|lines| - 1]);
      var x := Decode(prev.page, prev.count, lines[|lines| - 1]);
      Decoded(prev.cmds + x.cmds, x.page, x.count)
  }

  /** The state the commands act on: the record, whether `fd` is open,
      and what has happened so far. */
  datatype Effects = Effects(fdi: FdState, fdOpen: bool, events: seq<LoadEvent>)

  /** Before the first line: the zeroed record and no descriptor. */
  const Fresh0 := Effects(Zeroed, false, [])

  function AdviceEvents(advice: seq<Run>): (r: seq<LoadEvent>)
    ensures |r| == |advice| && forall k :: 0 <= k < |r| ==> r[k] == Advise(Wrap(advice[k].start), advice[k].len)
  {
    seq(|advice|, k requires 0 <= k < |advice| => Advise(Wrap(advice[k].start), advice[k].len))
  }

  /** The effects of one `load_pages` call. */
  function LoadEvents(start: u64, count: u64, w: Walked): seq<LoadEvent> {
    [Flush(start, count)] + AdviceEvents(w.advice)
    + (if w.overrun.Some? then [Overrun(w.overrun.value)] else [])
  }

  function Loaded(e: Effects, start: u64, count: u64): Effects {
    var w := LoadPages(e.fdi, e.fdOpen, start, count);
    Effects(w.fdi, e.fdOpen, e.events + LoadEvents(start, count, w))
  }

  function Apply(e: Effects, c: Cmd, files: map<string, FileInfo>, ps: nat): Effects
    requires ps > 0
  {
    match c
    case LoadRun(start, count) => Loaded(e, start, count)
    case EndFile(start, count) =>
      if !e.fdOpen then e
      else
        var l := Loaded(e, start, count);
        var r := Finished(l.fdi);
        Effects(r.fdi, l.fdOpen, l.events + r.events)
    case PrepareFile(line) =>
      var p := Prepare(e.fdi, line, files, ps);
      Effects(p.fdi, p.fdOpen, e.events + p.events)
  }

  function Exec(e: Effects, cmds: seq<Cmd>, files: map<string, FileInfo>, ps: nat): Effects
    requires ps > 0
  {
    if cmds == [] then e
    else Apply(Exec(e, cmds[..|cmds| - 1], files, ps), cmds[|cmds| - 1], files, ps)
  }

  lemma {:induction false} ExecAppend(e: Effects, a: seq<Cmd>, b: seq<Cmd>, files: map<string, FileInfo>, ps: nat)
    requires ps > 0
    ensures Exec(e, a + b, files, ps) == Exec(Exec(e, a, files, ps), b, files, ps)
    decreases |b|
  {
    if b == [] {
      assert a + b == a;
    } else {
      var n := |b| - 1;
      assert (a + b)[..|a + b| - 1] == a + b[..n];
      ExecAppend(e, a, b[..n], files, ps);
    }
  }

  /** Every record the loader works on has the buffer `prepare_file`
      allocates, so the refresh of `load_pages` never writes past it
      (`RefreshFits`). */
  lemma {:induction false} ExecSized(cmds: seq<Cmd>, files: map<string, FileInfo>, ps: nat)
    requires ps > 0
    ensures BufferSized(Exec(Fresh0, cmds, files, ps).fdi)
    decreases |cmds|
  {
    if cmds != [] {
      ExecSized(cmds[..|cmds| - 1], files, ps);
      ApplySized(Exec(Fresh0, cmds[..|cmds| - 1], files, ps), cmds[|cmds| - 1], files, ps);
    }
  }

  lemma ApplySized(e: Effects, c: Cmd, files: map<string, FileInfo>, ps: nat)
    requires ps > 0 && BufferSized(e.fdi)
    ensures BufferSized(Apply(e, c, files, ps).fdi)
  {
    match c
    case LoadRun(start, count) =>
      if e.fdOpen {
        WalkSized(e.fdi, start, Clamp(e.fdi.numPages, start, count));
      }
    case EndFile(start, count) =>
      if e.fdOpen {
        WalkSized(e.fdi, start, Clamp(e.fdi.numPages, start, count));
      }
    case PrepareFile(line) =>
  }

  /** The commands `load_from_map(map)` issues and the value it returns. */
  datatype Plan = Plan(cmds: seq<Cmd>, status: int)

  /** `load_from_map(map)` on the map's lines: `budget` is `pages_left`,
      how many lines may be read; `readFails` says whether reading past
      the last line reports an error rather than the end of the map. With
      the budget spent the loop ends without loading the pending run; at
      the end of the map the pending run is loaded. */
  function LoadPlan(input: seq<string>, readFails: bool, budget: nat): Plan {
    if budget <= |input| then Plan(Scan(input[..budget]).cmds, 0)
    else
      var d := Scan(input);
      if readFails then Plan(d.cmds, 1)
      else Plan(d.cmds + [LoadRun(Wrap(d.page - d.count), Wrap(d.count))], 0)
  }

  /** The loop's variables after some lines: the effects so far and
      `page`, `count`. */
  datatype Machine = Machine(eff: Effects, page: int, count: nat)

  /** Before the first line. */
  const Start := Machine(Fresh0, -1, 0)

  /** One pass of the loop body of `load_from_map` on a line (without its
      newline), issuing the commands as it goes. */
  function Step(m: Machine, line: string, files: map<string, FileInfo>, ps: nat): Machine
    requires ps > 0
  {
    var mid :=
      if m.page < 0 then m
      else match ParseDecimal(line)
        case None => Machine(Apply(m.eff, EndFile(Wrap(m.page - m.count), Wrap(m.count)), files, ps), -1, m.count)
        case Some(skip) =>
          if skip <= 1 then Machine(m.eff, m.page + skip, m.count + 1)
          else Machine(Apply(m.eff, LoadRun(Wrap(m.page - m.count), Wrap(m.count)), files, ps), m.page + skip, 1);
    if mid.page < 0 then Machine(Apply(mid.eff, PrepareFile(line), files, ps), 1, 0) else mid
  }

  /** The loop over some lines. */
  function Loop(lines: seq<string>, files: map<string, FileInfo>, ps: nat): Machine
    requires ps > 0
  {
    if lines == [] then Start
    else Step(Loop(lines[..|lines| - 1], files, ps), lines[|lines| - 1], files, ps)
  }

  datatype Outcome = Outcome(events: seq<LoadEvent>, status: int)

  /** What `load_from_map(map)` does and returns: at most `budget` lines
      are read; past the last line a failing read returns 1 and the end
      of the map loads the pending run and returns 0. */
  function LoadOutcome(input: seq<string>, readFails: bool, budget: nat,
                       files: map<string, FileInfo>, ps: nat): Outcome
    requires ps > 0
  {
    if budget <= |input| then Outcome(Loop(input[..budget], files, ps).eff.events, 0)
    else
      var m := Loop(input, files, ps);
      if readFails then Outcome(m.eff.events, 1)
      else Outcome(Apply(m.eff, LoadRun(Wrap(m.page - m.count), Wrap(m.count)), files, ps).events, 0)
  }

  /** One line's step issues exactly the commands the decoder gives it. */
  lemma StepDecodes(m: Machine, line: string, files: map<string, FileInfo>, ps: nat)
    requires ps > 0
    ensures var d := Decode(m.page, m.count, line);
      Step(m, line, files, ps) == Machine(Exec(m.eff, d.cmds, files, ps), d.page, d.count)
  {
    if m.page < 0 {
      StepName(m, line, files, ps);
    } else if ParseDecimal(line).None? {
      StepEnd(m, line, files, ps);
    } else if ParseDecimal(line).value <= 1 {
      StepExtend(m, line, ParseDecimal(line).value, files, ps);
    } else {
      StepBreak(m, line, ParseDecimal(line).value, files, ps);
    }
  }

  lemma StepName(m: Machine, line: string, files: map<string, FileInfo>, ps: nat)
    requires ps > 0 && m.page < 0
    ensures var d := Decode(m.page, m.count, line);
      Step(m, line, files, ps) == Machine(Exec(m.eff, d.cmds, files, ps), d.page, d.count)
  {
    assert Decode(m.page, m.count, line).cmds == [PrepareFile(line)];
    ExecOne(m.eff, PrepareFile(line), files, ps);
  }

  lemma StepEnd(m: Machine, line: string, files: map<string, FileInfo>, ps: nat)
    requires ps > 0 && m.page >= 0 && ParseDecimal(line).None?
    ensures var d := Decode(m.page, m.count, line);
      Step(m, line, files, ps) == Machine(Exec(m.eff, d.cmds, files, ps), d.page, d.count)
  {
    var c := EndFile(Wrap(m.page - m.count), Wrap(m.count));
    assert Decode(m.page, m.count, line) == Decoded([c, PrepareFile(line)], 1, 0);
    ExecTwo(m.eff, c, PrepareFile(line), files, ps);
    EndThenPrepare(m, line, files, ps);
  }

  /** A name line after a block finishes the file, then prepares the next. */
  lemma EndThenPrepare(m: Machine, line: string, files: map<string, FileInfo>, ps: nat)
    requires ps > 0 && m.page >= 0 && ParseDecimal(line).None?
    ensures var c := EndFile(Wrap(m.page - m.count), Wrap(m.count));
      Step(m, line, files, ps) == Machine(Apply(Apply(m.eff, c, files, ps), PrepareFile(line), files, ps), 1, 0)
  {
  }

  lemma StepExtend(m: Machine, line: string, skip: nat, files: map<string, FileInfo>, ps: nat)
    requires ps > 0 && m.page >= 0 && ParseDecimal(line) == Some(skip) && skip <= 1
    ensures var d := Decode(m.page, m.count, line);
      Step(m, line, files, ps) == Machine(Exec(m.eff, d.cmds, files, ps), d.page, d.count)
  {
    assert Decode(m.page, m.count, line) == Decoded([], m.page + skip, m.count + 1);
  }

  lemma StepBreak(m: Machine, line: string, skip: nat, files: map<string, FileInfo>, ps: nat)
    requires ps > 0 && m.page >= 0 && ParseDecimal(line) == Some(skip) && skip > 1
    ensures var d := Decode(m.page, m.count, line);
      Step(m, line, files, ps) == Machine(Exec(m.eff, d.cmds, files, ps), d.page, d.count)
  {
    var c := LoadRun(Wrap(m.page - m.count), Wrap(m.count));
    assert Decode(m.page, m.count, line) == Decoded([c], m.page + skip, 1);
    ExecOne(m.eff, c, files, ps);
  }

  lemma ExecOne(e: Effects, c: Cmd, files: map<string, FileInfo>, ps: nat)
    requires ps > 0
    ensures Exec(e, [c], files, ps) == Apply(e, c, files, ps)
  {
    assert [c][..0] == [];
  }

  lemma ExecTwo(e: Effects, c: Cmd, c2: Cmd, files: map<string, FileInfo>, ps: nat)
    requires ps > 0
    ensures Exec(e, [c, c2], files, ps) == Apply(Apply(e, c, files, ps), c2, files, ps)
  {
    assert [c, c2][..1] == [c];
    ExecOne(e, c, files, ps);
  }

  /** The loop issues the commands the decoder gives its lines. */
  lemma {:induction false} RunScans(lines: seq<string>, files: map<string, FileInfo>, ps: nat)
    requires ps > 0
    ensures Loop(lines, files, ps)
         == Machine(Exec(Fresh0, Scan(lines).cmds, files, ps), Scan(lines).page, Scan(lines).count)
    decreases |lines|
  {
    if lines != [] {
      var n := |lines| - 1;
      var prev := lines[..n];
      RunScans(prev, files, ps);
      StepDecodes(Loop(prev, files, ps), lines[n], files, ps);
      assert lines == prev + [lines[n]];
      ScanSnoc(prev, lines[n]);
      var d := Scan(prev);
      ExecAppend(Fresh0, d.cmds, Decode(d.page, d.count, lines[n]).cmds, files, ps);
    }
  }

  /** `load_from_map` carries out its plan. */
  lemma OutcomeOfPlan(input: seq<string>, readFails: bool, budget: nat,
                      files: map<string, FileInfo>, ps: nat)
    requires ps > 0
    ensures var p := LoadPlan(input, readFails, budget);
      LoadOutcome(input, readFails, budget, files, ps) == Outcome(Exec(Fresh0, p.cmds, files, ps).events, p.status)
  {
    if budget <= |input| {
      RunScans(input[..budget], files, ps);
    } else if readFails {
      RunScans(input, files, ps);
    } else {
      OutcomeAtEof(input, budget, files, ps);
    }
  }

  /** At the end of the map the last run is loaded after the lines' commands. */
  lemma OutcomeAtEof(input: seq<string>, budget: nat, files: map<string, FileInfo>, ps: nat)
    requires ps > 0 && budget > |input|
    ensures var p := LoadPlan(input, false, budget);
      LoadOutcome(input, false, budget, files, ps) == Outcome(Exec(Fresh0, p.cmds, files, ps).events, p.status)
  {
    RunScans(input, files, ps);
    EofEvents(Loop(input, files, ps), Scan(input), files, ps);
  }

  lemma EofEvents(m: Machine, d: Decoded, files: map<string, FileInfo>, ps: nat)
    requires ps > 0 && m == Machine(Exec(Fresh0, d.cmds, files, ps), d.page, d.count)
    ensures Apply(m.eff, LoadRun(Wrap(m.page - m.count), Wrap(m.count)), files, ps)
         == Exec(Fresh0, d.cmds + [LoadRun(Wrap(d.page - d.count), Wrap(d.count))], files, ps)
  {
    ExecSnoc(Fresh0, d.cmds, LoadRun(Wrap(d.page - d.count), Wrap(d.count)), files, ps);
  }

  lemma ExecSnoc(e: Effects, a: seq<Cmd>, c: Cmd, files: map<string, FileInfo>, ps: nat)
    requires ps > 0
    ensures Exec(e, a + [c], files, ps) == Apply(Exec(e, a, files, ps), c, files, ps)
  {
    assert (a + [c])[..|a|] == a;
  }

  // ---------------------------------------------------------------------
  // What the decoder loads

  /** The runs handed to `load_pages`, empty ones dropped. */
  function Calls(events: seq<LoadEvent>): (r: seq<Run>)
    ensures |r| <= |events|
  {
    if events == [] then []
    else
      var rest := Calls(events[1..]);
      match events[0]
      case Flush(start, count) => if count > 0 then [Run(start, count)] + rest else rest
      case _ => rest
  }

  lemma {:induction false} CallsAppend(a: seq<LoadEvent>, b: seq<LoadEvent>)
    ensures Calls(a + b) == Calls(a) + Calls(b)
    decreases |a|
  {
    if a == [] {
      assert a + b == b;
    } else {
      assert (a + b)[1..] == a[1..] + b;
      CallsAppend(a[1..], b);
    }
  }

  /** Events other than `load_pages` calls add no run. */
  lemma {:induction false} CallsNone(es: seq<LoadEvent>)
    requires forall k :: 0 <= k < |es| ==> !es[k].Flush?
    ensures Calls(es) == []
    decreases |es|
  {
    if es != [] {
      CallsNone(es[1..]);
    }
  }

  /** The runs the `LoadRun` commands name, empty ones dropped. */
  function CmdRuns(cmds: seq<Cmd>): seq<Run> {
    if cmds == [] then []
    else
      var c := cmds[|cmds| - 1];
      CmdRuns(cmds[..|cmds| - 1]) + if c.LoadRun? && c.count > 0 then [Run(c.start, c.count)] else []
  }

  lemma {:induction false} CmdRunsAppend(a: seq<Cmd>, b: seq<Cmd>)
    ensures CmdRuns(a + b) == CmdRuns(a) + CmdRuns(b)
    decreases |b|
  {
    if b == [] {
      assert a + b == a;
    } else {
      var n := |b| - 1;
      assert (a + b)[..|a + b| - 1] == a + b[..n];
      CmdRunsAppend(a, b[..n]);
    }
  }

  /** A command that ends no file hands `load_pages` its own run. */
  lemma ApplyCalls(e: Effects, c: Cmd, files: map<string, FileInfo>, ps: nat)
    requires ps > 0 && !c.EndFile?
    ensures Calls(Apply(e, c, files, ps).events) == Calls(e.events) + CmdRuns([c])
  {
    assert [c][..0] == [];
    match c
    case LoadRun(start, count) =>
      LoadedCalls(e, start, count);
    case PrepareFile(line) =>
      var p := Prepare(e.fdi, line, files, ps);
      CallsNone(p.events);
      CallsAppend(e.events, p.events);
  }

  /** A `load_pages` call adds its own run and nothing else to the calls. */
  lemma LoadedCalls(e: Effects, start: u64, count: u64)
    ensures Calls(Loaded(e, start, count).events)
         == Calls(e.events) + if count > 0 then [Run(start, count)] else []
  {
    var w := LoadPages(e.fdi, e.fdOpen, start, count);
    var tail := AdviceEvents(w.advice) + (if w.overrun.Some? then [Overrun(w.overrun.value)] else []);
    CallsNone(tail);
    assert LoadEvents(start, count, w) == [Flush(start, count)] + tail;
    CallsAppend([Flush(start, count)], tail);
    CallsAppend(e.events, LoadEvents(start, count, w));
    assert Calls([Flush(start, count)]) == (if count > 0 then [Run(start, count)] else []) by {
      assert [Flush(start, count)][1..] == [];
    }
  }

  /** Commands that end no file hand `load_pages` their runs, in order. */
  lemma {:induction false} ExecCalls(e: Effects, cmds: seq<Cmd>, files: map<string, FileInfo>, ps: nat)
    requires ps > 0 && forall k :: 0 <= k < |cmds| ==> !cmds[k].EndFile?
    ensures Calls(Exec(e, cmds, files, ps).events) == Calls(e.events) + CmdRuns(cmds)
    decreases |cmds|
  {
    if cmds != [] {
      var n := |cmds| - 1;
      ExecCalls(e, cmds[..n], files, ps);
      ApplyCalls(Exec(e, cmds[..n], files, ps), cmds[n], files, ps);
      assert [cmds[n]][..0] == [];
    }
  }

  /** The lines the dumpers write for one file with resident pages `idx`:
      the path, then the first page, then the gap to each next page. */
  function BlockText(path: string, idx: seq<nat>): (t: seq<string>)
    requires Sorted(idx)
    ensures |t| == if idx == [] then 0 else |idx| + 1
  {
    if idx == [] then []
    else if |idx| == 1 then [path, Decimal(idx[0])]
    else
      var n := |idx| - 1;
      assert Sorted(idx[..n]) by {
        forall i | 0 < i < n ensures idx[..n][i - 1] <= idx[..n][i] {
          assert idx[..n][i - 1] == idx[i - 1] && idx[..n][i] == idx[i];
        }
      }
      BlockText(path, idx[..n]) + [Decimal(idx[n] - idx[n - 1])]
  }

  /** `BlockText` is the rendering of the encoders' `Block`. */
  lemma {:induction false} TextRenders(path: string, idx: seq<nat>)
    requires Sorted(idx)
    ensures BlockText(path, idx) == RenderAll(Block(path, idx))
    decreases |idx|
  {
    if |idx| == 1 {
      assert idx == [idx[0]];
      TextOne(path, idx[0]);
    } else if |idx| > 1 {
      var n := |idx| - 1;
      var prev := idx[..n];
      assert idx == prev + [idx[n]];
      SortedPrefix(idx);
      TextRenders(path, prev);
      TextStep(path, prev, idx[n]);
    }
  }

  lemma TextOne(path: string, x: nat)
    ensures Sorted([x]) && BlockText(path, [x]) == RenderAll(Block(path, [x]))
  {
    var h := [Header(path)];
    assert Gaps([x]) == [x] by {
      assert [x][..0] == [];
    }
    assert DeltaLines([x]) == [Delta(x)] by {
      assert [x][..0] == [];
    }
    assert Block(path, [x]) == h + [Delta(x)];
    assert RenderAll(h) == [path] by {
      assert h[..0] == [];
    }
    RenderSnoc(h, Delta(x));
  }

  lemma SortedPrefix(idx: seq<nat>)
    requires Sorted(idx) && |idx| > 1
    ensures Sorted(idx[..|idx| - 1]) && Last(idx[..|idx| - 1]) == idx[|idx| - 2] <= idx[|idx| - 1]
  {
    var p := idx[..|idx| - 1];
    forall i | 0 < i < |p| ensures p[i - 1] <= p[i] {
      assert p[i - 1] == idx[i - 1] && p[i] == idx[i];
    }
  }

  lemma TextStep(path: string, prev: seq<nat>, y: nat)
    requires Sorted(prev) && prev != [] && Last(prev) <= y
    requires BlockText(path, prev) == RenderAll(Block(path, prev))
    ensures Sorted(prev + [y])
    ensures BlockText(path, prev + [y]) == RenderAll(Block(path, prev + [y]))
  {
    SortedSnoc(prev, y);
    TextSnoc(path, prev, y);
    RenderedSnoc(path, prev, y);
  }

  lemma TextSnoc(path: string, prev: seq<nat>, y: nat)
    requires Sorted(prev) && prev != [] && Last(prev) <= y && Sorted(prev + [y])
    ensures BlockText(path, prev + [y]) == BlockText(path, prev) + [Decimal(y - Last(prev))]
  {
    assert (prev + [y])[..|prev|] == prev;
  }

  lemma RenderedSnoc(path: string, prev: seq<nat>, y: nat)
    requires Sorted(prev) && prev != [] && Last(prev) <= y && Sorted(prev + [y])
    ensures RenderAll(Block(path, prev + [y])) == RenderAll(Block(path, prev)) + [Decimal(y - Last(prev))]
  {
    var d := y - Last(prev);
    var b := Block(path, prev);
    BlockGrows(path, prev, y);
    RenderOneMore(b, Block(path, prev + [y]), d);
  }

  lemma RenderOneMore(b: seq<Line>, b2: seq<Line>, d: nat)
    requires b2 == b + [Delta(d)]
    ensures RenderAll(b2) == RenderAll(b) + [Decimal(d)]
  {
    RenderSnoc(b, Delta(d));
  }

  /** Inside a file after the encoder's lines: `page - 1` is the last page
      decoded, `[page - count, page)` is the pending run, the commands are
      the opening of the file and loads, and the runs loaded so far
      followed by the pending one are the maximal runs of the pages
      decoded. */
  predicate Pending(d: Decoded, path: string, idx: seq<nat>)
    requires idx != []
  {
    && d.page == Last(idx) + 1 && 1 <= d.count <= d.page
    && |d.cmds| >= 1 && d.cmds[0] == PrepareFile(path)
    && (forall k :: 1 <= k < |d.cmds| ==> d.cmds[k].LoadRun?)
    && CmdRuns(d.cmds) + [Run(d.page - d.count, d.count)] == Runs(idx)
  }

  lemma {:induction false} DecodeBlock(path: string, idx: seq<nat>)
    requires ParseDecimal(path) == None
    requires idx != [] && StrictlyIncreasing(idx) && Last(idx) + 1 < MaxPages
    ensures Sorted(idx) && Pending(Scan(BlockText(path, idx)), path, idx)
    decreases |idx|
  {
    var n := |idx| - 1;
    SplitLast(idx);
    if n == 0 {
      DecodeFirst(path, idx[0]);
    } else {
      DecodeBlock(path, idx[..n]);
      ScanNext(BlockText(path, idx[..n]), path, idx[..n], idx[n]);
    }
  }

  lemma SplitLast(idx: seq<nat>)
    requires idx != [] && StrictlyIncreasing(idx)
    ensures Sorted(idx)
    ensures |idx| == 1 ==> idx == [idx[0]]
    ensures |idx| > 1 ==>
              && StrictlyIncreasing(idx[..|idx| - 1]) && idx[..|idx| - 1] != []
              && Last(idx[..|idx| - 1]) == idx[|idx| - 2] < idx[|idx| - 1]
              && idx == idx[..|idx| - 1] + [idx[|idx| - 1]]
  {
  }

  lemma ScanSnoc(lines: seq<string>, l: string)
    ensures Scan(lines + [l]).cmds == Scan(lines).cmds + Decode(Scan(lines).page, Scan(lines).count, l).cmds
    ensures Scan(lines + [l]).page == Decode(Scan(lines).page, Scan(lines).count, l).page
    ensures Scan(lines + [l]).count == Decode(Scan(lines).page, Scan(lines).count, l).count
  {
    assert (lines + [l])[..|lines|] == lines;
  }

  lemma DecodeFirst(path: string, x: nat)
    requires ParseDecimal(path) == None && x + 1 < U64
    ensures Pending(Scan(BlockText(path, [x])), path, [x])
  {
    assert BlockText(path, [x]) == [path] + [Decimal(x)];
    FirstScan(path, x);
  }

  lemma NameScan(path: string)
    requires ParseDecimal(path) == None
    ensures Scan([path]) == Decoded([PrepareFile(path)], 1, 0)
  {
    assert [path] == [] + [path];
    ScanSnoc([], path);
  }

  lemma FirstScan(path: string, x: nat)
    requires ParseDecimal(path) == None && x + 1 < U64
    ensures Pending(Scan([path] + [Decimal(x)]), path, [x])
  {
    NameScan(path);
    ScanSnoc([path], Decimal(x));
    DecodeDelta(1, 0, x);
    var s := Scan([path] + [Decimal(x)]);
    if x <= 1 {
      assert [PrepareFile(path)] + [] == [PrepareFile(path)];
      assert s == Decoded([PrepareFile(path)], x + 1, 1);
      PendingFirst(path, x, [PrepareFile(path)]);
    } else {
      assert Wrap(1) == 1 && Wrap(0) == 0;
      assert s == Decoded([PrepareFile(path), LoadRun(1, 0)], x + 1, 1);
      PendingFirst(path, x, [PrepareFile(path), LoadRun(1, 0)]);
    }
  }

  /** After the first delta line the pending run is that one page, and the
      empty run the decoder may load before it adds nothing. */
  lemma PendingFirst(path: string, x: nat, cmds: seq<Cmd>)
    requires cmds == [PrepareFile(path)] || cmds == [PrepareFile(path), LoadRun(1, 0)]
    ensures Pending(Decoded(cmds, x + 1, 1), path, [x])
  {
    assert [x][..0] == [];
    assert Runs([x]) == [Run(x, 1)];
    assert CmdRuns([PrepareFile(path)]) == [] by {
      assert [PrepareFile(path)][..0] == [];
    }
    if |cmds| == 2 {
      assert cmds[..1] == [PrepareFile(path)];
    }
  }

  /** Inside a file, a delta line either extends the pending run or loads
      it and starts a new one. */
  lemma DecodeDelta(page: int, count: nat, d: nat)
    requires page >= 0
    ensures Decode(page, count, Decimal(d))
         == if d <= 1 then Decoded([], page + d, count + 1)
            else Decoded([LoadRun(Wrap(page - count), Wrap(count))], page + d, 1)
  {
    ParseDecimalOfDecimal(d);
  }

  /** The scan of one more delta line keeps the pending-run invariant. */
  lemma ScanNext(text: seq<string>, path: string, prev: seq<nat>, y: nat)
    requires prev != [] && Sorted(prev) && Last(prev) < y && y + 1 < U64
    requires Pending(Scan(text), path, prev)
    ensures Sorted(prev + [y])
    ensures Pending(Scan(text + [Decimal(y - Last(prev))]), path, prev + [y])
  {
    ScanSnoc(text, Decimal(y - Last(prev)));
    PendingSnoc(Scan(text), path, prev, y);
  }

  /** A delta line keeps the pending-run invariant. */
  lemma PendingSnoc(d: Decoded, path: string, prev: seq<nat>, y: nat)
    requires prev != [] && Sorted(prev) && Last(prev) < y && y + 1 < U64
    requires Pending(d, path, prev)
    ensures Sorted(prev + [y])
    ensures var x := Decode(d.page, d.count, Decimal(y - Last(prev)));
      Pending(Decoded(d.cmds + x.cmds, x.page, x.count), path, prev + [y])
  {
    DecodeDelta(d.page, d.count, y - Last(prev));
    if y - Last(prev) > 1 {
      PendingBreak(d, path, prev, y);
    } else {
      PendingExtend(d, path, prev, y);
    }
  }

  /** The next page extends the pending run. */
  lemma PendingExtend(d: Decoded, path: string, prev: seq<nat>, y: nat)
    requires prev != [] && Sorted(prev) && Last(prev) + 1 == y && y + 1 < U64
    requires Pending(d, path, prev)
    ensures Sorted(prev + [y])
    ensures Pending(Decoded(d.cmds + [], y + 1, d.count + 1), path, prev + [y])
  {
    RunsNext(CmdRuns(d.cmds), d.page - d.count, d.count, prev, y);
    assert d.cmds + [] == d.cmds;
  }

  /** A gap of more than one page loads the pending run and starts a new
      one at the page. */
  lemma PendingBreak(d: Decoded, path: string, prev: seq<nat>, y: nat)
    requires prev != [] && Sorted(prev) && Last(prev) + 1 < y && y + 1 < U64
    requires Pending(d, path, prev)
    ensures Sorted(prev + [y])
    ensures Pending(Decoded(d.cmds + [LoadRun(Wrap(d.page - d.count), Wrap(d.count))], y + 1, 1), path, prev + [y])
  {
    RunsNext(CmdRuns(d.cmds), d.page - d.count, d.count, prev, y);
    var c := LoadRun(Wrap(d.page - d.count), Wrap(d.count));
    var cmds := d.cmds + [c];
    CmdRunsAppend(d.cmds, [c]);
    RunOfLoad(d.page - d.count, d.count);
    assert forall k :: 1 <= k < |cmds| ==> cmds[k].LoadRun? by {
      forall k | 1 <= k < |cmds| ensures cmds[k].LoadRun? {
        if k < |d.cmds| {
          assert cmds[k] == d.cmds[k];
        }
      }
    }
  }

  /** One more page either extends the last run or opens a new one. */
  lemma RunsNext(calls: seq<Run>, start: nat, count: nat, prev: seq<nat>, y: nat)
    requires prev != [] && Sorted(prev) && Last(prev) < y
    requires calls + [Run(start, count)] == Runs(prev)
    ensures Sorted(prev + [y])
    ensures Runs(prev + [y]) == if y - Last(prev) <= 1 then calls + [Run(start, count + 1)]
                                else calls + [Run(start, count)] + [Run(y, 1)]
  {
    SortedSnoc(prev, y);
    LastRunEnds(calls, start, count, prev);
    RunsSnoc(prev, y);
    var rs := Runs(prev);
    var k := |rs| - 1;
    assert rs[k] == Run(start, count);
    assert rs[..k] == calls;
  }

  lemma LastRunEnds(calls: seq<Run>, start: nat, count: nat, prev: seq<nat>)
    requires prev != [] && calls + [Run(start, count)] == Runs(prev)
    ensures start + count == Last(prev) + 1
  {
    var rs := Runs(prev);
    assert rs[|rs| - 1] == Run(start, count);
  }

  lemma RunOfLoad(start: nat, count: nat)
    requires start < U64 && count < U64
    ensures CmdRuns([LoadRun(Wrap(start), Wrap(count))]) == if count > 0 then [Run(start, count)] else []
  {
    assert [LoadRun(Wrap(start), Wrap(count))][..0] == [];
  }

  /** The decoder undoes the encoders: on one file's lines (`BlockText`,
      the rendering of `Block` by `TextRenders`), with the read budget not
      exhausted, the loader returns 0, opens the file first, ends no file,
      and loads exactly the maximal runs of consecutive resident pages. */
  lemma BlockLoads(path: string, idx: seq<nat>)
    requires ParseDecimal(path) == None && '\n' !in path
    requires idx != [] && StrictlyIncreasing(idx) && Last(idx) + 1 < MaxPages
    ensures Sorted(idx)
    ensures var p := LoadPlan(BlockText(path, idx), false, |idx| + 2);
      && p.status == 0 && |p.cmds| > 0 && p.cmds[0] == PrepareFile(path)
      && (forall k :: 0 <= k < |p.cmds| ==> !p.cmds[k].EndFile?)
      && CmdRuns(p.cmds) == Runs(idx)
  {
    DecodeBlock(path, idx);
    FinalRuns(Scan(BlockText(path, idx)), path, idx);
  }

  /** Loading the pending run at the end completes the runs. */
  lemma FinalRuns(d: Decoded, path: string, idx: seq<nat>)
    requires idx != [] && Last(idx) + 1 < MaxPages && Pending(d, path, idx)
    ensures var all := d.cmds + [LoadRun(Wrap(d.page - d.count), Wrap(d.count))];
      && all[0] == PrepareFile(path)
      && (forall k :: 1 <= k < |all| ==> all[k].LoadRun?)
      && (forall k :: 0 <= k < |all| ==> !all[k].EndFile?)
      && CmdRuns(all) == Runs(idx)
  {
    var last := [LoadRun(Wrap(d.page - d.count), Wrap(d.count))];
    var all := d.cmds + last;
    assert forall k :: 1 <= k < |all| ==> all[k].LoadRun? by {
      forall k | 1 <= k < |all| ensures all[k].LoadRun? {
        if k >= |d.cmds| {
          assert all[k] == last[0];
        } else {
          assert all[k] == d.cmds[k];
        }
      }
    }
    CmdRunsAppend(d.cmds, last);
    RunOfLoad(d.page - d.count, d.count);
  }

  /** The same on the loader's effects: the runs handed to `load_pages`
      are the maximal runs of resident pages. */
  lemma BlockAdvice(path: string, idx: seq<nat>, files: map<string, FileInfo>, ps: nat)
    requires ps > 0 && ParseDecimal(path) == None && '\n' !in path
    requires idx != [] && StrictlyIncreasing(idx) && Last(idx) + 1 < MaxPages
    ensures Sorted(idx)
    ensures Calls(LoadOutcome(BlockText(path, idx), false, |idx| + 2, files, ps).events) == Runs(idx)
  {
    BlockLoads(path, idx);
    OutcomeOfPlan(BlockText(path, idx), false, |idx| + 2, files, ps);
    ExecCalls(Fresh0, LoadPlan(BlockText(path, idx), false, |idx| + 2).cmds, files, ps);
  }

  // ---------------------------------------------------------------------
  // The record and the loader loop, step by step

  /** `struct fd_info`, updated in place by the per-file functions. */
  class FdInfo {
    var baseValid: bool
    var numPages: u64
    var refcount: int
    var mincore: seq<byte>
    var mincoreStart: u64
    var file: FileInfo

    function State(): FdState
      reads this
    {
      FdState(baseValid, numPages, refcount, mincore, mincoreStart, file)
    }

    /** `bzero(&fdi, sizeof(fd_info))`. */
    constructor ()
      ensures State() == Zeroed
    {
      baseValid, numPages, refcount, mincore, mincoreStart := true, 0, 0, [], 0;
      file := FileInfo(0, [], false, false, None, None);
    }

    /** `prepare_file(line, this)`; `fdOpen` says whether it returned a
        descriptor. */
    method PrepareFile(line: string, files: map<string, FileInfo>, ps: nat)
      returns (fdOpen: bool, events: seq<LoadEvent>)
      requires ps > 0
      modifies this
      ensures Prepared(State(), fdOpen, events) == Prepare(old(State()), line, files, ps)
    {
      if line !in files || !files[line].openOk {
        return false, [];
      }
      var f := files[line];
      events := [Open(line)];
      fdOpen := true;
      file := f;
      baseValid, refcount, numPages, mincoreStart := false, 1, U64 - 1, 0;
      var n := Wrap(PageCount(f, ps));
      if !f.statOk || !MapSucceeds(f, 0, n) {
        return;
      }
      baseValid, numPages := true, n;
      var chunk := Min(ChunkPages, n);
      if QuerySucceeds(f, 0, chunk) {
        mincore := Query(f, 0, chunk);
      } else {
        mincore := Zeros(chunk);
      }
    }

    /** `finished_file_op(this, fd)`. */
    method FinishedFileOp() returns (events: seq<LoadEvent>)
      modifies this
      ensures Released(State(), events) == Finished(old(State()))
    {
      refcount := refcount - 1;
      events := [];
      if refcount == 0 {
        if baseValid {
          events := [Unmap(numPages)];
        }
        events := events + [Close];
      }
    }

    /** The head of the loop of `load_pages`: the offset of `first` in the
        bitmap, after re-querying the chunk from `first` when it lies more
        than a chunk past `mincore_start`. */
    method Reposition(first: u64) returns (offset: u64)
      modifies this
      ensures var off := Sub64(first, old(mincoreStart));
        State() == (if off > ChunkPages then Refresh(old(State()), first) else old(State()))
        && offset == (if off > ChunkPages then 0 else off)
    {
      offset := Sub64(first, mincoreStart);
      if offset > ChunkPages {
        ghost var s := State();
        var chunk := Min(ChunkPages, Sub64(numPages, first));
        if baseValid && first + chunk <= numPages && QuerySucceeds(file, first, chunk) && chunk <= |mincore| {
          mincore := Query(file, first, chunk) + mincore[chunk..];
        }
        mincoreStart := first;
        offset := 0;
        assert State() == Refresh(s, first);
      }
    }

    /** `load_pages(this, fd, start, count)`. */
    method Load(fdOpen: bool, start: u64, count: u64) returns (events: seq<LoadEvent>)
      modifies this
      ensures State() == LoadPages(old(State()), fdOpen, start, count).fdi
      ensures events == LoadEvents(start, count, LoadPages(old(State()), fdOpen, start, count))
    {
      if !fdOpen {
        events := [Flush(start, count)];
        assert AdviceEvents([]) == [];
        return;
      }
      ghost var s0 := State();
      var first: u64, left: u64 := start, Clamp(numPages, start, count);
      ghost var goal := Walk(s0, first, left);
      var advice: seq<Run> := [];
      var overrun: Option<u64> := None;
      while left > 0
        invariant var w := Walk(State(), first, left);
          goal == Walked(w.fdi, advice + w.advice, w.overrun)
        invariant overrun == None
        decreases left
      {
        ghost var s := State();
        var offset := Reposition(first);
        if offset >= |mincore| {
          assert Walk(s, first, left) == Walked(State(), [], Some(offset));
          overrun := Some(offset);
          break;
        }
        if !LowBit(mincore[offset]) {
          var limit := Min(AdviseLimit, left);
          ghost var r := Walk(State(), Add64(first, limit), left - limit);
          assert Walk(s, first, left) == Walked(r.fdi, [Run(first, limit)] + r.advice, r.overrun);
          assert advice + ([Run(first, limit)] + r.advice) == (advice + [Run(first, limit)]) + r.advice;
          advice := advice + [Run(first, limit)];
          first, left := Add64(first, limit), left - limit;
        } else {
          assert Walk(s, first, left) == Walk(State(), Add64(first, 1), left - 1);
          first, left := Add64(first, 1), left - 1;
        }
      }
      assert goal == Walked(State(), advice, overrun) by {
        if overrun == None {
          assert advice + [] == advice;
        }
      }
      events := LoadEvents(start, count, Walked(State(), advice, overrun));
    }
  }

  /** `load_from_map(map)` over the map's lines, as `LoadOutcome` gives it. */
  method LoadFromMap(input: seq<string>, readFails: bool, budget: nat,
                     files: map<string, FileInfo>, ps: nat)
    returns (status: int, events: seq<LoadEvent>)
    requires ps > 0
    ensures Outcome(events, status) == LoadOutcome(input, readFails, budget, files, ps)
  {
    var fdi := new FdInfo();
    var fdOpen := false;
    var page: int := -1;
    var count: nat := 0;
    events := [];
    var pagesLeft: nat := budget;
    var i := 0;
    while pagesLeft > 0
      invariant i + pagesLeft == budget && i <= |input|
      invariant Machine(Effects(fdi.State(), fdOpen, events), page, count) == Loop(input[..i], files, ps)
      decreases pagesLeft
    {
      pagesLeft := pagesLeft - 1;
      if i == |input| {
        assert input[..i] == input;
        if readFails {
          return 1, events;
        }
        var ev := fdi.Load(fdOpen, Wrap(page - count), Wrap(count));
        events := events + ev;
        return 0, events;
      }
      var line := input[i];
      fdOpen, page, count, events := Feed(fdi, fdOpen, page, count, events, line, files, ps);
      assert input[..i + 1][..i] == input[..i];
      i := i + 1;
    }
    return 0, events;
  }

  /** The body of the loop of `load_from_map` for one line. */
  method Feed(fdi: FdInfo, fdOpen0: bool, page0: int, count0: nat, events0: seq<LoadEvent>,
              line: string, files: map<string, FileInfo>, ps: nat)
    returns (fdOpen: bool, page: int, count: nat, events: seq<LoadEvent>)
    requires ps > 0
    modifies fdi
    ensures Machine(Effects(fdi.State(), fdOpen, events), page, count)
         == Step(Machine(Effects(old(fdi.State()), fdOpen0, events0), page0, count0), line, files, ps)
  {
    fdOpen, page, count, events := fdOpen0, page0, count0, events0;
    if page >= 0 {
      match ParseDecimal(line)
      case None =>
        if fdOpen {
          var ev := fdi.Load(fdOpen, Wrap(page - count), Wrap(count));
          events := events + ev;
          ev := fdi.FinishedFileOp();
          events := events + ev;
        }
        page := -1;
      case Some(skip) =>
        if skip <= 1 {
          page, count := page + skip, count + 1;
        } else {
          var ev := fdi.Load(fdOpen, Wrap(page - count), Wrap(count));
          events := events + ev;
          page, count := page + skip, 1;
        }
    }
    if page < 0 {
      var fd, ev := fdi.PrepareFile(line, files, ps);
      fdOpen := fd;
      events := events + ev;
      page, count := 1, 0;
    }
  }
}
