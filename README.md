# happycache, modelled in Dafny

happycache saves which pages of a tree of files sit in the page cache and
later reads those same pages back in. It has three parts:

- **The Rust dumper** (`src/main.rs`) walks the tree from `.`. For every
  non-empty regular file it asks `mincore` which pages are resident, one
  chunk of `1<<20` pages at a time. It writes the file's path, then one
  line per resident page. Each line holds the gap from the previous
  resident page; the first gap is measured from page 0.
- **The C dumper** (`dumping.c`) writes the same format with its own
  `readdir` walk. Its bitmap test differs from the Rust one: a page counts
  only when the low bit of its `mincore` byte is set. It also starts a
  fresh block, with a fresh header, in every chunk.
- **The C loader** (`happycache.c`) reads such a dump line by line. It
  opens each file named and groups consecutive pages into runs. It hands
  each run to `load_pages`, which asks for read-ahead (`posix_fadvise`
  with `WILLNEED`) of the pages in the run that are not resident yet, in
  requests of at most 8 pages.

The model treats the operating system as plain values (module `FileSystem`):

- A `FileInfo` holds a file's size and the byte `mincore` reports for each
  page.
- It also says whether `open` and `fstat` succeed, and gives the page, if
  any, whose mapping or residency query fails.
- A `Node` tree is the directory tree as the Rust walker sees it. The C
  walker's `Entry` carries `d_type` and what `openat` and `fdopendir`
  return.
- Output is a sequence of `Line` values: `Header(path)` or `Delta(gap)`.
  The loader reads them back as text through `Format.RenderAll`.

Modules:

- `Format` holds the dump format: page counts, the gap encoding and its
  inverse, blocks, runs of consecutive pages, and decimal text.
- `RustDump` covers `page_size`, `mincore` and `dump_file` (a method with
  its chunk loop), `spider` and `main`.
- `CDump` covers `dump_file` of `dumping.c`: a method over an `array`
  bitmap buffer, with its chunk loop and inner loop.
- `CDir` covers the entry filter, the path join and the `readdir` loop of
  `dump_dir`.
- `Loader` covers the following:
  - the `fd_info` record as a class `FdInfo`, whose methods are
    `prepare_file`, `finished_file_op` and `load_pages`;
  - the line loop of `load_from_map`, as the methods `LoadFromMap` and
    `Feed`;
  - the functions those methods are proved against: `Prepare`, `Finished`,
    `LoadPages`/`Walk`, `Step`/`Loop` and `LoadOutcome`, with the decoder
    `Decode`/`Scan`;
  - a reference description of what the loop asks for, `LoadPlan`.
- `DumpReload` covers the loader on a whole dump, several files' lines one
  after another. A file's path line ends the file before it and opens the
  next one.

Each method's `ensures` ties it to a function of its inputs. Lemmas then
state what the source promises about those functions:

- the dump round-trips: loading a dump opens each of its files in turn and
  hands `load_pages`, for each file, exactly the maximal runs of that
  file's dumped pages;
- the read-ahead requests stay inside their run and cover every page that
  is not resident;
- chunking does not change what the Rust dumper writes;
- the `readdir` loop, together with the contexts it pushes, makes a
  depth-first walk.

## Model

| member | source | states |
|---|---|---|
| Format.CeilDivBounds | dumping.c:29 | the page count `(size + page_size - 1) / page_size` is the least number of pages whose bytes cover the size |
| Format.PageBelowCount | src/main.rs:93-96 | the stop test `start >= len` on byte offsets holds exactly when the page is at or past the page count |
| Format.ChunkPageCount | src/main.rs:98-105 | a chunk of `min(pages * page_size, len - start)` bytes has `min(1<<20, pages left)` bitmap entries |
| Format.LowBitAnd | dumping.c:63 | the test `byte & 0x01` holds exactly when the byte is odd, the residency test of the C dumper and loader |
| Format.IndicesMembers | src/main.rs:105-109 | a page is reported exactly when it lies in the range and its bitmap entry is set |
| Format.IndicesAppend | src/main.rs:105-106 | the pages reported for two adjacent ranges are those of the first followed by those of the second, offset by the first's length |
| Format.SumsOfGaps | src/main.rs:113-114 | summing the written gaps gives back the sorted pages |
| Format.GapsOfSums | src/main.rs:113-114 | taking gaps of the running sums gives back the gaps |
| Format.GapsOfStrict | src/main.rs:113-114 | the first gap is the first page, and the pages strictly increase exactly when every later gap is at least 1 |
| Format.BlockShape | src/main.rs:116-123 | a block is empty exactly when no page is resident; otherwise it is the header followed by one delta per resident page |
| Format.BlockSnoc | src/main.rs:113-123 | one more resident page appends its gap, preceded by the header when it is the first |
| Format.RunsCover | happycache.c:226-233 | the runs the loader gathers expand back to exactly the pages, in order |
| Format.RunsSeparated | happycache.c:226-233 | for strictly increasing pages the runs are non-empty and consecutive runs leave at least one page between them |
| Format.ParseDecimalOfDecimal | happycache.c:216-218 | `strtoul` on the decimal a dumper prints reads back the same number and consumes the whole line |
| RustDump.PageSizeCache.Get | src/main.rs:19-31 | with nothing stored the `sysconf` answer is stored and returned; once stored, the stored value is returned and kept |
| RustDump.PageSizeIsStable | src/main.rs:19-31 | every call after the first returns the first call's value, whatever `sysconf` would answer later |
| RustDump.Mincore | src/main.rs:69-80 | succeeds exactly when the residency query succeeds; the buffer has one byte per page the slice touches, each byte that page's |
| RustDump.EncodeChunk | src/main.rs:105-124 | scanning a chunk's bitmap continues the whole-file scan to the chunk's end |
| RustDump.ScanIsBlock | src/main.rs:105-124 | the scan writes the block of the non-zero pages, sets `wrote_header` exactly when one exists, and leaves `last` at the last of them |
| RustDump.DumpFile | src/main.rs:82-129 | the chunk loop writes the block of the resident pages below the first failed chunk, and fails with the error of `open`, `mmap` or `mincore` |
| RustDump.HeaderIffResident | src/main.rs:113-123 | the header is written exactly when some scanned page is resident; it comes first and is followed by one delta per resident page |
| RustDump.DeltasDecode | src/main.rs:111-114 | summing the written deltas gives the resident pages |
| RustDump.ChunkingInvisible | src/main.rs:91-106 | the pages reported up to `a + b` are those up to `a` followed by those of the next `b` pages, so chunk boundaries do not show in the output |
| RustDump.TwoChunkExample | src/main.rs:89-125 | with pages 0, 1, 2^20 and 2^20+1 resident, a single header and the deltas 0, 1, 2^20-1, 1 are written |
| RustDump.WalkStops | src/main.rs:132-141 | after the first failing entry the later entries add nothing |
| RustDump.Spider | src/main.rs:131-144 | the loop over the entries gives the walk's lines and status, stopping at the first error |
| RustDump.WalkCorrect | src/main.rs:131-144 | the walk fails exactly when a reached entry fails; otherwise it writes the blocks of the non-empty regular files in depth-first order |
| RustDump.VisitCorrect | src/main.rs:136-140 | a directory is walked, a non-empty regular file dumped and anything else skipped, and failure is as above |
| RustDump.Snapshot | src/main.rs:146-156 | the gzip stream is finished exactly when the walk succeeded, having received the walk's lines |
| CDump.ChunkLen | dumping.c:41 | a chunk has at most `CHUNK_SIZE` pages, and at least one while pages remain |
| CDump.LowResidentMembers | dumping.c:60-63 | a page is reported exactly when it lies in the range and the low bit of its bitmap byte is set |
| CDump.ChunkScanIsBlock | dumping.c:60-72 | the inner loop writes the block of the chunk's resident pages, the header once, first delta the absolute page (`last = -processed_pages`) |
| CDump.Mincore | dumping.c:52 | `mincore` fills the first `chunk_pages` entries with the pages' bytes and leaves the rest of the buffer as it was |
| CDump.EncodeChunk | dumping.c:60-72 | the inner loop over the `array` buffer writes what the scan of the chunk writes |
| CDump.DumpFile | dumping.c:17-82 | the chunk loop writes each chunk's block up to the first failing `mmap` or `mincore`, with the exit reason, the leak and the mappings of `FileDump` |
| CDump.MapFailureEffects | dumping.c:40-49 | a failing `mmap` of chunk `j` leaves one block per earlier chunk, together exactly the file's low-bit pages below chunk `j`; each earlier chunk is mapped and straight away unmapped, the calls ask for the pages below the end of chunk `j` once each in order, the failed call is last with no unmapping after it, and the buffer stays allocated |
| CDump.QueryFailureEffects | dumping.c:40-58 | a failing `mincore` on chunk `j` leaves one block per earlier chunk, together exactly the file's low-bit pages below chunk `j`; every mapping, chunk `j`'s included, is unmapped straight after it is made, the last unmapping is chunk `j`'s, and the buffer is freed |
| CDump.CompleteEffects | dumping.c:40-81 | without a failing call the output is one block per chunk, together exactly the file's low-bit pages; the calls map every page of the file once, in order, each mapping unmapped straight after it is made, and the buffer is freed |
| CDump.ChunksPartition | dumping.c:40-78 | the chunks' resident pages together are the file's resident pages below the chunks' end |
| CDump.ChunksTile | dumping.c:44-53 | the chunks mapped tile the file's pages, in order and without overlap |
| CDump.SingleChunkAgrees | dumping.c:17-82 | for a file of at most one chunk whose bytes are 0 or 1, the C dumper writes what the Rust dumper writes |
| CDump.HighBitOnly | dumping.c:63 | a page whose byte is 2 is reported by the Rust dumper but not by the C dumper |
| CDump.TwoChunkRepeatsHeader | dumping.c:60-72 | with pages 0, 1, 2^20 and 2^20+1 resident, the second chunk repeats the header and gives its first page absolutely |
| CDir.Classify | dumping.c:90-114 | an entry is skipped exactly when it is `.`/`..` or its `d_type` has neither the `DT_REG` nor the `DT_DIR` bit, descended into exactly when it opens and has the `DT_DIR` bit, and otherwise dumped or reported |
| CDir.DTypeTable | dumping.c:95-97 | the bit test admits `DT_BLK`, `DT_LNK`, `DT_SOCK` and `DT_WHT` besides regular files and directories, and treats `DT_BLK`, `DT_SOCK` and `DT_WHT` as directories |
| CDir.Truncate | dumping.c:103 | `snprintf` keeps the longest prefix of the string that has at most `size - 1` characters |
| CDir.JoinFits | dumping.c:99-103 | when the recorded length covers the parent's path the join is not truncated, and the child's recorded length covers its path with one more character to spare |
| CDir.RootRoomy | happycache.c:324-326 | the root context `.` with `len` 1 meets that condition |
| CDir.TruncatedWithoutRoom | dumping.c:99-103 | when the recorded length is short, the joined path is cut |
| CDir.DumpDir | dumping.c:84-131 | the `readdir` loop writes the dumped files' lines and pushes the contexts it leaves, or stops on a null directory stream |
| CDir.PushedRoomy | dumping.c:107-121 | every context pushed keeps the length condition, so no later join is cut |
| CDir.RunThenResume | dumping.c:107-121 | one call's lines followed by the pushed contexts resumed newest first equal the depth-first walk of the directory |
| Loader.ClampInFile | happycache.c:140-142 | for a run starting inside the file the count is cut to the pages left |
| Loader.ClampPastEnd | happycache.c:140-142 | a start past `num_pages` leaves the count uncut, because the unsigned difference wraps |
| Loader.WalkInRun | happycache.c:144-173 | the loop ends; its requests are 1 to 8 pages, inside the run, ascending and disjoint |
| Loader.WalkCovers | happycache.c:144-173 | on a fresh record each request starts at a page not resident, every non-resident page of the run is requested unless the buffer is overread, and the record stays fresh |
| Loader.WalkKeeps | happycache.c:144-173 | the loop changes only the bitmap and `mincore_start` |
| Loader.RefreshFresh | happycache.c:146-157 | re-querying the bitmap at a page of the file keeps it in step with the file |
| Loader.RefreshPastEnd | happycache.c:146-157 | at a page past `num_pages` the query over the wrapped range fails, so only `mincore_start` moves and the old bitmap is kept |
| Loader.PastEndJudgedByOldChunk | happycache.c:140-159 | on a fresh record, a run past the end that is more than `CHUNK_SIZE` after `mincore_start` is judged by the bitmap entry of page `mincore_start`: no request when that page is resident, one request for the run's page otherwise |
| Loader.RefreshFits | happycache.c:146-157 | on a record whose buffer holds one chunk, every successful re-query fits the buffer |
| Loader.ExecSized | happycache.c:122-124 | every record the loader's commands leave behind has the one-chunk buffer `prepare_file` allocates |
| Loader.PrepareFresh | happycache.c:89-126 | a file that opens, stats and maps gets a record with one reference, its page count and the bitmap of its first chunk |
| Loader.PrepareFailureStale | happycache.c:97-116 | after a failed `fstat` or `mmap` the record is unmapped with `num_pages` at `2^64-1` and the old bitmap kept, so `load_pages` clamps nothing |
| Loader.PrepareOpenFails | happycache.c:90-95 | a failing `open` changes nothing and returns no descriptor |
| Loader.FinishAfterPrepare | happycache.c:49-56 | releasing the only reference unmaps the file when it was mapped, then closes it |
| Loader.OverrunAtChunkEnd | happycache.c:145-159 | the test `mincore_offset > CHUNK_SIZE` lets page `CHUNK_SIZE` be read one entry past a chunk-sized buffer |
| Loader.OverrunAfterPrepare | happycache.c:122-159 | for a file of `CHUNK_SIZE + 1` pages that overread happens straight after `prepare_file` |
| Loader.StepDecodes | happycache.c:211-242 | one pass of the loop body issues exactly the commands the line decoder gives and leaves `page` and `count` as it says |
| Loader.EndThenPrepare | happycache.c:218-242 | a line that is not a number loads the pending run, finishes the file and opens the line as the next file, with `page` 1 |
| Loader.RunScans | happycache.c:198-243 | the loop over lines equals executing the decoded commands |
| Loader.OutcomeOfPlan | happycache.c:198-245 | `load_from_map` does what its command plan says: with the budget spent it returns 0, a read error returns 1, and at end of file it loads the pending run and returns 0 |
| Loader.ExecCalls | happycache.c:207-233 | the `load_pages` calls made are the non-empty runs of the commands |
| Loader.TextRenders | src/main.rs:113-123 | the text lines of a block are the rendered header and deltas |
| Loader.DecodeBlock | happycache.c:214-234 | reading a dumped block leaves the loader with the file opened, the runs before the last loaded and the last run pending |
| Loader.BlockLoads | happycache.c:176-246 | reading a dumped block with the budget to spare opens the file, returns 0 and issues exactly the maximal runs of the dumped pages |
| Loader.BlockAdvice | happycache.c:176-246 | round trip: the `load_pages` calls made on a dumped block of strictly increasing pages are exactly its runs of consecutive pages |
| DumpReload.ScanAfter | happycache.c:218-242 | inside a file, the lines of another file end the first file and then decode exactly as they would at the start |
| DumpReload.SegmentsAppend | happycache.c:218-242 | the commands from an opening onwards form file groups of their own, after the groups before them |
| DumpReload.DumpScan | happycache.c:211-242 | after a dump's lines the loader has opened the first file first, and loading the pending run gives each file in turn with exactly its runs |
| DumpReload.DumpLoads | happycache.c:176-246 | reading a dump to the end returns 0 and issues, for each file in turn, an opening followed by exactly the maximal runs of its pages |
| DumpReload.ExecFollows | happycache.c:207-242 | when every file opens, `fd` stays open and the loader's opens and `load_pages` calls group by file exactly as its commands do |
| DumpReload.DumpReloads | happycache.c:176-246 | round trip: on a dump of files that all open, `load_from_map` returns 0, opens the first file first, and for each file in turn opens it and hands `load_pages` exactly the maximal runs of its pages |
| DumpReload.RepeatedHeaderReloads | happycache.c:218-242 | the C dumper's two blocks for one file with pages 0, 1, 2^20 and 2^20+1 make the loader open the file twice, once with the run `[0, 2)` and once with `[2^20, 2^20 + 2)` |
| Loader.FdInfo.constructor | happycache.c:189-190 | the record starts zeroed |
| Loader.FdInfo.PrepareFile | happycache.c:89-126 | the record and result are those of `Prepare` |
| Loader.FdInfo.FinishedFileOp | happycache.c:49-56 | the record and effects are those of `Finished` |
| Loader.FdInfo.Reposition | happycache.c:145-157 | when the page is more than `CHUNK_SIZE` past `mincore_start`, `mincore_start` moves to it and the bitmap is re-queried only when the mapping exists, the chunk stays inside `num_pages` and the query succeeds; the offset into the bitmap is returned |
| Loader.FdInfo.Load | happycache.c:128-174 | the loop leaves the record and issues the requests `LoadPages` gives |
| Loader.Feed | happycache.c:211-242 | one loop body updates the record, `fd`, `page` and `count` as `Step` says |
| Loader.LoadFromMap | happycache.c:176-246 | the whole loop does and returns what `LoadOutcome` says |

## Left out

- Concurrency: the reader threads (`read_worker`), the dump workers, the
  shared work list (`list.c`) and the count of open directories are not
  modelled. `CDir.Resume` reads the pushed contexts as one worker would,
  newest first.
- The gzip sink and its write errors, the creation of `.happycache.gz` in
  `main`, the command line, and `do_dump`'s temporary file and rename are
  not modelled.
- I/O is modelled as values: `FileInfo` and `Node` stand for the answers of
  `stat`, `mmap`, `mincore` and the directory listing.
- The page size is a parameter. `RustDump.PageSizeCache` models its
  caching on its own.
- The `sysinfo` page budget of `load_from_map` is the parameter `budget`.
- `strtoul` is modelled as "all digits" (`Format.ParseDecimal`). Leading
  blanks, signs and overflow are left out. The empty line parses as 0, as
  `strtoul` with an empty remainder does.
- The 4096-byte line buffer of `gzgets` is left out, so a longer line is
  not split. Lines are taken without their newline, which stands for the
  trim of the last character.
- The signed 64-bit `page` of the loader is an unbounded integer, so its
  overflow is left out. It begins once a page passes `2^63 - 1`, and the
  round-trip lemmas (`Loader.DecodeBlock`, `Loader.BlockLoads`,
  `Loader.BlockAdvice`, `DumpReload.DumpLoads`, `DumpReload.DumpReloads`)
  assume every dumped page is below `2^63 - 1` (`Loader.MaxPages`).
- File names are strings of characters. The round-trip lemmas assume a
  path that is valid Unicode and holds no newline. The Rust dumper's
  `to_string_lossy` (src/main.rs:117), which alters a name that is not
  valid UTF-8 so that the loader cannot open it again, is not modelled.
  Neither is a path holding a newline, which both dumpers write as two
  lines and `gzgets` reads back as two.
- Failures of `malloc` in `prepare_file` and in `dump_dir` are left out.
  `calloc` in the C `dump_file` is the parameter `allocOk`.
- The Rust per-entry `read_dir` errors (`entry?`) are not modelled.
  `Node.readable` covers the failure of `read_dir` itself.
- Symbolic-link cycles are left out: a `Node` tree is finite.
- The unmapping done by `Drop` for `Mmap` is not modelled.
- At end of file the loader loads the pending run but calls no
  `finished_file_op` for the last file, as written.
- `prepare_file` allocates a new bitmap for each file without freeing the
  previous one. The model keeps one buffer value and leaves the leak out.
- After a failed `mincore` the buffer `prepare_file` allocated is
  uninitialised. The model fills it with zeros (`Loader.Zeros`).
- A read past the end of the bitmap in `load_pages` is undefined
  behaviour. The model records it as an `Overrun` event and stops the call
  there.
- After a failed `mmap` the C `dump_file` returns without freeing its
  buffer. The model reports this as the `leaked` result.
- An entry descended into whose `fdopendir` fails leaves a null stream,
  and `readdir` on it is undefined behaviour. The model stops there with
  `NullDirectory`.
- Loader.WalkCovers: stated for a record whose file has no residency
  fault and for runs inside the file. Runs that start past `num_pages`
  come from a file that shrank since the dump or from a stale record.
  They are described by `Loader.ClampPastEnd`, `Loader.RefreshPastEnd`,
  `Loader.PastEndJudgedByOldChunk` and `Loader.PrepareFailureStale`
  instead.
- Loader.Refresh: a chunk longer than the bitmap buffer would be written
  past the buffer's end. The model leaves the buffer as it was in that
  case. `Loader.ExecSized` and `Loader.RefreshFits` show that the records
  the loader builds never reach it.
- Diagnostics written to standard error are not modelled. These are the
  `fprintf` and `perror` calls of `happycache.c` and `dumping.c`, and the
  message the Rust runtime prints when `main` returns an error (the model
  keeps the error value itself).

## Behaviour kept as written

These behaviours of the source are odd; the model keeps them as written
and proves them:

- The C dumper repeats the header at the start of each chunk. Its first
  delta in a chunk is the absolute page (`CDump.TwoChunkRepeatsHeader`).
  The loader reads the repeated header as a new file. It reopens the same
  path and loads that chunk's runs, so a run across a chunk boundary is
  loaded in two parts (`DumpReload.RepeatedHeaderReloads`,
  `DumpReload.DumpReloads`).
- The dumpers test residency differently. C tests the low bit, Rust any
  non-zero byte (`CDump.HighBitOnly`).
- `load_pages` refreshes its bitmap only when the offset is greater than
  `CHUNK_SIZE`. Offset `CHUNK_SIZE` reads one entry past the buffer
  (`Loader.OverrunAtChunkEnd`, `Loader.OverrunAfterPrepare`).
- After a failed `fstat` or `mmap`, `num_pages` stays at `-1` and nothing
  is clamped (`Loader.PrepareFailureStale`).
- `dump_dir` filters on `d_type` against the bits of `DT_REG` and `DT_DIR`. This admits block
  devices, links, sockets and whiteouts, and treats some of them as
  directories (`CDir.DTypeTable`).
