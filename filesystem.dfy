/** What the operating system answers, as plain values: the residency bitmap
    `mincore` would report for each file, which calls succeed, and the
    directory tree the walkers list. */
module FileSystem {
  import opened Format

  /** The I/O errors a dump can stop with. */
  datatype IoError = OpenFailed | StatFailed | ListFailed | MapFailed | QueryFailed

  datatype Status = Ok | Err(error: IoError)

  datatype Result<T> = Success(value: T) | Failure(error: IoError)

  /** One file. `resident[p]` is the byte `mincore` reports for page `p`
      (pages past the end of `resident` read as 0). `mapFault == Some(p)`
      makes every mapping of a range holding page `p` fail, `queryFault ==
      Some(p)` every residency query of such a range. */
  datatype FileInfo = FileInfo(
    size: nat,
    resident: seq<byte>,
    openOk: bool,
    statOk: bool,
    mapFault: Option<nat>,
    queryFault: Option<nat>)

  /** Pages of a file: `(size + page_size - 1) / page_size`. */
  function PageCount(f: FileInfo, ps: nat): nat
    requires ps > 0
  {
    CeilDiv(f.size, ps)
  }

  predicate Hits(fault: Option<nat>, first: nat, pages: nat) {
    fault.Some? && first <= fault.value < first + pages
  }

  /** `mmap` of `pages` pages from page `first`; a zero-length mapping fails. */
  predicate MapSucceeds(f: FileInfo, first: nat, pages: nat) {
    pages > 0 && !Hits(f.mapFault, first, pages)
  }

  predicate QuerySucceeds(f: FileInfo, first: nat, pages: nat) {
    !Hits(f.queryFault, first, pages)
  }

  function ByteAt(f: FileInfo, page: nat): byte {
    if page < |f.resident| then f.resident[page] else 0
  }

  /** The bitmap a successful query of `pages` pages from `first` fills in. */
  function Query(f: FileInfo, first: nat, pages: nat): (r: seq<byte>)
    ensures |r| == pages && forall k :: 0 <= k < pages ==> r[k] == ByteAt(f, first + k)
  {
    var r := seq<byte>(pages, k requires 0 <= k < pages => ByteAt(f, first + k));
    r
  }

  /** A directory tree from the Rust walker's point of view: what
      `Path::metadata` says each entry is. A symbolic link appears as the node
      it resolves to; an `Other` entry is a device, socket or fifo, or a
      dangling link when `statOk` is false. */
  datatype Node =
    | Dir(name: string, readable: bool, entries: seq<Node>)
    | Reg(name: string, file: FileInfo)
    | Other(name: string, statOk: bool)

  /** `parent + "/" + name`, how both walkers form an entry's path. */
  function Join(parent: string, name: string): (p: string)
    ensures |p| == |parent| + 1 + |name|
  {
    parent + "/" + name
  }
}
