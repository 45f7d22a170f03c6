/** The text format shared by both dumpers and the loader: one path line per
    file block, then one decimal line per resident page giving its distance
    from the previous resident page of the block (the first one is absolute). */
module Format {

  /** One byte of a residency bitmap, as the kernel's `mincore` fills it. */
  type byte = x: int | 0 <= x < 256

  /** Pages covered by one residency query: `1<<20` in the Rust dumper,
      `CHUNK_SIZE = 1024 * 1024` in the C dumper and loader. */
  const ChunkPages: nat := 0x10_0000

  /** A decompressed output line. */
  datatype Line = Header(path: string) | Delta(gap: nat)

  function Min(a: int, b: int): int { if a < b then a else b }

  /** Integer ceiling `(a + b - 1) / b`, the page count of `a` bytes. */
  function CeilDiv(a: nat, b: nat): nat
    requires b > 0
  {
    (a + b - 1) / b
  }

  /** `CeilDiv(a, b)` is the least `q` with `a <= q * b`. */
  lemma CeilDivBounds(a: nat, b: nat)
    requires b > 0
    ensures a <= CeilDiv(a, b) * b
    ensures CeilDiv(a, b) == 0 || (CeilDiv(a, b) - 1) * b < a
  {
    var q := (a + b - 1) / b;
    var r := (a + b - 1) % b;
    assert a + b - 1 == q * b + r && r < b;
    assert q * b - b == (q - 1) * b;
  }

  lemma CeilDivUnique(a: nat, b: nat, q: nat)
    requires b > 0 && a <= q * b && (q == 0 || (q - 1) * b < a)
    ensures q == CeilDiv(a, b)
  {
    var c := CeilDiv(a, b);
    if q < c {
      assert q <= c - 1;
      assert q * b <= (c - 1) * b by { MulLe(q, c - 1, b); }
    } else if c < q {
      assert c <= q - 1;
      assert c * b <= (q - 1) * b by { MulLe(c, q - 1, b); }
    }
  }

  lemma MulLe(x: nat, y: nat, b: nat)
    requires x <= y
    ensures x * b <= y * b
  {}

  /** A start page is before the end of `len` bytes exactly when it is below
      the page count: the stop test `start >= len` of a page loop. */
  lemma {:induction false} PageBelowCount(page: nat, len: nat, ps: nat)
    requires ps > 0
    ensures page * ps < len <==> page < CeilDiv(len, ps)
  {
    var n := CeilDiv(len, ps);
    if page < n {
      MulLe(page, n - 1, ps);
    } else {
      MulLe(n, page, ps);
    }
  }

  /** The pages of a chunk that starts at page `offset` and spans
      `min(ChunkPages * ps, len - offset * ps)` bytes. */
  lemma ChunkPageCount(offset: nat, len: nat, ps: nat)
    requires ps > 0 && offset * ps < len
    ensures Min(ChunkPages * ps, len - offset * ps) >= 0
    ensures CeilDiv(Min(ChunkPages * ps, len - offset * ps) as nat, ps)
         == Min(ChunkPages, CeilDiv(len, ps) - offset)
  {
    var n := CeilDiv(len, ps);
    PageBelowCount(offset, len, ps);
    var length := Min(ChunkPages * ps, len - offset * ps);
    assert (offset + ChunkPages) * ps == offset * ps + ChunkPages * ps;
    if ChunkPages * ps <= len - offset * ps {
      CeilDivUnique(ChunkPages * ps, ps, ChunkPages);
      PageBelowCount(offset + ChunkPages - 1, len, ps);
      assert (offset + ChunkPages - 1) * ps == offset * ps + ChunkPages * ps - ps;
    } else {
      var q := n - offset;
      assert q * ps == n * ps - offset * ps;
      assert (q - 1) * ps == (n - 1) * ps - offset * ps;
      PageBelowCount(offset + ChunkPages, len, ps);
      CeilDivUnique(length as nat, ps, q);
    }
  }

  // ---------------------------------------------------------------------
  // Resident page indices

  /** Each element is above the one before it. */
  predicate StrictlyIncreasing(s: seq<nat>) {
    forall i :: 0 < i < |s| ==> s[i - 1] < s[i]
  }

  /** Each element is at least the one before it. */
  predicate Sorted(s: seq<nat>) {
    forall i :: 0 < i < |s| ==> s[i - 1] <= s[i]
  }

  /** The pages `base + k` whose flag `bits[k]` is set, in ascending order. */
  function Indices(bits: seq<bool>, base: nat): (r: seq<nat>)
    ensures forall k :: 0 <= k < |r| ==> base <= r[k] < base + |bits|
    ensures StrictlyIncreasing(r)
  {
    if bits == [] then []
    else
      var n := |bits| - 1;
      var prev := Indices(bits[..n], base);
      prev + (if bits[n] then [base + n] else [])
  }

  /** A page is listed exactly when its flag is set. */
  lemma {:induction false} IndicesMembers(bits: seq<bool>, base: nat)
    ensures forall x :: x in Indices(bits, base) <==> base <= x < base + |bits| && bits[x - base]
  {
    if bits != [] {
      var n := |bits| - 1;
      IndicesMembers(bits[..n], base);
      assert forall k :: 0 <= k < n ==> bits[..n][k] == bits[k];
    }
  }

  lemma IndicesEmpty(bits: seq<bool>, base: nat)
    ensures Indices(bits, base) == [] <==> forall k :: 0 <= k < |bits| ==> !bits[k]
  {
    IndicesMembers(bits, base);
    if Indices(bits, base) != [] {
      var x := Indices(bits, base)[0];
      assert x in Indices(bits, base);
      assert bits[x - base];
    } else {
      forall k | 0 <= k < |bits| ensures !bits[k] {
        assert base + k !in Indices(bits, base);
      }
    }
  }

  /** Scanning a bitmap in two pieces gives the indices of the whole. */
  lemma {:induction false} IndicesAppend(a: seq<bool>, b: seq<bool>, base: nat)
    ensures Indices(a + b, base) == Indices(a, base) + Indices(b, base + |a|)
    decreases |b|
  {
    if b == [] {
      assert a + b == a;
    } else {
      var n := |b| - 1;
      assert (a + b)[..|a| + n] == a + b[..n];
      IndicesAppend(a, b[..n], base);
    }
  }

  // ---------------------------------------------------------------------
  // Residency bytes

  /** Whether the lowest bit of `b` is set, by parity. */
  function LowBit(b: nat): bool {
    if b < 2 then b == 1 else LowBit(b - 2)
  }

  lemma {:induction false} LowBitParity(b: nat)
    ensures LowBit(b) <==> b % 2 == 1
  {
    if b >= 2 {
      LowBitParity(b - 2);
    }
  }

  /** `LowBit` is the test `b & 0x01` of the C dumper and loader. */
  lemma LowBitAnd(b: byte)
    ensures LowBit(b) <==> (b as bv8) & 0x01 != 0
  {
    LowBitParity(b);
  }

  // ---------------------------------------------------------------------
  // Delta encoding

  function Last(s: seq<nat>): nat
    requires s != []
  {
    s[|s| - 1]
  }

  /** The gaps between consecutive indices; the first one measured from 0. */
  function Gaps(idx: seq<nat>): (r: seq<nat>)
    requires Sorted(idx)
    ensures |r| == |idx|
  {
    if idx == [] then []
    else
      var n := |idx| - 1;
      Gaps(idx[..n]) + [idx[n] - (if n == 0 then 0 else idx[n - 1])]
  }

  /** The running sums of a delta sequence: what a decoder reconstructs. */
  function Sums(ds: seq<nat>): (r: seq<nat>)
    ensures |r| == |ds|
  {
    if ds == [] then []
    else
      var n := |ds| - 1;
      var prev := Sums(ds[..n]);
      prev + [(if n == 0 then 0 else prev[n - 1]) + ds[n]]
  }

  lemma {:induction false} SumsSorted(ds: seq<nat>)
    ensures Sorted(Sums(ds))
  {
    if ds != [] {
      var n := |ds| - 1;
      SumsSorted(ds[..n]);
    }
  }

  /** Decoding the gaps of ascending indices gives the indices back. */
  lemma {:induction false} SumsOfGaps(idx: seq<nat>)
    requires Sorted(idx)
    ensures Sums(Gaps(idx)) == idx
  {
    if idx != [] {
      var n := |idx| - 1;
      var front := idx[..n];
      assert Sorted(front) by {
        forall i | 0 < i < |front| ensures front[i - 1] <= front[i] {
          assert front[i - 1] == idx[i - 1] && front[i] == idx[i];
        }
      }
      var g := Gaps(idx);
      assert g == Gaps(front) + [idx[n] - (if n == 0 then 0 else idx[n - 1])];
      assert g[..n] == Gaps(front);
      SumsOfGaps(front);
      var prev := Sums(g[..n]);
      assert prev == front;
      assert Sums(g) == prev + [(if n == 0 then 0 else prev[n - 1]) + g[n]];
      if n > 0 {
        assert prev[n - 1] == idx[n - 1];
        assert idx[n - 1] <= idx[n];
      }
      assert Sums(g) == front + [idx[n]];
      assert idx == front + [idx[n]];
    }
  }

  /** Encoding the running sums of any deltas gives the deltas back. */
  lemma {:induction false} GapsOfSums(ds: seq<nat>)
    ensures Sorted(Sums(ds)) && Gaps(Sums(ds)) == ds
  {
    SumsSorted(ds);
    if ds != [] {
      var n := |ds| - 1;
      assert Sums(ds)[..n] == Sums(ds[..n]);
      GapsOfSums(ds[..n]);
    }
  }

  /** Strictly increasing indices are exactly those whose later gaps are at
      least 1; the first gap is the first index itself. */
  lemma {:induction false} GapsOfStrict(idx: seq<nat>)
    requires Sorted(idx)
    ensures idx != [] ==> Gaps(idx)[0] == idx[0]
    ensures StrictlyIncreasing(idx) <==> forall k :: 0 < k < |idx| ==> Gaps(idx)[k] >= 1
  {
    GapsAt(idx);
    var g := Gaps(idx);
    if StrictlyIncreasing(idx) {
      forall k | 0 < k < |idx| ensures g[k] >= 1 {
        assert idx[k - 1] < idx[k];
      }
    }
    if forall k :: 0 < k < |idx| ==> g[k] >= 1 {
      forall i | 0 < i < |idx| ensures idx[i - 1] < idx[i] {
        assert g[i] >= 1;
      }
    }
  }

  /** Each gap is the difference of neighbouring indices. */
  lemma {:induction false} GapsAt(idx: seq<nat>)
    requires Sorted(idx)
    ensures forall k :: 0 < k < |idx| ==> Gaps(idx)[k] == idx[k] - idx[k - 1]
    ensures idx != [] ==> Gaps(idx)[0] == idx[0]
  {
    if idx != [] {
      var n := |idx| - 1;
      var front := idx[..n];
      assert Sorted(front) by {
        forall i | 0 < i < |front| ensures front[i - 1] <= front[i] {
          assert front[i - 1] == idx[i - 1] && front[i] == idx[i];
        }
      }
      GapsAt(front);
      assert forall k :: 0 <= k < n ==> Gaps(idx)[k] == Gaps(front)[k];
    }
  }

  /** The gaps of one index. */
  lemma GapsOne(x: nat)
    ensures Sorted([x]) && Gaps([x]) == [x]
  {
    assert [x][..0] == [];
  }

  /** One more index adds its gap from the last one. */
  lemma GapsSnoc(idx: seq<nat>, x: nat)
    requires Sorted(idx) && idx != [] && Last(idx) <= x
    ensures Sorted(idx + [x]) && Gaps(idx + [x]) == Gaps(idx) + [x - Last(idx)]
  {
    SortedSnoc(idx, x);
    assert (idx + [x])[..|idx|] == idx;
  }

  /** The gaps of four ascending indices. */
  lemma GapsOfFour(a: nat, b: nat, c: nat, d: nat)
    requires a <= b <= c <= d
    ensures Sorted([a, b, c, d]) && Gaps([a, b, c, d]) == [a, b - a, c - b, d - c]
  {
    GapsOfThree(a, b, c);
    GapsSnoc([a, b, c], d);
    assert [a, b, c] + [d] == [a, b, c, d];
  }

  lemma GapsOfThree(a: nat, b: nat, c: nat)
    requires a <= b <= c
    ensures Sorted([a, b, c]) && Gaps([a, b, c]) == [a, b - a, c - b]
  {
    GapsOfTwo(a, b);
    GapsSnoc([a, b], c);
    assert [a, b] + [c] == [a, b, c];
  }

  lemma GapsOfTwo(a: nat, b: nat)
    requires a <= b
    ensures Sorted([a, b]) && Gaps([a, b]) == [a, b - a]
  {
    GapsOne(a);
    GapsSnoc([a], b);
    assert [a] + [b] == [a, b];
  }

  function DeltaLines(gaps: seq<nat>): (r: seq<Line>)
    ensures |r| == |gaps|
    ensures forall k :: 0 <= k < |r| ==> r[k] == Delta(gaps[k])
  {
    if gaps == [] then [] else DeltaLines(gaps[..|gaps| - 1]) + [Delta(gaps[|gaps| - 1])]
  }

  /** The block written for one file: nothing when no page is resident,
      otherwise the path followed by the gaps of the resident indices. */
  function Block(path: string, idx: seq<nat>): (r: seq<Line>)
    requires Sorted(idx)
  {
    if idx == [] then [] else [Header(path)] + DeltaLines(Gaps(idx))
  }

  /** The block has a header exactly when some page is resident, the header
      comes first and only once, then one delta per page. */
  lemma BlockShape(path: string, idx: seq<nat>)
    requires Sorted(idx)
    ensures (Block(path, idx) != []) <==> idx != []
    ensures idx != [] ==> |Block(path, idx)| == |idx| + 1 && Block(path, idx)[0] == Header(path)
    ensures forall k :: 1 <= k < |Block(path, idx)| ==> Block(path, idx)[k].Delta?
  {}

  /** Writing one more resident page extends the block by one delta line
      (or starts it with the header); this is the step each encoder loop takes. */
  lemma {:induction false} BlockSnoc(path: string, idx: seq<nat>, x: nat)
    requires Sorted(idx) && (idx != [] ==> Last(idx) <= x)
    ensures Sorted(idx + [x])
    ensures Block(path, idx + [x])
         == Block(path, idx)
          + (if idx == [] then [Header(path)] else [])
          + [Delta(x - (if idx == [] then 0 else Last(idx)))]
  {
    var s := idx + [x];
    SortedSnoc(idx, x);
    assert s[..|idx|] == idx;
    var d := x - (if idx == [] then 0 else Last(idx));
    var g := Gaps(s);
    assert g == Gaps(idx) + [d];
    DeltaSnoc(Gaps(idx), d);
  }

  /** The first resident page starts the block: the header, then the page
      itself as the first delta. */
  lemma BlockStarts(path: string, x: nat)
    ensures Sorted([x]) && Block(path, [x]) == [Header(path), Delta(x)]
  {
    GapsOne(x);
    assert DeltaLines([x]) == [Delta(x)];
  }

  /** Inside a block, one more resident page adds one delta line. */
  lemma BlockGrows(path: string, idx: seq<nat>, x: nat)
    requires Sorted(idx) && idx != [] && Last(idx) <= x && Sorted(idx + [x])
    ensures Block(path, idx + [x]) == Block(path, idx) + [Delta(x - Last(idx))]
  {
    GapsSnoc(idx, x);
    var d := x - Last(idx);
    DeltaSnoc(Gaps(idx), d);
    var h, dl := [Header(path)], DeltaLines(Gaps(idx));
    assert h + (dl + [Delta(d)]) == (h + dl) + [Delta(d)];
  }

  /** Appending an index no smaller than the last keeps indices sorted. */
  lemma SortedSnoc(idx: seq<nat>, x: nat)
    requires Sorted(idx) && (idx != [] ==> Last(idx) <= x)
    ensures Sorted(idx + [x])
  {
    var s := idx + [x];
    forall i | 0 < i < |s| ensures s[i - 1] <= s[i] {
      if i < |idx| {
        assert s[i - 1] == idx[i - 1] && s[i] == idx[i];
      }
    }
  }

  lemma DeltaSnoc(gaps: seq<nat>, d: nat)
    ensures DeltaLines(gaps + [d]) == DeltaLines(gaps) + [Delta(d)]
  {
    assert (gaps + [d])[..|gaps|] == gaps;
  }

  // ---------------------------------------------------------------------
  // Contiguous runs

  datatype Run = Run(start: nat, len: nat)

  /** The maximal runs of consecutive pages in strictly increasing indices. */
  function Runs(idx: seq<nat>): (r: seq<Run>)
    ensures idx == [] <==> r == []
    ensures idx != [] ==> r[|r| - 1].start + r[|r| - 1].len == Last(idx) + 1
  {
    if idx == [] then [] else Grow(Runs(idx[..|idx| - 1]), idx[|idx| - 1])
  }

  /** One page more: the last run grows when the page is adjacent to it,
      otherwise a run of one page opens. */
  function Grow(runs: seq<Run>, x: nat): (r: seq<Run>)
    ensures r != [] && r[|r| - 1].start + r[|r| - 1].len == x + 1
  {
    if runs != [] && runs[|runs| - 1].start + runs[|runs| - 1].len == x
    then runs[..|runs| - 1] + [Run(runs[|runs| - 1].start, runs[|runs| - 1].len + 1)]
    else runs + [Run(x, 1)]
  }

  /** One more page past the last grows the runs by that page. */
  lemma RunsSnoc(prev: seq<nat>, y: nat)
    ensures Runs(prev + [y]) == Grow(Runs(prev), y)
  {
    var s := prev + [y];
    assert s[..|s| - 1] == prev && s[|s| - 1] == y;
  }

  /** The pages a list of runs covers, in order. */
  function Expand(runs: seq<Run>): seq<nat> {
    if runs == [] then []
    else Expand(runs[..|runs| - 1]) + Range(runs[|runs| - 1].start, runs[|runs| - 1].len)
  }

  function Range(start: nat, len: nat): (r: seq<nat>)
    ensures |r| == len && forall k :: 0 <= k < len ==> r[k] == start + k
  {
    if len == 0 then [] else Range(start, len - 1) + [start + len - 1]
  }

  lemma {:induction false} ExpandAppend(a: seq<Run>, b: seq<Run>)
    ensures Expand(a + b) == Expand(a) + Expand(b)
    decreases |b|
  {
    if b == [] {
      assert a + b == a;
    } else {
      var n := |b| - 1;
      var ab := a + b;
      assert ab[..|ab| - 1] == a + b[..n] && ab[|ab| - 1] == b[n];
      ExpandAppend(a, b[..n]);
      var r := Range(b[n].start, b[n].len);
      assert Expand(ab) == Expand(a + b[..n]) + r;
      assert (Expand(a) + Expand(b[..n])) + r == Expand(a) + (Expand(b[..n]) + r);
    }
  }

  /** The runs cover exactly the indices, in order. */
  lemma {:induction false} RunsCover(idx: seq<nat>)
    ensures Expand(Runs(idx)) == idx
  {
    if idx != [] {
      var n := |idx| - 1;
      RunsCover(idx[..n]);
      assert idx == idx[..n] + [idx[n]];
      ExpandSnoc(Runs(idx[..n]), idx[n]);
    }
  }

  /** The step of `Runs`: extending the last run or opening a new one adds
      exactly the new page to the covered pages. */
  lemma ExpandSnoc(prev: seq<Run>, x: nat)
    ensures Expand(Grow(prev, x)) == Expand(prev) + [x]
  {
    if prev != [] && prev[|prev| - 1].start + prev[|prev| - 1].len == x {
      var m := |prev| - 1;
      var p := prev[m];
      var next := prev[..m] + [Run(p.start, p.len + 1)];
      assert next[..|next| - 1] == prev[..m];
      assert Range(p.start, p.len + 1) == Range(p.start, p.len) + [x];
    } else {
      var next := prev + [Run(x, 1)];
      assert next[..|next| - 1] == prev;
    }
  }

  predicate Separated(runs: seq<Run>) {
    (forall k :: 0 <= k < |runs| ==> runs[k].len >= 1)
    && forall k :: 0 < k < |runs| ==> runs[k - 1].start + runs[k - 1].len < runs[k].start
  }

  /** In strictly increasing indices, every run is non-empty and a missing
      page separates each run from the next: the runs are maximal. */
  lemma {:induction false} RunsSeparated(idx: seq<nat>)
    requires StrictlyIncreasing(idx)
    ensures Separated(Runs(idx))
  {
    if idx != [] {
      var n := |idx| - 1;
      var front := idx[..n];
      assert StrictlyIncreasing(front) by {
        forall i | 0 < i < |front| ensures front[i - 1] < front[i] {
          assert front[i - 1] == idx[i - 1] && front[i] == idx[i];
        }
      }
      RunsSeparated(front);
      var prev := Runs(front);
      if prev != [] && prev[|prev| - 1].start + prev[|prev| - 1].len == idx[n] {
        ExtendSeparated(prev);
      } else {
        if prev != [] {
          assert prev[|prev| - 1].start + prev[|prev| - 1].len == idx[n - 1] + 1;
          assert idx[n - 1] < idx[n];
        }
        OpenSeparated(prev, idx[n]);
      }
    }
  }

  lemma ExtendSeparated(prev: seq<Run>)
    requires prev != [] && Separated(prev)
    ensures var m := |prev| - 1;
            Separated(prev[..m] + [Run(prev[m].start, prev[m].len + 1)])
  {
    var m := |prev| - 1;
    var r := prev[..m] + [Run(prev[m].start, prev[m].len + 1)];
    forall k | 0 < k < |r| ensures r[k - 1].start + r[k - 1].len < r[k].start {
      assert r[k - 1] == prev[k - 1];
      assert r[k].start == prev[k].start;
    }
  }

  lemma OpenSeparated(prev: seq<Run>, x: nat)
    requires Separated(prev)
    requires prev != [] ==> prev[|prev| - 1].start + prev[|prev| - 1].len < x
    ensures Separated(prev + [Run(x, 1)])
  {
    var r := prev + [Run(x, 1)];
    forall k | 0 < k < |r| ensures r[k - 1].start + r[k - 1].len < r[k].start {
      assert r[k - 1] == prev[k - 1];
    }
  }

  // ---------------------------------------------------------------------
  // Decimal text

  predicate IsDigit(c: char) { '0' <= c <= '9' }

  /** `n.to_string()` / `printf("%lu")`: the shortest decimal spelling. */
  function Decimal(n: nat): (s: string)
    ensures |s| >= 1 && forall k :: 0 <= k < |s| ==> IsDigit(s[k])
  {
    if n < 10 then [DigitChar(n)] else Decimal(n / 10) + [DigitChar(n % 10)]
  }

  function DigitChar(d: nat): (c: char)
    requires d < 10
    ensures IsDigit(c)
  {
    ('0' as int + d) as char
  }

  /** The value of a string that is all digits, as `strtoul` reads it when it
      consumes the whole line; `None` when some character is not a digit. */
  function ParseDecimal(s: string): (r: Option<nat>)
    ensures r.Some? <==> forall k :: 0 <= k < |s| ==> IsDigit(s[k])
  {
    if s == [] then Some(0)
    else
      var n := |s| - 1;
      match ParseDecimal(s[..n])
      case None => None
      case Some(v) =>
        if IsDigit(s[n]) then Some(v * 10 + (s[n] as int - '0' as int)) else None
  }

  datatype Option<T> = None | Some(value: T)

  /** Reading back a number's decimal spelling gives the number. */
  lemma {:induction false} ParseDecimalOfDecimal(n: nat)
    ensures ParseDecimal(Decimal(n)) == Some(n)
  {
    if n >= 10 {
      ParseDecimalOfDecimal(n / 10);
      var s := Decimal(n);
      assert s[..|s| - 1] == Decimal(n / 10);
    }
  }

  /** The text of an output line, without its newline. */
  function Render(l: Line): string {
    match l
    case Header(p) => p
    case Delta(g) => Decimal(g)
  }

  function RenderAll(ls: seq<Line>): (r: seq<string>)
    ensures |r| == |ls|
  {
    if ls == [] then [] else RenderAll(ls[..|ls| - 1]) + [Render(ls[|ls| - 1])]
  }

  lemma RenderSnoc(ls: seq<Line>, l: Line)
    ensures RenderAll(ls + [l]) == RenderAll(ls) + [Render(l)]
  {
    assert (ls + [l])[..|ls|] == ls;
  }

}
