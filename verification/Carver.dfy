/** The carver: src/core/carver.c:453-493 and 495-781.

    What the header and footer checks of the file formats answer, which sectors are constant, which reads succeed and
    when the user cancels is left to oracles; the claims hold for all of them. */
module Carving {
  import opened Arith
  import opened Disks

  const CHUNK: nat := 524288
  const OVERLAP: nat := 65536
  const MAX_GAP: nat := 4194304
  const MIN_SIZE: nat := 512
  const MAX_FILES: nat := 10_000_000

  type CString = s: seq<byte> | 0 !in s witness []

  /** A file format, as far as the carver looks at it; maxFilesize 0 is no limit, the extension is "bin" if there is
      none. */
  datatype Hint = Hint(id: nat, maxFilesize: nat, extension: CString)

  /** The file being carved: it starts at `start`; footerLen bytes later its footer ends, if one was seen. */
  datatype Current = Closed | Open(start: nat, hint: Hint, footerLen: nat)

  datatype Extent = Extent(start: nat, size: nat) {
    function End(): nat {
      start + size
    }
  }

  /** extents are the entries added to the tree, in order, hints their formats. */
  datatype State = State(file: Current, extents: seq<Extent>, hints: seq<Hint>, count: nat, total: nat)

  const INITIAL: State := State(Closed, [], [], 0, 0)

  datatype Oracles = Oracles(
    constant: nat -> bool,
    header: (nat, nat, Current) -> seq<Hint>,
    footer: (nat, nat, Hint) -> int,
    readable: nat -> bool,
    cancel: nat -> bool)

  function GapLimit(h: Hint): nat {
    if h.maxFilesize == 0 then MAX_GAP else h.maxFilesize
  }

  // ----- single steps -----

  /** carver_add_entry for the open file, after which no file is open. */
  function Emitted(s: State, size: nat): State
    requires s.file.Open?
  {
    if s.count >= MAX_FILES || size < MIN_SIZE then s.(file := Closed)
    else State(Closed, s.extents + [Extent(s.file.start, size)], s.hints + [s.file.hint], s.count + 1, s.total + size)
  }

  /** A sector of equal bytes at `at`: it can only end the open file. */
  function ConstantStep(ss: nat, s: State, at: nat): State {
    match s.file
    case Closed => s
    case Open(start, hint, footerLen) =>
      if footerLen > 0 && at + ss >= start + footerLen then Emitted(s, footerLen)
      else if Minus(at + ss, start) > GapLimit(hint) then Emitted(s, Min(Minus(at + ss, start), GapLimit(hint)))
      else s
  }

  /** A header of the open file's own format does not count while the file may still go on. */
  predicate Ignored(file: Current, h: Hint, pos: nat) {
    match file
    case Closed => false
    case Open(start, hint, footerLen) =>
      hint == h && if footerLen > 0 then pos < start + footerLen else Minus(pos, start) < CHUNK / 8
  }

  /** The size of an open file that a header at `pos` ends. */
  function CutSize(o: Oracles, start: nat, hint: Hint, footerLen: nat, pos: nat, remaining: nat): nat {
    var diff := Min(Minus(pos, start), GapLimit(hint));
    if footerLen > 0 then Min(footerLen, diff)
    else
      var footer := o.footer(pos, remaining, hint);
      if 0 < footer < diff then footer else diff
  }

  function Opened(o: Oracles, s: State, h: Hint, pos: nat, remaining: nat): State {
    var footer := o.footer(pos, remaining, h);
    s.(file := Open(pos, h, if footer > 0 then footer else 0))
  }

  /** One position of the inner loop. */
  function ByteStep(o: Oracles, s: State, pos: nat, remaining: nat): State {
    var found := o.header(pos, remaining, s.file);
    if |found| > 0 then
      if Ignored(s.file, found[0], pos) then s
      else
        var cut := if s.file.Open? then
                     Emitted(s, CutSize(o, s.file.start, s.file.hint, s.file.footerLen, pos, remaining))
                   else s;
        Opened(o, cut, found[0], pos, remaining)
    else
      match s.file
      case Closed => s
      case Open(start, hint, footerLen) =>
        if footerLen > 0 && pos >= start + footerLen then Emitted(s, footerLen)
        else if Minus(pos, start) > GapLimit(hint) then Emitted(s, Min(Minus(pos, start), GapLimit(hint)))
        else s
  }

  // ----- the loops -----

  /** The positions of one sector: every byte in a deep scan, else the first only. */
  function SectorBytes(o: Oracles, ss: nat, deep: bool, s: State, at: nat, off: nat, remaining: nat): State
    requires ss > 0
    decreases ss - off
  {
    if off >= ss || remaining < ss then s
    else
      var step := if deep then 1 else ss;
      SectorBytes(o, ss, deep, ByteStep(o, s, at + off, remaining), at, off + step, remaining - step)
  }

  function SectorStep(o: Oracles, ss: nat, deep: bool, s: State, at: nat, remaining: nat): State
    requires ss > 0
  {
    if o.constant(at) then ConstantStep(ss, s, at) else SectorBytes(o, ss, deep, s, at, 0, remaining)
  }

  /** Sectors i..n of a chunk of n sectors read at `from`. */
  function ChunkSectors(o: Oracles, ss: nat, deep: bool, s: State, from: nat, n: nat, size: nat, i: nat): State
    requires ss > 0 && n * ss <= size
    decreases n - i
  {
    if i >= n then s
    else
      SectorInside(i, n, ss, size);
      ChunkSectors(o, ss, deep, SectorStep(o, ss, deep, s, from + i * ss, size - i * ss), from, n, size, i + 1)
  }

  lemma SectorInside(i: nat, n: nat, ss: nat, size: nat)
    requires ss > 0 && i < n && n * ss <= size
    ensures 0 <= i * ss && i * ss + ss <= size
  {
    var left := n - i;
    assert n * ss == i * ss + left * ss;
    MulAtLeast(left, ss);
    MulNonNeg(i, ss);
  }

  /** What is scanned: a partition of `sectors` sectors at `start`. */
  datatype Job = Job(start: nat, sectors: nat, ss: nat, deep: bool)

  predicate ValidJob(j: Job) {
    0 < j.ss <= CHUNK / 2
  }

  /** Sectors in a chunk, and sectors of overlap that are skipped. */
  function PerChunk(j: Job): (n: nat)
    requires ValidJob(j)
    ensures n >= 2
  {
    AtLeastTwo(j.ss);
    CHUNK / j.ss
  }

  lemma AtLeastTwo(ss: nat)
    requires 0 < ss <= CHUNK / 2
    ensures CHUNK / ss >= 2
  {
    var q := CHUNK / ss;
    assert CHUNK == q * ss + CHUNK % ss;
    assert (q - 1) * ss == q * ss - ss;
    MulAtLeast(q - 1, ss);
  }

  function Skipped(j: Job): nat
    requires ValidJob(j)
  {
    OVERLAP / j.ss
  }

  /** Bytes of a chunk. */
  function ChunkBytes(j: Job, chunk: nat): nat
    requires chunk < j.sectors
  {
    if (j.sectors - chunk) * j.ss < CHUNK then (j.sectors - chunk) * j.ss else CHUNK
  }

  /** Where a chunk is read from: after the first, 64 KiB before its sectors. */
  function ReadFrom(j: Job, chunk: nat): nat
    requires ValidJob(j) && (chunk == 0 || chunk >= PerChunk(j))
  {
    ChunkStart(j, chunk);
    if chunk == 0 then j.start else j.start + chunk * j.ss - OVERLAP
  }

  lemma ChunkStart(j: Job, chunk: nat)
    requires ValidJob(j)
    ensures chunk >= PerChunk(j) ==> chunk * j.ss >= PerChunk(j) * j.ss > CHUNK - j.ss
    ensures PerChunk(j) * j.ss <= CHUNK
  {
    var n := PerChunk(j);
    assert CHUNK == n * j.ss + CHUNK % j.ss;
    if chunk >= n {
      assert chunk * j.ss == n * j.ss + (chunk - n) * j.ss;
      assert (chunk - n) * j.ss >= 0;
    }
  }

  /** Sectors of a chunk. */
  function ChunkCount(j: Job, chunk: nat): (n: nat)
    requires ValidJob(j) && chunk < j.sectors
    ensures n * j.ss <= ChunkBytes(j, chunk)
  {
    DivTimes(ChunkBytes(j, chunk), j.ss);
    ChunkBytes(j, chunk) / j.ss
  }

  /** The sectors of one chunk. */
  function ChunkScan(o: Oracles, j: Job, s: State, chunk: nat): State
    requires ValidJob(j) && chunk < j.sectors && (chunk == 0 || chunk >= PerChunk(j))
  {
    ChunkSectors(o, j.ss, j.deep, s, ReadFrom(j, chunk), ChunkCount(j, chunk), ChunkBytes(j, chunk),
                 if chunk == 0 then 0 else Skipped(j))
  }

  lemma DivTimes(x: nat, d: nat)
    requires d > 0
    ensures 0 <= x / d * d <= x < x / d * d + d
  {
  }

  /** The chunks from `chunk` on, and whether the scan was cancelled. */
  function Scan(o: Oracles, j: Job, s: State, chunk: nat): (State, bool)
    requires ValidJob(j) && (chunk == 0 || chunk >= PerChunk(j))
    decreases j.sectors - chunk
  {
    if chunk >= j.sectors || !o.readable(ReadFrom(j, chunk)) then (s, false)
    else
      var t := ChunkScan(o, j, s, chunk);
      if o.cancel(chunk) then (t, true) else Scan(o, j, t, chunk + PerChunk(j))
  }

  /** What is still open at the end of the partition. */
  function Finished(j: Job, s: State): State {
    MulNonNeg(j.sectors, j.ss);
    match s.file
    case Closed => s
    case Open(start, hint, footerLen) =>
      var rest := Minus(j.start + j.sectors * j.ss, start);
      var trimmed := if footerLen > 0 && footerLen < rest then footerLen else rest;
      Emitted(s, if hint.maxFilesize > 0 && trimmed > hint.maxFilesize then hint.maxFilesize else trimmed)
  }

  /** carver_scan, starting at a chunk. */
  function Carved(o: Oracles, j: Job, chunk: nat): State
    requires ValidJob(j) && (chunk == 0 || chunk >= PerChunk(j))
  {
    var (s, cancelled) := Scan(o, j, INITIAL, chunk);
    if cancelled then s else Finished(j, s)
  }

  // ----- safety -----

  function Total(es: seq<Extent>): nat {
    if |es| == 0 then 0 else Total(es[..|es| - 1]) + es[|es| - 1].size
  }

  /** Extents from `low` to `high`, in increasing order, disjoint, none too small. */
  ghost predicate Chained(es: seq<Extent>, low: nat, high: nat) {
    && (forall i :: 0 <= i < |es| ==> low <= es[i].start && MIN_SIZE <= es[i].size && es[i].End() <= high)
    && (forall i, j :: 0 <= i < j < |es| ==> es[i].End() <= es[j].start)
  }

  /** What every step keeps, with everything from `front` on still to be scanned. */
  ghost predicate Safe(s: State, low: nat, front: nat) {
    && front < WORD64 && low <= front
    && s.count == |s.extents| && s.total == Total(s.extents)
    && Chained(s.extents, low, front)
    && (s.file.Open? ==> low <= s.file.start <= front && Chained(s.extents, low, s.file.start))
  }

  lemma MinusIs(a: nat, b: nat)
    requires b <= a < WORD64
    ensures Minus(a, b) == a - b
  {
  }

  /** Adding an entry that ends before the front. */
  lemma EmittedSafe(s: State, low: nat, size: nat, front: nat)
    requires s.file.Open? && front < WORD64 && low <= s.file.start && s.file.start + size <= front
    requires Chained(s.extents, low, s.file.start)
    requires s.count == |s.extents| && s.total == Total(s.extents)
    ensures Safe(Emitted(s, size), low, front)
  {
    var e := Extent(s.file.start, size);
    assert (s.extents + [e])[..|s.extents|] == s.extents;
    ChainedHigher(s.extents, low, e.start, front);
    if size >= MIN_SIZE {
      ChainedWith(s.extents, e, low, front);
    }
    hide Chained;
  }

  lemma ChainedWith(es: seq<Extent>, e: Extent, low: nat, high: nat)
    requires low <= e.start && Chained(es, low, e.start) && MIN_SIZE <= e.size && e.End() <= high
    ensures Chained(es + [e], low, high)
  {
  }

  lemma ConstantSafe(ss: nat, s: State, low: nat, front: nat, at: nat)
    requires Safe(s, low, front) && front <= at && at + ss < WORD64
    ensures Safe(ConstantStep(ss, s, at), low, at + ss)
  {
    hide Chained, Total, Emitted;
    ChainedHigher(s.extents, low, front, at + ss);
    if s.file.Open? {
      var start := s.file.start;
      MinusIs(at + ss, start);
      var size := if s.file.footerLen > 0 && at + ss >= start + s.file.footerLen then s.file.footerLen
                  else Min(at + ss - start, GapLimit(s.file.hint));
      EmittedSafe(s, low, size, at + ss);
    }
  }

  lemma ChainedHigher(es: seq<Extent>, low: nat, high: nat, higher: nat)
    requires Chained(es, low, high) && high <= higher
    ensures Chained(es, low, higher)
  {
  }

  lemma ByteSafe(o: Oracles, s: State, low: nat, front: nat, pos: nat, remaining: nat)
    requires Safe(s, low, front) && front <= pos < WORD64
    ensures Safe(ByteStep(o, s, pos, remaining), low, pos)
  {
    hide Chained, Total, Emitted;
    ChainedHigher(s.extents, low, front, pos);
    if s.file.Open? {
      var start, hint, len := s.file.start, s.file.hint, s.file.footerLen;
      MinusIs(pos, start);
      EmittedSafe(s, low, CutSize(o, start, hint, len, pos, remaining), pos);
      EmittedSafe(s, low, Min(pos - start, GapLimit(hint)), pos);
      if len > 0 && pos >= start + len {
        EmittedSafe(s, low, len, pos);
      }
    }
  }

  lemma {:induction false} BytesSafe(o: Oracles, ss: nat, deep: bool, s: State, at: nat, off: nat, remaining: nat,
                                     low: nat, front: nat)
    requires ss > 0 && Safe(s, low, front) && front <= at + off && at + ss < WORD64 && off <= ss
    ensures Safe(SectorBytes(o, ss, deep, s, at, off, remaining), low, at + ss)
    decreases ss - off
  {
    hide Safe, ByteStep;
    if off >= ss || remaining < ss {
      SafeLater(s, low, front, at + ss);
    } else {
      ByteSafe(o, s, low, front, at + off, remaining);
      var step := if deep then 1 else ss;
      if off + step <= ss {
        BytesSafe(o, ss, deep, ByteStep(o, s, at + off, remaining), at, off + step, remaining - step, low, at + off);
      } else {
        SafeLater(ByteStep(o, s, at + off, remaining), low, at + off, at + ss);
      }
    }
  }

  lemma SafeLater(s: State, low: nat, front: nat, later: nat)
    requires Safe(s, low, front) && front <= later < WORD64
    ensures Safe(s, low, later)
  {
    ChainedHigher(s.extents, low, front, later);
  }

  lemma {:induction false} ChunkSafe(o: Oracles, ss: nat, deep: bool, s: State, from: nat, n: nat, size: nat, i: nat,
                                     low: nat, front: nat)
    requires ss > 0 && n * ss <= size && i <= n && Safe(s, low, front) && front <= from + i * ss
    requires from + n * ss < WORD64
    ensures Safe(ChunkSectors(o, ss, deep, s, from, n, size, i), low, from + n * ss)
    decreases n - i
  {
    hide Safe, ConstantStep, SectorBytes;
    if i == n {
      SafeLater(s, low, front, from + n * ss);
    } else {
      SectorInside(i, n, ss, n * ss);
      SectorInside(i, n, ss, size);
      var at := from + i * ss;
      assert (i + 1) * ss == i * ss + ss;
      if o.constant(at) {
        ConstantSafe(ss, s, low, front, at);
      } else {
        BytesSafe(o, ss, deep, s, at, 0, size - i * ss, low, front);
      }
      ChunkSafe(o, ss, deep, SectorStep(o, ss, deep, s, at, size - i * ss), from, n, size, i + 1, low, at + ss);
    }
  }

  /** The first byte scanned of a chunk. */
  function FirstByte(j: Job, chunk: nat): nat
    requires ValidJob(j) && (chunk == 0 || chunk >= PerChunk(j))
  {
    MulNonNeg(Skipped(j), j.ss);
    ReadFrom(j, chunk) + if chunk == 0 then 0 else Skipped(j) * j.ss
  }

  /** Some sector of the chunk is scanned. */
  predicate Scanned(j: Job, chunk: nat)
    requires ValidJob(j)
  {
    chunk < j.sectors && (chunk == 0 || Skipped(j) < ChunkCount(j, chunk))
  }

  /** The overlap is a whole number of sectors, or no second chunk is scanned after the first. */
  predicate Regular(j: Job)
    requires ValidJob(j)
  {
    OVERLAP % j.ss == 0 || j.sectors <= PerChunk(j) + Skipped(j)
  }

  ghost predicate Addressable(j: Job) {
    j.start + j.sectors * j.ss < WORD64
  }

  /** The end of what is scanned of a chunk. */
  function ChunkEnd(j: Job, chunk: nat): nat
    requires ValidJob(j) && chunk < j.sectors && (chunk == 0 || chunk >= PerChunk(j))
  {
    MulNonNeg(ChunkCount(j, chunk), j.ss);
    ReadFrom(j, chunk) + ChunkCount(j, chunk) * j.ss
  }

  /** How far a chunk is scanned: not past the partition, nor past the next chunk's first byte if chunks are regular. */
  lemma ChunkBounds(j: Job, chunk: nat)
    requires ValidJob(j) && chunk < j.sectors && (chunk == 0 || chunk >= PerChunk(j))
    ensures ChunkEnd(j, chunk) <= j.start + j.sectors * j.ss
    ensures ChunkCount(j, chunk) <= PerChunk(j) && ChunkCount(j, chunk) <= j.sectors - chunk
    ensures chunk > 0 || OVERLAP % j.ss == 0 ==> ChunkEnd(j, chunk) <= FirstByte(j, chunk + PerChunk(j))
    ensures j.start <= ReadFrom(j, chunk) <= FirstByte(j, chunk)
  {
    hide PerChunk, Skipped, ChunkCount, ChunkBytes;
    var per, ss, k, n := PerChunk(j), j.ss, Skipped(j), ChunkCount(j, chunk);
    ChunkStart(j, chunk);
    ChunkStart(j, chunk + per);
    Counts(j, chunk);
    Distribute(chunk, j.sectors - chunk, ss);
    Distribute(chunk, per, ss);
    Distribute(n, per - n, ss);
    MulNonNeg(per - n, ss);
    Distribute(n, j.sectors - chunk - n, ss);
    MulNonNeg(j.sectors - chunk - n, ss);
    MulNonNeg(chunk, ss);
    MulNonNeg(k, ss);
  }

  lemma Counts(j: Job, chunk: nat)
    requires ValidJob(j) && chunk < j.sectors
    ensures ChunkCount(j, chunk) <= PerChunk(j) && ChunkCount(j, chunk) <= j.sectors - chunk
    ensures Skipped(j) * j.ss == OVERLAP - OVERLAP % j.ss
  {
    var left, n := j.sectors - chunk, ChunkCount(j, chunk);
    DivTimes(CHUNK, j.ss);
    SectorsWithin(n, PerChunk(j), j.ss);
    if left * j.ss < CHUNK {
      SectorsWithin(n, left, j.ss);
    } else {
      SectorsWithin(PerChunk(j), left, j.ss);
    }
  }

  lemma SectorsWithin(n: nat, m: nat, ss: nat)
    requires ss > 0 && n * ss < m * ss + ss
    ensures n <= m
  {
    Distribute(m, n - m, ss);
    MulAtLeast(n - m, ss);
  }

  lemma ChunkScanSafe(o: Oracles, j: Job, s: State, chunk: nat, front: nat)
    requires ValidJob(j) && Addressable(j) && chunk < j.sectors && (chunk == 0 || chunk >= PerChunk(j))
    requires Safe(s, j.start, front) && (Scanned(j, chunk) ==> front <= FirstByte(j, chunk))
    ensures Safe(ChunkScan(o, j, s, chunk), j.start, if Scanned(j, chunk) then ChunkEnd(j, chunk) else front)
    ensures !Scanned(j, chunk) ==> ChunkScan(o, j, s, chunk) == s
  {
    hide Safe, ChunkSectors, ChunkCount, ReadFrom, ChunkBytes, Skipped;
    ChunkBounds(j, chunk);
    var i := if chunk == 0 then 0 else Skipped(j);
    if Scanned(j, chunk) {
      ChunkSafe(o, j.ss, j.deep, s, ReadFrom(j, chunk), ChunkCount(j, chunk), ChunkBytes(j, chunk), i, j.start, front);
    } else {
      NoSectors(o, j.ss, j.deep, s, ReadFrom(j, chunk), ChunkCount(j, chunk), ChunkBytes(j, chunk), i);
    }
  }

  lemma NoSectors(o: Oracles, ss: nat, deep: bool, s: State, from: nat, n: nat, size: nat, i: nat)
    requires ss > 0 && n * ss <= size && i >= n
    ensures ChunkSectors(o, ss, deep, s, from, n, size, i) == s
  {
  }

  /** The front before a chunk: behind everything scanned, and before everything still to be scanned. */
  ghost predicate Ahead(j: Job, chunk: nat, front: nat)
    requires ValidJob(j) && (chunk == 0 || chunk >= PerChunk(j))
  {
    && front <= j.start + j.sectors * j.ss
    && (chunk < j.sectors && Scanned(j, chunk) ==> front <= FirstByte(j, chunk))
    && (chunk > 0 || Regular(j))
  }

  lemma {:induction false} ScanSafe(o: Oracles, j: Job, s: State, chunk: nat, front: nat)
    requires ValidJob(j) && Addressable(j) && (chunk == 0 || chunk >= PerChunk(j))
    requires Safe(s, j.start, front) && Ahead(j, chunk, front)
    ensures Safe(Scan(o, j, s, chunk).0, j.start, j.start + j.sectors * j.ss)
    decreases j.sectors - chunk
  {
    hide Safe, ChunkScan, FirstByte, ReadFrom, ChunkEnd;
    SafeLater(s, j.start, front, j.start + j.sectors * j.ss);
    if chunk < j.sectors && o.readable(ReadFrom(j, chunk)) {
      var t := ChunkScan(o, j, s, chunk);
      var next := NextFront(j, chunk, front);
      ChunkScanSafe(o, j, s, chunk, front);
      SafeLater(t, j.start, next, j.start + j.sectors * j.ss);
      ScanSafe(o, j, t, chunk + PerChunk(j), next);
    }
  }

  /** The front after a chunk. */
  lemma NextFront(j: Job, chunk: nat, front: nat) returns (next: nat)
    requires ValidJob(j) && chunk < j.sectors && (chunk == 0 || chunk >= PerChunk(j)) && Ahead(j, chunk, front)
    ensures next == if Scanned(j, chunk) then ChunkEnd(j, chunk) else front
    ensures Ahead(j, chunk + PerChunk(j), next) && next <= j.start + j.sectors * j.ss
  {
    hide FirstByte, ReadFrom, ChunkEnd;
    ChunkBounds(j, chunk);
    next := if Scanned(j, chunk) then ChunkEnd(j, chunk) else front;
    var later := chunk + PerChunk(j);
    if later < j.sectors {
      ChunkBounds(j, later);
      LaterIsLater(j, chunk);
    }
  }

  /** A chunk that is not scanned is followed by none that is; chunks start in order. */
  lemma LaterIsLater(j: Job, chunk: nat)
    requires ValidJob(j) && chunk + PerChunk(j) < j.sectors && (chunk == 0 || chunk >= PerChunk(j))
    ensures Scanned(j, chunk)
    ensures chunk == 0 && Regular(j) && Scanned(j, PerChunk(j)) ==> OVERLAP % j.ss == 0
  {
    var left := j.sectors - chunk;
    SkippedIsLess(j);
    FullChunk(j, chunk);
    if j.sectors > PerChunk(j) {
      ChunkBounds(j, PerChunk(j));
    }
  }

  lemma FullChunk(j: Job, chunk: nat)
    requires ValidJob(j) && chunk + PerChunk(j) < j.sectors
    ensures ChunkCount(j, chunk) >= PerChunk(j)
  {
    var left := j.sectors - chunk;
    DivTimes(CHUNK, j.ss);
    if left * j.ss < CHUNK {
      ModOfMultiple(left, j.ss);
    }
  }

  lemma SkippedIsLess(j: Job)
    requires ValidJob(j)
    ensures Skipped(j) < PerChunk(j)
  {
    DivTimes(OVERLAP, j.ss);
    DivTimes(CHUNK, j.ss);
    AtLeastTwo(j.ss);
    if j.ss <= OVERLAP {
      SectorsWithin(Skipped(j) + 2, PerChunk(j), j.ss);
    } else {
      assert OVERLAP / j.ss == 0;
    }
  }

  lemma FinishSafe(j: Job, s: State)
    requires Addressable(j) && Safe(s, j.start, j.start + j.sectors * j.ss)
    ensures Safe(Finished(j, s), j.start, j.start + j.sectors * j.ss)
  {
    hide Chained, Total, Emitted;
    if s.file.Open? {
      var start, end := s.file.start, j.start + j.sectors * j.ss;
      MinusIs(end, start);
      var rest := end - start;
      var trimmed := if s.file.footerLen > 0 && s.file.footerLen < rest then s.file.footerLen else rest;
      var limit := s.file.hint.maxFilesize;
      EmittedSafe(s, j.start, if limit > 0 && trimmed > limit then limit else trimmed, end);
    }
  }

  /** A scan from this chunk meets every later chunk behind what it has scanned. */
  ghost predicate Forward(j: Job, chunk: nat)
    requires ValidJob(j)
  {
    Addressable(j) && (chunk == 0 || chunk >= PerChunk(j)) && (chunk > 0 || Regular(j))
  }

  /** The entries are in increasing order, disjoint, at least 512 bytes long and inside the partition; the counters are
      their number and their total size. */
  ghost predicate WellCarved(s: State, j: Job) {
    Chained(s.extents, j.start, j.start + j.sectors * j.ss) && s.count == |s.extents| && s.total == Total(s.extents)
  }

  /** So they are after a scan, whatever the formats answer. */
  lemma CarvedSafely(o: Oracles, j: Job, chunk: nat)
    requires ValidJob(j) && Forward(j, chunk)
    ensures WellCarved(Carved(o, j, chunk), j)
  {
    hide ChunkScan, Finished;
    MulNonNeg(j.sectors, j.ss);
    if chunk < j.sectors {
      ChunkBounds(j, chunk);
    }
    ScanSafe(o, j, INITIAL, chunk, j.start);
    FinishSafe(j, Scan(o, j, INITIAL, chunk).0);
  }

  // ----- when the overlap is not a whole number of sectors -----

  /** The first byte scanned again when the second chunk is not aligned with the end of the first. */
  function Rescanned(j: Job): nat
    requires ValidJob(j)
  {
    FirstByte(j, PerChunk(j))
  }

  const ANY: Hint := Hint(0, MAX_UINT64, [])

  /** Two files, one at the start and one at Rescanned; the footer of the first is at the end of the first chunk. */
  function Witness(j: Job): Oracles
    requires ValidJob(j)
  {
    var second := Rescanned(j);
    Oracles(at => at != j.start && at != second,
            (pos, remaining, file) => if pos == j.start || pos == second then [ANY] else [],
            (pos, remaining, hint) => if pos == j.start then PerChunk(j) * j.ss else 0,
            at => true,
            chunk => false)
  }

  /** The open file can only be ended by a header or by its footer. */
  ghost predicate Quiet(s: State, upto: nat) {
    s.file.Open? && s.file.hint == ANY && (s.file.footerLen == 0 || upto < s.file.start + s.file.footerLen)
  }

  lemma MinusBelow(a: nat, b: nat)
    ensures Minus(a, b) < WORD64
  {
  }

  lemma {:induction false} QuietBytes(o: Oracles, ss: nat, deep: bool, s: State, at: nat, off: nat, remaining: nat)
    requires ss > 0 && Quiet(s, at + ss) && forall pos, r, f :: at + off <= pos < at + ss ==> o.header(pos, r, f) == []
    ensures SectorBytes(o, ss, deep, s, at, off, remaining) == s
    decreases ss - off
  {
    if off < ss && remaining >= ss {
      MinusBelow(at + off, s.file.start);
      assert ByteStep(o, s, at + off, remaining) == s;
      QuietBytes(o, ss, deep, s, at, off + if deep then 1 else ss, remaining - if deep then 1 else ss);
    }
  }

  lemma {:induction false} QuietSectors(o: Oracles, ss: nat, deep: bool, s: State, from: nat, n: nat, size: nat, i: nat)
    requires ss > 0 && n * ss <= size && i <= n && Quiet(s, from + n * ss)
    requires forall a :: a >= from + i * ss ==> o.constant(a)
    ensures ChunkSectors(o, ss, deep, s, from, n, size, i) == s
    decreases n - i
  {
    hide SectorBytes;
    if i < n {
      SectorInside(i, n, ss, n * ss);
      SectorInside(i, n, ss, size);
      assert (i + 1) * ss == i * ss + ss;
      MinusBelow(from + i * ss + ss, s.file.start);
      QuietSectors(o, ss, deep, s, from, n, size, i + 1);
    }
  }

  function SectorAt(from: nat, m: nat, ss: nat): nat {
    MulNonNeg(m, ss);
    from + m * ss
  }

  /** Constant sectors up to the one where the footer is. */
  lemma {:induction false} FooterReached(o: Oracles, ss: nat, deep: bool, s: State, from: nat, n: nat, size: nat,
                                         i: nat)
    requires ss > 0 && n * ss <= size && i < n && s.file == Open(from, ANY, n * ss)
    requires forall m {:trigger SectorAt(from, m, ss)} :: i <= m < n ==> o.constant(SectorAt(from, m, ss))
    ensures ChunkSectors(o, ss, deep, s, from, n, size, i) == Emitted(s, n * ss)
    decreases n - i
  {
    hide SectorBytes, Emitted;
    SectorInside(i, n, ss, n * ss);
    SectorInside(i, n, ss, size);
    assert (i + 1) * ss == i * ss + ss;
    assert o.constant(SectorAt(from, i, ss));
    MinusBelow(from + i * ss + ss, from);
    if i + 1 < n {
      SectorInside(i + 1, n, ss, n * ss);
      FooterReached(o, ss, deep, s, from, n, size, i + 1);
    }
  }

  /** The first chunk: the first file, as long as the chunk. */
  lemma FirstChunk(j: Job)
    requires ValidJob(j) && !Regular(j)
    ensures j.sectors > PerChunk(j)
    ensures ChunkScan(Witness(j), j, INITIAL, 0)
              == State(Closed, [Extent(j.start, PerChunk(j) * j.ss)], [ANY], 1, PerChunk(j) * j.ss)
  {
    hide SectorStep, ChunkSectors, Witness, PerChunk, Rescanned, ChunkScan;
    var o, ss, n := Witness(j), j.ss, PerChunk(j);
    WitnessIs(j);
    RescannedIs(j);
    ChunkStart(j, 0);
    LongEnough(j);
    FirstChunkWhole(j);
    FirstScan(o, j);
    MulNonNeg(n, ss);
    var s1 := INITIAL.(file := Open(j.start, ANY, n * ss));
    StartSector(o, ss, j.deep, INITIAL, j.start, CHUNK, n * ss);
    UnfoldChunk(o, ss, j.deep, INITIAL, j.start, n, CHUNK, 0);
    OtherSectors(j);
    FooterReached(o, ss, j.deep, s1, j.start, n, CHUNK, 1);
  }

  /** No sector of the first chunk but the first starts at a file. */
  lemma OtherSectors(j: Job)
    requires ValidJob(j) && !Regular(j)
    ensures forall m {:trigger SectorAt(j.start, m, j.ss)} :: 1 <= m < PerChunk(j) ==>
              j.start < SectorAt(j.start, m, j.ss) && SectorAt(j.start, m, j.ss) != Rescanned(j)
  {
    hide PerChunk, Rescanned;
    RescannedIs(j);
    DivTimes(OVERLAP, j.ss);
    forall m {:trigger SectorAt(j.start, m, j.ss)} | 1 <= m < PerChunk(j)
      ensures j.start < SectorAt(j.start, m, j.ss) && SectorAt(j.start, m, j.ss) != Rescanned(j)
    {
      Distribute(m, PerChunk(j) - m, j.ss);
      MulAtLeast(PerChunk(j) - m, j.ss);
      MulAtLeast(m, j.ss);
    }
  }

  lemma LongEnough(j: Job)
    requires ValidJob(j) && !Regular(j)
    ensures j.sectors > PerChunk(j) + Skipped(j) && PerChunk(j) * j.ss > j.ss
  {
    ChunkStart(j, 0);
    Distribute(PerChunk(j) - 2, 2, j.ss);
    MulNonNeg(PerChunk(j) - 2, j.ss);
  }

  lemma FirstScan(o: Oracles, j: Job)
    requires ValidJob(j) && j.sectors > PerChunk(j)
    ensures PerChunk(j) * j.ss <= CHUNK
    ensures ChunkScan(o, j, INITIAL, 0) == ChunkSectors(o, j.ss, j.deep, INITIAL, j.start, PerChunk(j), CHUNK, 0)
  {
    hide ChunkSectors;
    ChunkStart(j, 0);
    FirstChunkWhole(j);
  }

  lemma WitnessIs(j: Job)
    requires ValidJob(j)
    ensures var o, second := Witness(j), Rescanned(j);
            && (forall a :: o.constant(a) <==> a != j.start && a != second)
            && (forall pos, r, f :: o.header(pos, r, f) == if pos == j.start || pos == second then [ANY] else [])
            && (forall pos, r, h :: o.footer(pos, r, h) == if pos == j.start then PerChunk(j) * j.ss else 0)
            && (forall a :: o.readable(a)) && forall c :: !o.cancel(c)
  {
  }

  /** Where the second chunk starts: a part of a sector before the end of the first. */
  lemma RescannedIs(j: Job)
    requires ValidJob(j) && !Regular(j)
    ensures Rescanned(j) == j.start + PerChunk(j) * j.ss - OVERLAP % j.ss
    ensures Rescanned(j) < j.start + PerChunk(j) * j.ss && j.start + j.ss < Rescanned(j)
    ensures PerChunk(j) * j.ss > MIN_SIZE
  {
    ChunkStart(j, PerChunk(j));
    DivTimes(OVERLAP, j.ss);
    Distribute(PerChunk(j) - 2, 2, j.ss);
    MulNonNeg(PerChunk(j) - 2, j.ss);
  }

  lemma FirstChunkWhole(j: Job)
    requires ValidJob(j) && j.sectors > PerChunk(j)
    ensures ChunkBytes(j, 0) == CHUNK && ChunkCount(j, 0) == PerChunk(j)
  {
    DivTimes(CHUNK, j.ss);
    Distribute(PerChunk(j) + 1, j.sectors - PerChunk(j) - 1, j.ss);
    Distribute(PerChunk(j), 1, j.ss);
    MulNonNeg(j.sectors - PerChunk(j) - 1, j.ss);
  }

  lemma UnfoldChunk(o: Oracles, ss: nat, deep: bool, s: State, from: nat, n: nat, size: nat, i: nat)
    requires ss > 0 && n * ss <= size && i < n
    ensures 0 <= i * ss <= size
    ensures ChunkSectors(o, ss, deep, s, from, n, size, i)
            == ChunkSectors(o, ss, deep, SectorStep(o, ss, deep, s, from + i * ss, size - i * ss), from, n, size, i + 1)
  {
    SectorInside(i, n, ss, size);
  }

  /** A sector whose first byte starts a file and that has no other header. */
  lemma StartSector(o: Oracles, ss: nat, deep: bool, s: State, at: nat, remaining: nat, footer: nat)
    requires 0 < ss <= remaining && !o.constant(at) && s.file == Closed && (footer == 0 || footer > ss)
    requires (forall r, f :: o.header(at, r, f) == [ANY]) && forall r :: o.footer(at, r, ANY) == footer
    requires forall pos, r, f :: at < pos < at + ss ==> o.header(pos, r, f) == []
    ensures SectorStep(o, ss, deep, s, at, remaining) == s.(file := Open(at, ANY, footer))
  {
    var t := s.(file := Open(at, ANY, footer));
    assert ByteStep(o, s, at, remaining) == t;
    var step := if deep then 1 else ss;
    if remaining - step >= 0 && step <= ss {
      QuietBytes(o, ss, deep, t, at, step, remaining - step);
    }
  }

  /** The second chunk opens the second file, which nothing ends any more. */
  lemma SecondChunk(j: Job, s: State)
    requires ValidJob(j) && !Regular(j) && s.file == Closed && j.sectors > PerChunk(j)
    ensures ChunkScan(Witness(j), j, s, PerChunk(j)) == s.(file := Open(Rescanned(j), ANY, 0))
  {
    hide SectorBytes, ChunkSectors, Witness, ChunkCount, ChunkBytes;
    var o, ss, n, k := Witness(j), j.ss, PerChunk(j), Skipped(j);
    WitnessIs(j);
    RescannedIs(j);
    ChunkStart(j, n);
    SecondScanned(j);
    var from, count, size := ReadFrom(j, n), ChunkCount(j, n), ChunkBytes(j, n);
    SectorInside(k, count, ss, size);
    var t := s.(file := Open(Rescanned(j), ANY, 0));
    StartSector(o, ss, j.deep, s, Rescanned(j), size - k * ss, 0);
    UnfoldChunk(o, ss, j.deep, s, from, count, size, k);
    assert (k + 1) * ss == k * ss + ss;
    QuietSectors(o, ss, j.deep, t, from, count, size, k + 1);
  }

  lemma SecondScanned(j: Job)
    requires ValidJob(j) && j.sectors > PerChunk(j) + Skipped(j)
    ensures Skipped(j) < ChunkCount(j, PerChunk(j))
  {
    var left := j.sectors - PerChunk(j);
    SkippedIsLess(j);
    if left * j.ss < CHUNK {
      ModOfMultiple(left, j.ss);
    }
  }

  /** Later chunks change nothing. */
  lemma {:induction false} LaterChunks(j: Job, s: State, chunk: nat)
    requires ValidJob(j) && !Regular(j) && s.file == Open(Rescanned(j), ANY, 0) && chunk >= 2 * PerChunk(j)
    ensures Scan(Witness(j), j, s, chunk) == (s, false)
    decreases j.sectors - chunk
  {
    hide ChunkSectors, Witness, ChunkCount, ChunkBytes, ReadFrom, PerChunk, Regular;
    if chunk < j.sectors {
      WitnessIs(j);
      RescannedIs(j);
      LaterIsAfter(j, chunk);
      var o := Witness(j);
      var count := ChunkCount(j, chunk);
      if Skipped(j) <= count {
        QuietSectors(o, j.ss, j.deep, s, ReadFrom(j, chunk), count, ChunkBytes(j, chunk), Skipped(j));
      } else {
        NoSectors(o, j.ss, j.deep, s, ReadFrom(j, chunk), count, ChunkBytes(j, chunk), Skipped(j));
      }
      LaterChunks(j, s, chunk + PerChunk(j));
    }
  }

  lemma LaterIsAfter(j: Job, chunk: nat)
    requires ValidJob(j) && chunk >= 2 * PerChunk(j)
    ensures 0 <= Skipped(j) * j.ss && ReadFrom(j, chunk) + Skipped(j) * j.ss > Rescanned(j)
  {
    hide PerChunk, Skipped;
    var n, ss := PerChunk(j), j.ss;
    ChunkStart(j, chunk);
    ChunkStart(j, n);
    Distribute(n, chunk - n, ss);
    MulNonNeg(Skipped(j), ss);
    Distribute(n, chunk - 2 * n, ss);
    MulNonNeg(chunk - 2 * n, ss);
  }

  /** With the witness, the second entry starts before the first one ends. */
  lemma WitnessOverlaps(j: Job)
    requires ValidJob(j) && Addressable(j) && !Regular(j)
    ensures !Chained(Carved(Witness(j), j, 0).extents, j.start, j.start + j.sectors * j.ss)
  {
    hide ChunkScan, Witness, Scan, PerChunk, Skipped, Rescanned, Regular, Chained;
    var o, n := Witness(j), PerChunk(j);
    WitnessIs(j);
    RescannedIs(j);
    LongEnough(j);
    FirstChunk(j);
    var s1 := ChunkScan(o, j, INITIAL, 0);
    SecondChunk(j, s1);
    var s2 := ChunkScan(o, j, s1, n);
    LaterChunks(j, s2, 2 * n);
    ScanStep(o, j, INITIAL, 0);
    ScanStep(o, j, s1, n);
    EndIsFar(j);
    MinusIs(j.start + j.sectors * j.ss, Rescanned(j));
    var end := j.start + j.sectors * j.ss;
    var first, second := Extent(j.start, n * j.ss), Extent(Rescanned(j), end - Rescanned(j));
    assert Carved(o, j, 0).extents == [first, second];
    NotChained(first, second, j.start, end);
  }

  lemma NotChained(a: Extent, b: Extent, low: nat, high: nat)
    requires a.End() > b.start
    ensures !Chained([a, b], low, high)
  {
    var es := [a, b];
    assert es[0].End() > es[1].start;
  }

  lemma ScanStep(o: Oracles, j: Job, s: State, chunk: nat)
    requires ValidJob(j) && (chunk == 0 || chunk >= PerChunk(j)) && chunk < j.sectors
    requires o.readable(ReadFrom(j, chunk)) && !o.cancel(chunk)
    ensures Scan(o, j, s, chunk) == Scan(o, j, ChunkScan(o, j, s, chunk), chunk + PerChunk(j))
  {
    hide ChunkScan;
  }

  lemma EndIsFar(j: Job)
    requires ValidJob(j) && !Regular(j)
    ensures j.start + j.sectors * j.ss >= Rescanned(j) + MIN_SIZE
  {
    RescannedIs(j);
    DivTimes(OVERLAP, j.ss);
    Distribute(PerChunk(j), j.sectors - PerChunk(j), j.ss);
    Distribute(Skipped(j) + 1, j.sectors - PerChunk(j) - Skipped(j) - 1, j.ss);
    Distribute(Skipped(j), 1, j.ss);
    MulNonNeg(j.sectors - PerChunk(j) - Skipped(j) - 1, j.ss);
  }

  /** The entries are disjoint for all formats exactly when the chunks are regular: 64 KiB must be a whole number of
      sectors, unless the partition is too short for a second chunk to be scanned.  Sectors of 1536 bytes, which
      src/core/geometry.c:50-63 allows, are not regular. */
  lemma DisjointIffRegular(j: Job)
    requires ValidJob(j) && Addressable(j)
    ensures (forall o :: Chained(Carved(o, j, 0).extents, j.start, j.start + j.sectors * j.ss)) <==> Regular(j)
    ensures j.ss == 1536 && j.sectors > 400 ==> !Regular(j)
  {
    hide Carved, Chained;
    if Regular(j) {
      forall o
        ensures Chained(Carved(o, j, 0).extents, j.start, j.start + j.sectors * j.ss)
      {
        CarvedSafely(o, j, 0);
      }
    } else {
      WitnessOverlaps(j);
    }
  }
}

/** The tree nodes of carved files: src/core/carver.c:453-493. */
module CarvedFiles {
  import opened Arith
  import opened Disks
  import opened PathTree
  import opened Clipping
  import opened Carving

  // ----- names -----

  /** The last `width` decimal digits of n: %0<width>u. */
  function Decimal(n: nat, width: nat): (d: seq<byte>)
    ensures |d| == width && forall i :: 0 <= i < width ==> 48 <= d[i] < 58
  {
    if width == 0 then [] else Decimal(n / 10, width - 1) + [48 + n % 10]
  }

  /** The number a row of digits stands for. */
  function DigitsValue(d: seq<byte>): int {
    if |d| == 0 then 0 else DigitsValue(d[..|d| - 1]) * 10 + d[|d| - 1] - 48
  }

  /** A number of at most `width` digits is what its digits stand for. */
  lemma {:induction false} DecimalValue(n: nat, width: nat, bound: nat)
    requires IsPower(bound, width) && n < bound
    ensures DigitsValue(Decimal(n, width)) == n
    decreases width
  {
    if width > 0 {
      var d := Decimal(n, width);
      assert d[..width - 1] == Decimal(n / 10, width - 1) && d[width - 1] == 48 + n % 10;
      DecimalValue(n / 10, width - 1, bound / 10);
    }
  }

  /** bound is 10 to the power width. */
  predicate IsPower(bound: nat, width: nat) {
    if width == 0 then bound == 1 else bound % 10 == 0 && IsPower(bound / 10, width - 1)
  }

  const DIGITS: nat := 10
  const LONGEST_UPPER: nat := 31
  const NAME_SIZE: nat := 64
  const PATH_SIZE: nat := 192

  function UpperCase(c: byte): byte {
    if 97 <= c <= 122 then c - 32 else c
  }

  /** ext_upper */
  function Upper(ext: CString): (u: seq<byte>)
    ensures |u| <= |ext| && 0 !in u
  {
    var n := Min(|ext|, LONGEST_UPPER);
    seq(n, i requires 0 <= i < n => UpperCase(ext[i]))
  }

  /** "file_0000000042." */
  function Stem(n: nat): (s: seq<byte>)
    ensures |s| == 16 && SLASH !in s && 0 !in s
  {
    [102, 105, 108, 101, 95] + Decimal(n, DIGITS) + [46]
  }

  function FileName(n: nat, ext: CString): CString {
    Clipped(Stem(n) + ext, NAME_SIZE)
  }

  const ORPHAN: seq<byte> := [SLASH, 79, 82, 80, 72, 65, 78]

  /** "/ORPHAN/JPG/file_0000000042.jpg" */
  function FilePath(n: nat, ext: CString): CString {
    Clipped(ORPHAN + [SLASH] + Upper(ext) + [SLASH] + FileName(n, ext), PATH_SIZE)
  }

  // ----- their nodes -----

  /** Where the file lies in the partition that starts at `partOffset`. */
  function FileAttrs(e: Extent, partOffset: nat, ss: nat): Attrs
    requires ss > 0
  {
    DivNonNeg(e.size + ss - 1, ss);
    Attrs(false, e.size, Minus(e.start, partOffset), (e.size + ss - 1) / ss, 0, ss, true)
  }

  /** carver_add_entry: the tree with the n-th file. */
  function WithFile(t: Tree, n: nat, e: Extent, h: Hint, partOffset: nat, ss: nat): Tree
    requires ss > 0
  {
    var p, a := Tokens(FilePath(n, h.extension)), FileAttrs(e, partOffset, ss);
    AddPathFound(t, p, a);
    var t1 := AddPath(t, p, a);
    var node := Lookup(t1, p)[0];
    Put(t1, p, node.(info := node.info.(orphan := true)))
  }

  /** The tree after a scan that found these files. */
  function WithFiles(t: Tree, es: seq<Extent>, hints: seq<Hint>, partOffset: nat, ss: nat): Tree
    requires ss > 0 && |es| == |hints|
  {
    if |es| == 0 then t
    else
      var n := |es| - 1;
      WithFile(WithFiles(t, es[..n], hints[..n], partOffset, ss), n, es[n], hints[n], partOffset, ss)
  }

  lemma WithNone(t: Tree, partOffset: nat, ss: nat)
    requires ss > 0
    ensures WithFiles(t, [], [], partOffset, ss) == t
  {
  }

  lemma WithOneMore(t: Tree, es: seq<Extent>, hints: seq<Hint>, e: Extent, h: Hint, partOffset: nat, ss: nat)
    requires ss > 0 && |es| == |hints|
    ensures WithFiles(t, es + [e], hints + [h], partOffset, ss)
            == WithFile(WithFiles(t, es, hints, partOffset, ss), |es|, e, h, partOffset, ss)
  {
    assert (es + [e])[..|es|] == es && (hints + [h])[..|es|] == hints;
  }

  // ----- no two files share a path -----

  /** Pieces shorter than any numbered name. */
  ghost predicate Short(ts: seq<Name>) {
    forall i :: 0 <= i < |ts| ==> |ts[i]| < 16
  }

  lemma {:induction false} TokensAreShort(s: seq<byte>)
    ensures forall i :: 0 <= i < |Tokens(s)| ==> |Tokens(s)[i]| <= |s|
    decreases |s|
  {
    if |s| > 0 {
      if s[0] == SLASH {
        TokensAreShort(s[1..]);
      } else {
        TokensAreShort(s[PieceLength(s)..]);
      }
    }
  }

  lemma {:induction false} PieceAtLeast(a: seq<byte>, b: seq<byte>)
    requires SLASH !in a
    ensures PieceLength(a + b) >= |a|
    decreases |a|
  {
    if |a| > 0 {
      assert (a + b)[0] == a[0] && (a + b)[1..] == a[1..] + b;
      PieceAtLeast(a[1..], b);
    }
  }

  /** A slash separates. */
  lemma {:induction false} TokensConcat(a: seq<byte>, b: seq<byte>)
    ensures Tokens(a + [SLASH] + b) == Tokens(a) + Tokens(b)
    decreases |a|
  {
    hide Tokens, PieceLength;
    var s := a + [SLASH] + b;
    if |a| == 0 {
      assert s == [SLASH] + b;
      LeadingSlash(b);
      NoTokens(a);
    } else if a[0] == SLASH {
      assert s == [SLASH] + (a[1..] + [SLASH] + b) && a == [SLASH] + a[1..];
      LeadingSlash(a[1..]);
      LeadingSlash(a[1..] + [SLASH] + b);
      TokensConcat(a[1..], b);
    } else {
      var n := PieceLength(a);
      var rest := a[n..] + [SLASH] + b;
      assert s == a[..n] + rest && a == a[..n] + a[n..];
      assert n < |a| ==> a[n] == SLASH;
      assert n > 0 && SLASH !in a[..n];
      FirstPiece(a[..n], rest);
      FirstPiece(a[..n], a[n..]);
      TokensConcat(a[n..], b);
    }
  }

  lemma LeadingSlash(s: seq<byte>)
    ensures Tokens([SLASH] + s) == Tokens(s)
  {
    assert ([SLASH] + s)[1..] == s;
  }

  lemma NoTokens(s: seq<byte>)
    requires |s| == 0
    ensures Tokens(s) == []
  {
  }

  lemma FirstPiece(n: Name, rest: seq<byte>)
    requires |n| > 0 && SLASH !in n && (|rest| > 0 ==> rest[0] == SLASH)
    ensures Tokens(n + rest) == [n] + Tokens(rest)
  {
    PieceOfName(n, rest);
    assert (n + rest)[0] == n[0] && (n + rest)[..|n|] == n && (n + rest)[|n|..] == rest;
  }

  /** The numbered name stands out in a path, even when the extension has slashes in it. */
  lemma FileTokens(n: nat, ext: CString) returns (a: seq<Name>, x: Name, b: seq<Name>)
    requires |ext| < 16
    ensures Tokens(FilePath(n, ext)) == a + [x] + b && Short(a) && Short(b) && |x| >= 16 && x[..16] == Stem(n)
  {
    hide Tokens, PieceLength, Stem, Upper;
    var front, name := ORPHAN + [SLASH] + Upper(ext), Stem(n) + ext;
    assert FilePath(n, ext) == front + [SLASH] + name;
    TokensConcat(front, name);
    TokensConcat(ORPHAN, Upper(ext));
    TokensAreShort(ORPHAN);
    TokensAreShort(Upper(ext));
    a := Tokens(front);
    PieceAtLeast(Stem(n), ext);
    assert name[0] == Stem(n)[0] && Stem(n)[0] in Stem(n);
    x, b := FirstToken(name);
    assert x[..16] == name[..16] == Stem(n);
  }

  lemma FirstToken(s: seq<byte>) returns (x: Name, b: seq<Name>)
    requires |s| > 0 && s[0] != SLASH && PieceLength(s) >= 16 && |s| < 32
    ensures Tokens(s) == [x] + b && 16 <= |x| <= |s| && x == s[..|x|] && Short(b)
  {
    x, b := s[..PieceLength(s)], Tokens(s[PieceLength(s)..]);
    TokensAreShort(s[PieceLength(s)..]);
  }

  /** Two files have different paths, and neither path leads through the other. */
  lemma PathsApart(n: nat, m: nat, d: CString, e: CString)
    requires n != m && n < MAX_FILES && m < MAX_FILES && |d| < 16 && |e| < 16
    ensures Tokens(FilePath(n, d)) != Tokens(FilePath(m, e))
    ensures !OnTheWay(Tokens(FilePath(n, d)), Tokens(FilePath(m, e)))
  {
    hide Tokens, FilePath, Stem;
    var a, x, b := FileTokens(n, d);
    var a', x', b' := FileTokens(m, e);
    var p, q := Tokens(FilePath(n, d)), Tokens(FilePath(m, e));
    if p == q || OnTheWay(p, q) {
      SameNumbered(a, x, b, a', x', b', p, q);
      StemsApart(n, m);
    }
  }

  /** The one long name of a path is that of any path that goes on from it. */
  lemma SameNumbered(a: seq<Name>, x: Name, b: seq<Name>, a': seq<Name>, x': Name, b': seq<Name>, p: seq<Name>,
                     q: seq<Name>)
    requires p == a + [x] + b && q == a' + [x'] + b' && Short(a') && Short(b') && |x| >= 16
    requires |p| <= |q| && p == q[..|p|]
    ensures x == x'
  {
    assert p[|a|] == x && q[|a|] == p[|a|];
    ShortElsewhere(a', x', b', |a|);
  }

  lemma ShortElsewhere(a: seq<Name>, x: Name, b: seq<Name>, k: nat)
    requires Short(a) && Short(b) && k < |a| + 1 + |b|
    ensures k == |a| || |(a + [x] + b)[k]| < 16
  {
    if k < |a| {
      assert (a + [x] + b)[k] == a[k];
    } else if k > |a| {
      assert (a + [x] + b)[k] == b[k - |a| - 1];
    }
  }

  lemma StemsApart(n: nat, m: nat)
    requires n != m && n < MAX_FILES && m < MAX_FILES
    ensures Stem(n) != Stem(m)
  {
    hide Decimal;
    if Stem(n) == Stem(m) {
      assert Stem(n)[5..15] == Decimal(n, DIGITS) && Stem(m)[5..15] == Decimal(m, DIGITS);
      TenDigits();
      DecimalValue(n, DIGITS, 10_000_000_000);
      DecimalValue(m, DIGITS, 10_000_000_000);
    }
  }

  lemma TenDigits()
    ensures IsPower(10_000_000_000, DIGITS)
  {
  }

  lemma FilePathTokens(n: nat, ext: CString)
    requires 0 < |ext| < 16 && SLASH !in ext
    ensures Tokens(FilePath(n, ext)) == [[79, 82, 80, 72, 65, 78], Upper(ext), Stem(n) + ext]
  {
    hide Tokens, PieceLength, Decimal, Stem;
    var orphan, upper, name := [79, 82, 80, 72, 65, 78], Upper(ext), Stem(n) + ext;
    assert SLASH !in upper;
    hide Upper;
    assert FilePath(n, ext) == [SLASH] + (orphan + ([SLASH] + (upper + ([SLASH] + (name + [])))));
    LeadingSlash(orphan + ([SLASH] + (upper + ([SLASH] + (name + [])))));
    FirstPiece(orphan, [SLASH] + (upper + ([SLASH] + (name + []))));
    LeadingSlash(upper + ([SLASH] + (name + [])));
    FirstPiece(upper, [SLASH] + (name + []));
    LeadingSlash(name + []);
    FirstPiece(name, []);
    NoTokens([]);
  }

  /** The path of a carved file: ORPHAN, the extension in capitals, and the numbered name. */
  lemma FilePathIs(n: nat, ext: CString)
    requires n < MAX_FILES && 0 < |ext| < 16 && SLASH !in ext
    ensures var p := Tokens(FilePath(n, ext));
            && |p| == 3 && p[0] == [79, 82, 80, 72, 65, 78]
            && |p[1]| == |ext|
            && (forall i :: 0 <= i < |ext| ==> p[1][i] == if 97 <= ext[i] <= 122 then ext[i] - 32 else ext[i])
            && |p[2]| == 16 + |ext| && p[2][..5] == [102, 105, 108, 101, 95]
            && (forall i :: 5 <= i < 15 ==> 48 <= p[2][i] < 58) && DigitsValue(p[2][5..15]) == n
            && p[2][15] == 46 && p[2][16..] == ext
  {
    hide Tokens, FilePath, Decimal, DigitsValue;
    FilePathTokens(n, ext);
    TenDigits();
    DecimalValue(n, DIGITS, 10_000_000_000);
    assert (Stem(n) + ext)[5..15] == Decimal(n, DIGITS);
  }

  // ----- every file keeps its node -----

  /** The fields of a carved file's node, given what was at its path before. */
  function FileInfo(before: seq<Tree>, p: seq<Name>, a: Attrs): Info
    requires |p| > 0
  {
    (if |before| == 0 then NewInfo(p[|p| - 1], a) else Touched(before[0].info, a)).(orphan := true)
  }

  /** One file, seen from any path. */
  lemma WithFileLookup(t: Tree, n: nat, e: Extent, h: Hint, partOffset: nat, ss: nat, p: seq<Name>)
    requires ss > 0 && |Tokens(FilePath(n, h.extension))| > 0
    ensures var q, a := Tokens(FilePath(n, h.extension)), FileAttrs(e, partOffset, ss);
            var before, after := Lookup(t, p), Lookup(WithFile(t, n, e, h, partOffset, ss), p);
            if p == q then
              && |after| == 1
              && after[0].info == FileInfo(before, p, a)
            else if |before| == 1 then |after| == 1 && after[0].info == before[0].info
            else if OnTheWay(p, q) then |after| == 1 && after[0].info == NewInfo(p[|p| - 1], DirAttrs)
            else after == []
  {
    hide Lookup, AddPath, Put, Tokens, Touched, NewInfo, FileAttrs, OnTheWay, FilePath;
    var q, a := Tokens(FilePath(n, h.extension)), FileAttrs(e, partOffset, ss);
    AddPathFound(t, q, a);
    var t1 := AddPath(t, q, a);
    var node := Lookup(t1, q)[0];
    AddPathLookup(t, q, a, p);
    OnItsOwnWay(q);
    PutInfoLookup(t1, q, node.(info := node.info.(orphan := true)), p);
  }

  /** Where a node whose path is new says the file lies: from its first byte on, in as few sectors as hold it. */
  lemma NewFileInfo(p: seq<Name>, e: Extent, partOffset: nat, ss: nat)
    requires |p| > 0 && ss > 0
    ensures var i := FileInfo([], p, FileAttrs(e, partOffset, ss));
            && i.name == p[|p| - 1] && !i.isDir && i.size == e.size && i.firstSector == (e.start - partOffset) % WORD64
            && 0 <= i.numSectors * ss - e.size < ss
            && i.mtime == 0 && i.sectorSize == ss && i.deleted && i.orphan && !i.marked && i.clusterList == []
  {
    DivTimes(e.size + ss - 1, ss);
  }

  /** After a scan every file has its node, with its place and size, whatever was found before or after it; a node that
      was there before the scan keeps what it has if it was deleted already. */
  lemma {:induction false} EveryFileIsThere(t: Tree, es: seq<Extent>, hints: seq<Hint>, partOffset: nat, ss: nat,
                                            i: nat)
    requires ss > 0 && |es| == |hints| <= MAX_FILES && i < |es| && forall k :: 0 <= k < |es| ==>
              |hints[k].extension| < 16
    ensures |Tokens(FilePath(i, hints[i].extension))| > 0
    ensures var p, a := Tokens(FilePath(i, hints[i].extension)), FileAttrs(es[i], partOffset, ss);
            var before, after := Lookup(t, p), Lookup(WithFiles(t, es, hints, partOffset, ss), p);
            && |after| == 1
            && after[0].info == FileInfo(before, p, a)
    decreases |es|
  {
    hide Lookup, Tokens, FilePath, FileAttrs, WithFile, Touched, NewInfo, OnTheWay;
    var n := |es| - 1;
    var p := Tokens(FilePath(i, hints[i].extension));
    var mid := WithFiles(t, es[..n], hints[..n], partOffset, ss);
    var a, x, b := FileTokens(i, hints[i].extension);
    var a', x', b' := FileTokens(n, hints[n].extension);
    WithFileLookup(mid, n, es[n], hints[n], partOffset, ss, p);
    if i < n {
      EveryFileIsThere(t, es[..n], hints[..n], partOffset, ss, i);
      PathsApart(i, n, hints[i].extension, hints[n].extension);
    } else {
      NotYetThere(t, es[..n], hints[..n], partOffset, ss, i, hints[i].extension);
    }
  }

  /** Files with other numbers neither create nor change a node. */
  lemma {:induction false} NotYetThere(t: Tree, es: seq<Extent>, hints: seq<Hint>, partOffset: nat, ss: nat, i: nat,
                                       ext: CString)
    requires ss > 0 && |es| == |hints| <= i < MAX_FILES && |ext| < 16
    requires forall k :: 0 <= k < |es| ==> |hints[k].extension| < 16
    ensures var p := Tokens(FilePath(i, ext));
            var before, after := Lookup(t, p), Lookup(WithFiles(t, es, hints, partOffset, ss), p);
            |before| == |after| && (|before| == 1 ==> after[0].info == before[0].info)
    decreases |es|
  {
    hide Lookup, Tokens, FilePath, FileAttrs, WithFile, Touched, NewInfo, OnTheWay;
    if |es| > 0 {
      var n := |es| - 1;
      var p := Tokens(FilePath(i, ext));
      var mid := WithFiles(t, es[..n], hints[..n], partOffset, ss);
      var a, x, b := FileTokens(n, hints[n].extension);
      NotYetThere(t, es[..n], hints[..n], partOffset, ss, i, ext);
      WithFileLookup(mid, n, es[n], hints[n], partOffset, ss, p);
      PathsApart(i, n, ext, hints[n].extension);
    }
  }
}

/** The scanning loops, over the carver's own variables. */
module CarverRuns {
  import opened Arith
  import opened Carving
  import opened CarvedPieces
  import opened PathTree
  import opened ScanTrees
  import opened CarvedFiles
  import opened CarverStats

  class Carver {
    const job: Job
    const tree: ScanTree
    const stats: ExtStats
    var file: Current
    var extents: seq<Extent>
    var hints: seq<Hint>
    var carvedCount: nat
    var carvedSize: nat
    /** The tree before the scan. */
    ghost var base: Tree

    /** The tree holds what it held before, and the files carved so far; the statistics count these files. */
    ghost predicate Valid()
      reads this, tree, stats, stats.stats
    {
      && ValidJob(job) && tree.Valid() && |hints| == |extents| == carvedCount <= MAX_FILES
      && tree.Root() == WithFiles(base, extents, hints, job.start, job.ss)
      && stats.Valid() && Exact(stats.Rows(), Files(extents, hints))
    }

    function Now(): State
      reads this
    {
      State(file, extents, hints, carvedCount, carvedSize)
    }

    constructor (tree: ScanTree, job: Job)
      requires tree.Valid() && ValidJob(job)
      ensures this.tree == tree && this.job == job && Valid() && Now() == INITIAL && base == tree.Root()
    {
      this.tree, this.job := tree, job;
      file, extents, hints, carvedCount, carvedSize := Closed, [], [], 0, 0;
      base := tree.Root();
      stats := new ExtStats();
      new;
      NothingIsExact();
    }

    /** carver_add_entry, and the end of the open file. */
    method AddEntry(size: nat)
      requires Valid() && file.Open?
      modifies this, tree, stats, stats.stats
      ensures Valid() && base == old(base) && Now() == Emitted(old(Now()), size)
    {
      hide WithFiles, WithFile, ScanTree.Valid, ScanTree.Root, Exact, Files, Counted;
      if carvedCount < MAX_FILES && size >= MIN_SIZE {
        var e, hint := Extent(file.start, size), file.hint;
        AddToTree(e, hint);
        WithOneMore(base, extents, hints, e, hint, job.start, job.ss);
        CountedIsExact(stats.Rows(), Files(extents, hints), Sized(hint.extension, size));
        FilesNext(extents, hints, e, hint);
        stats.Add(hint.extension, size);
        extents, hints := extents + [e], hints + [hint];
        carvedCount := carvedCount + 1;
        carvedSize := carvedSize + size;
      }
      file := Closed;
    }

    /** tree_add_path under the next name; node->orphan = 1 */
    method AddToTree(e: Extent, hint: Hint)
      requires tree.Valid() && job.ss > 0
      modifies tree
      ensures tree.Valid()
      ensures tree.Root() == WithFile(old(tree.Root()), carvedCount, e, hint, job.start, job.ss)
    {
      hide Tokens, AddPath, Put, Linked, WellNamed, Abs, CountFiles, Resolve, Lookup, FilePath, FileAttrs;
      var path := FilePath(carvedCount, hint.extension);
      var node := tree.TreeAddPath(path, FileAttrs(e, job.start, job.ss));
      ResolveIsLookup(tree.nodes, 0, Tokens(path));
      AbsInfo(tree.nodes, node);
      tree.SetInfo(node, tree.nodes[node].info.(orphan := true), Tokens(path));
    }

    /** A constant sector. */
    method ConstantSector(at: nat)
      requires Valid()
      modifies this, tree, stats, stats.stats
      ensures Valid() && base == old(base)
      ensures Now() == ConstantStep(job.ss, old(Now()), at)
    {
      hide WithFiles, ScanTree.Valid, ScanTree.Root, Exact, Files, Counted;
      if file == Closed {
        return;
      }
      var gapLimit := if file.hint.maxFilesize == 0 then MAX_GAP else file.hint.maxFilesize;
      if file.footerLen > 0 && at + job.ss >= file.start + file.footerLen {
        AddEntry(file.footerLen);
        return;
      }
      if Minus(at + job.ss, file.start) > gapLimit {
        var size := Minus(at + job.ss, file.start);
        if size > gapLimit {
          size := gapLimit;
        }
        AddEntry(size);
      }
    }

    /** A header at `pos`. */
    method HeaderFound(o: Oracles, h: Hint, pos: nat, remaining: nat)
      requires o.header(pos, remaining, file) != [] && h == o.header(pos, remaining, file)[0]
      requires Valid()
      modifies this, tree, stats, stats.stats
      ensures Valid() && base == old(base)
      ensures Now() == ByteStep(o, old(Now()), pos, remaining)
    {
      hide WithFiles, ScanTree.Valid, ScanTree.Root, Exact, Files, Counted, CutSize, Minus;
      var skipMatch := false;
      if file.Open? && file.hint == h {
        if file.footerLen > 0 {
          skipMatch := pos < file.start + file.footerLen;
        } else {
          skipMatch := Minus(pos, file.start) < CHUNK / 8;
        }
      }
      if skipMatch {
        return;
      }
      if file.Open? {
        var diff := SizeUpTo(o, pos, remaining);
        AddEntry(diff);
      }
      var footerAt := o.footer(pos, remaining, h);
      file := Open(pos, h, if footerAt > 0 then footerAt else 0);
    }

    /** The size of the open file, when the next one starts at `pos`. */
    method SizeUpTo(o: Oracles, pos: nat, remaining: nat) returns (diff: nat)
      requires file.Open?
      ensures diff == CutSize(o, file.start, file.hint, file.footerLen, pos, remaining)
    {
      diff := Minus(pos, file.start);
      var gapLimit := if file.hint.maxFilesize == 0 then MAX_GAP else file.hint.maxFilesize;
      if diff > gapLimit {
        diff := gapLimit;
      }
      if file.footerLen > 0 {
        if file.footerLen < diff {
          diff := file.footerLen;
        }
      } else {
        var footerAt := o.footer(pos, remaining, file.hint);
        if footerAt > 0 && footerAt < diff {
          diff := footerAt;
        }
      }
    }

    /** No header at `pos`. */
    method NoHeader(o: Oracles, pos: nat, remaining: nat)
      requires o.header(pos, remaining, file) == []
      requires Valid()
      modifies this, tree, stats, stats.stats
      ensures Valid() && base == old(base)
      ensures Now() == ByteStep(o, old(Now()), pos, remaining)
    {
      hide WithFiles, ScanTree.Valid, ScanTree.Root, Exact, Files, Counted;
      if file == Closed {
        return;
      }
      if file.footerLen > 0 && pos >= file.start + file.footerLen {
        AddEntry(file.footerLen);
        return;
      }
      var gapLimit := if file.hint.maxFilesize == 0 then MAX_GAP else file.hint.maxFilesize;
      if Minus(pos, file.start) > gapLimit {
        var size := Minus(pos, file.start);
        if size > gapLimit {
          size := gapLimit;
        }
        AddEntry(size);
      }
    }

    /** One sector. */
    method ScanSector(o: Oracles, at: nat, bufRemaining: nat)
      requires Valid()
      modifies this, tree, stats, stats.stats
      ensures Valid() && base == old(base)
      ensures Now() == SectorStep(o, job.ss, job.deep, old(Now()), at, bufRemaining)
    {
      hide ByteStep, ConstantStep, WithFiles, ScanTree.Valid, ScanTree.Root, Exact, Files, Counted;
      if o.constant(at) {
        ConstantSector(at);
        return;
      }
      ghost var deep := job.deep;
      var off: nat, remaining: nat := 0, bufRemaining;
      while off < job.ss && remaining >= job.ss
        invariant Valid() && base == old(base)
        invariant SectorBytes(o, job.ss, deep, Now(), at, off, remaining)
                  == SectorBytes(o, job.ss, deep, old(Now()), at, 0, bufRemaining)
        decreases job.ss - off
      {
        var found := o.header(at + off, remaining, file);
        if |found| > 0 {
          HeaderFound(o, found[0], at + off, remaining);
        } else {
          NoHeader(o, at + off, remaining);
        }
        var step := if job.deep then 1 else job.ss;
        off, remaining := off + step, remaining - step;
      }
    }

    /** One chunk that was read. */
    method ScanChunk(o: Oracles, chunk: nat)
      requires Valid() && chunk < job.sectors && (chunk == 0 || chunk >= PerChunk(job))
      modifies this, tree, stats, stats.stats
      ensures Valid() && base == old(base) && Now() == ChunkScan(o, job, old(Now()), chunk)
    {
      hide SectorStep, ReadFrom, ChunkBytes, WithFiles, ScanTree.Valid, ScanTree.Root, Exact, Files, Counted;
      var from, size := ReadFrom(job, chunk), ChunkBytes(job, chunk);
      var n := ChunkCount(job, chunk);
      var skip := if chunk == 0 then 0 else Skipped(job);
      var i := skip;
      while i < n
        invariant Valid() && base == old(base)
        invariant ChunkSectors(o, job.ss, job.deep, Now(), from, n, size, i)
                  == ChunkSectors(o, job.ss, job.deep, old(Now()), from, n, size, skip)
        decreases n - i
      {
        SectorInside(i, n, job.ss, size);
        ScanSector(o, from + i * job.ss, size - i * job.ss);
        i := i + 1;
      }
    }

    /** The chunk at which a scan is resumed. */
    static function ResumeChunk(j: Job, resumeOffset: nat): (chunk: nat)
      requires ValidJob(j)
      ensures chunk == 0 || chunk >= PerChunk(j)
    {
      var chunk := RoundedDown(resumeOffset / j.ss, PerChunk(j));
      if chunk >= j.sectors then 0 else chunk
    }

    /** The chunk with the resume offset in it, when the partition reaches that far. */
    static lemma ResumesInside(j: Job, resumeOffset: nat)
      requires ValidJob(j)
      ensures exists m: nat {:trigger Multiple(m, 524_288 / j.ss)} ::
                && Multiple(m, 524_288 / j.ss) * j.ss <= resumeOffset < Multiple(m + 1, 524_288 / j.ss) * j.ss
                && ResumeChunk(j, resumeOffset)
                     == if Multiple(m, 524_288 / j.ss) < j.sectors then Multiple(m, 524_288 / j.ss) else 0
    {
      var per, sector := PerChunk(j), resumeOffset / j.ss;
      var m := sector / per;
      DivTimes(resumeOffset, j.ss);
      DivTimes(sector, per);
      Distribute(Multiple(m, per), sector - Multiple(m, per), j.ss);
      MulNonNeg(sector - Multiple(m, per), j.ss);
      Distribute(m, 1, per);
      Distribute(sector + 1, Multiple(m + 1, per) - sector - 1, j.ss);
      MulNonNeg(Multiple(m + 1, per) - sector - 1, j.ss);
      Distribute(sector, 1, j.ss);
    }

    /** carver_scan */
    method CarverScan(o: Oracles, resumeOffset: nat) returns (cancelled: bool)
      requires Valid()
      modifies this, tree, stats, stats.stats
      ensures Valid() && base == old(tree.Root()) && Now() == Carved(o, job, ResumeChunk(job, resumeOffset))
      ensures exists ps :: Found(o, job, StopsOf(o, job.ss, job.deep, Sectors(o, job, ResumeChunk(job, resumeOffset))),
                                 ps, Now(), cancelled)
      ensures Forward(job, ResumeChunk(job, resumeOffset)) ==> WellCarved(Now(), job)
      ensures Descending(stats.Rows())
    {
      hide ChunkScan, PerChunk, ReadFrom, WithFiles, Forward, WellCarved, ScanTree.Valid, ScanTree.Root,
           Exact, Files, Counted, Found, Sectors, StopsOf;
      Restart();
      cancelled := false;
      ghost var first := ResumeChunk(job, resumeOffset);
      var chunk := ResumeChunk(job, resumeOffset);
      var reading := true;
      while reading && chunk < job.sectors
        invariant Valid() && base == old(tree.Root()) && (chunk == 0 || chunk >= PerChunk(job))
        invariant reading ==> !cancelled && Scan(o, job, Now(), chunk) == Scan(o, job, INITIAL, first)
        invariant !reading ==> Scan(o, job, INITIAL, first) == (Now(), cancelled)
        decreases reading, job.sectors - chunk
      {
        if !o.readable(ReadFrom(job, chunk)) {
          reading := false;
        } else {
          ScanChunk(o, chunk);
          if o.cancel(chunk) {
            cancelled, reading := true, false;
          } else {
            chunk := chunk + PerChunk(job);
          }
        }
      }
      if !cancelled && file.Open? {
        Finish();
      }
      stats.Sort(Files(extents, hints));
      ghost var ps := CarvedIsFound(o, job, first);
      if Forward(job, first) {
        CarvedSafely(o, job, first);
      }
    }

    /** The counters start again; the tree stays. */
    method Restart()
      requires Valid()
      modifies this, stats
      ensures Valid() && base == tree.Root() && Now() == INITIAL
    {
      hide ScanTree.Valid, ScanTree.Root, Exact, Files, WithFiles;
      file, extents, hints, carvedCount, carvedSize := Closed, [], [], 0, 0;
      base := tree.Root();
      WithNone(base, job.start, job.ss);
      stats.Clear();
      NothingIsExact();
    }

    /** The file still open at the end of the partition. */
    method Finish()
      requires Valid() && file.Open?
      modifies this, tree, stats, stats.stats
      ensures Valid() && base == old(base) && Now() == Finished(job, old(Now()))
    {
      hide WithFiles, ScanTree.Valid, ScanTree.Root, Exact, Files, Counted;
      MulNonNeg(job.sectors, job.ss);
      var size := Minus(job.start + job.sectors * job.ss, file.start);
      if file.footerLen > 0 && file.footerLen < size {
        size := file.footerLen;
      }
      if file.hint.maxFilesize > 0 && size > file.hint.maxFilesize {
        size := file.hint.maxFilesize;
      }
      AddEntry(size);
    }

    /** Every file carved in this scan is in the tree, at its path, with its place and size. */
    lemma EveryFileInTree(i: nat)
      requires Valid() && i < |extents| && forall k :: 0 <= k < |hints| ==> |hints[k].extension| < 16
      ensures var p, a := Tokens(FilePath(i, hints[i].extension)), FileAttrs(extents[i], job.start, job.ss);
              |p| > 0 && var before, after := Lookup(base, p), Lookup(tree.Root(), p);
                         && |after| == 1
                         && after[0].info == FileInfo(before, p, a)
    {
      EveryFileIsThere(base, extents, hints, job.start, job.ss, i);
    }
  }

  /** The multiple of d at or below x. */
  function RoundedDown(x: nat, d: nat): (r: nat)
    requires d > 0
    ensures r == 0 || r >= d
  {
    MulOrZero(x / d, d);
    x / d * d
  }

  function Multiple(m: nat, d: nat): (r: nat) {
    MulNonNeg(m, d);
    m * d
  }

  lemma MulOrZero(a: nat, b: nat)
    requires b > 0
    ensures a * b == 0 || a * b >= b
  {
    if a > 0 {
      assert a * b == (a - 1) * b + b;
      MulNonNeg(a - 1, b);
    } else {
      assert a * b == 0;
    }
  }
}
